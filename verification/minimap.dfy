/** The minimap navigation: six sections with fixed waypoint coordinates, an
    arrow that travels between them, and the hover preview of a heading.
    The arrow's rotation is kept abstract: a heading is either the initial
    "pointing up" or the direction from one waypoint to another, standing
    for the angle `calculateAngle(from, to)` would compute. Two different
    headings may render the same angle, so "the heading is unchanged" is the
    stronger statement. */
module Minimap {

  datatype Section = Home | About | Studies | Blog | Photos | Resume

  datatype Point = Point(x: int, y: int)

  /** The `waypoints` table. */
  function Waypoint(s: Section): Point {
    match s
    case Home => Point(50, 50)
    case About => Point(150, 50)
    case Studies => Point(100, 80)
    case Blog => Point(50, 120)
    case Photos => Point(150, 120)
    case Resume => Point(100, 155)
  }

  /** No two sections share a waypoint. */
  lemma WaypointsDistinct(a: Section, b: Section)
    ensures Waypoint(a) == Waypoint(b) <==> a == b
  {
  }

  datatype Heading = Initial | Toward(from: Section, to: Section)

  /** Where the arrow is drawn and which way it faces. */
  datatype Arrow = Arrow(at: Point, heading: Heading)

  /** The navigation state: the section last clicked, the stored travel
      heading, the drawn arrow, the sections whose target lock is shown and
      whether the target indicator is blinking. */
  datatype Nav = Nav(current: Section, travel: Heading, arrow: Arrow,
                     locked: set<Section>, targeting: bool)

  /** The page on load: at home, pointing up, no lock shown. */
  const Start := Nav(Home, Initial, Arrow(Waypoint(Home), Initial), {}, false)

  /** The arrow sits on the current waypoint facing the travel heading. */
  predicate Resting(n: Nav) {
    n.arrow == Arrow(Waypoint(n.current), n.travel)
  }

  /** Click on a nav link: the heading is recomputed only when the target
      differs from the current section; the arrow moves to the target. */
  function Click(n: Nav, s: Section): (r: Nav)
    ensures r.current == s
    ensures s == n.current ==> r.travel == n.travel
    ensures s != n.current ==> r.travel == Toward(n.current, s)
    ensures Resting(r)
    ensures r.locked == n.locked && r.targeting == n.targeting
  {
    var travel := if s != n.current then Toward(n.current, s) else n.travel;
    n.(current := s, travel := travel, arrow := Arrow(Waypoint(s), travel))
  }

  /** Mouse enters a nav link: the lock and indicator are shown and the
      arrow turns in place toward the hovered section, unless it is the
      current one. */
  function Enter(n: Nav, s: Section): (r: Nav)
    ensures r.current == n.current && r.travel == n.travel
    ensures r.locked == n.locked + {s} && r.targeting
    ensures s != n.current ==> r.arrow == Arrow(Waypoint(n.current), Toward(n.current, s))
    ensures s == n.current ==> r.arrow == n.arrow
  {
    var arrow := if s != n.current then Arrow(Waypoint(n.current), Toward(n.current, s)) else n.arrow;
    n.(arrow := arrow, locked := n.locked + {s}, targeting := true)
  }

  /** Mouse leaves a nav link: the lock and indicator are hidden and the
      arrow is put back on the current waypoint with the travel heading. */
  function Leave(n: Nav, s: Section): (r: Nav)
    ensures r.current == n.current && r.travel == n.travel
    ensures r.locked == n.locked - {s} && !r.targeting
    ensures Resting(r)
  {
    n.(arrow := Arrow(Waypoint(n.current), n.travel), locked := n.locked - {s}, targeting := false)
  }

  /** Clicking the same section twice is the same as clicking it once. */
  lemma ClickIdempotent(n: Nav, s: Section)
    ensures Click(Click(n, s), s) == Click(n, s)
  {
  }

  /** Hovering over a link and leaving it again restores a resting arrow
      and the whole state, when that link's lock was not already shown. */
  lemma HoverRoundTrip(n: Nav, s: Section)
    requires Resting(n) && s !in n.locked && !n.targeting
    ensures Leave(Enter(n, s), s) == n
  {
  }

  /** The events of the three handlers. */
  datatype Event = Clicked(section: Section) | Entered(section: Section) | Left(section: Section)

  function Step(n: Nav, e: Event): Nav {
    match e
    case Clicked(s) => Click(n, s)
    case Entered(s) => Enter(n, s)
    case Left(s) => Leave(n, s)
  }

  function Run(n: Nav, es: seq<Event>): Nav
    decreases |es|
  {
    if |es| == 0 then n else Run(Step(n, es[0]), es[1..])
  }

  /** What holds of every state the page can reach: the arrow sits on the
      current waypoint; the travel heading is the initial one only while
      the page has never left home, and otherwise is the last move, which
      ended at the current section; the drawn heading is the travel heading
      or a preview from the current section toward another one. */
  predicate Valid(n: Nav) {
    && n.arrow.at == Waypoint(n.current)
    && (n.travel.Initial? ==> n.current == Home)
    && (n.travel.Toward? ==> n.travel.from != n.travel.to && n.travel.to == n.current)
    && (n.arrow.heading == n.travel
        || (n.arrow.heading.Toward? && n.arrow.heading.from == n.current
            && n.arrow.heading.to != n.current))
  }

  lemma StepKeepsValid(n: Nav, e: Event)
    requires Valid(n)
    ensures Valid(Step(n, e))
  {
  }

  lemma {:induction false} RunKeepsValid(n: Nav, es: seq<Event>)
    requires Valid(n)
    ensures Valid(Run(n, es))
    decreases |es|
  {
    if |es| > 0 {
      StepKeepsValid(n, es[0]);
      RunKeepsValid(Step(n, es[0]), es[1..]);
    }
  }

  /** Every reachable state is valid, and a reachable state's heading never
      comes from a move that went nowhere. */
  lemma ReachableValid(es: seq<Event>)
    ensures Valid(Run(Start, es))
  {
    RunKeepsValid(Start, es);
  }

  /** The stored heading of every reachable state comes from a move between
      two different waypoints, so its direction is never the zero vector. */
  lemma ReachableHeadingHasDirection(es: seq<Event>)
    ensures Run(Start, es).travel.Toward? ==>
      Waypoint(Run(Start, es).travel.from) != Waypoint(Run(Start, es).travel.to)
  {
    var n := Run(Start, es);
    ReachableValid(es);
    if n.travel.Toward? {
      WaypointsDistinct(n.travel.from, n.travel.to);
    }
  }

  /** Hover events never move the arrow's section or change the stored
      heading, whatever sequence of them arrives. */
  lemma {:induction false} HoversKeepPosition(n: Nav, es: seq<Event>)
    requires forall i :: 0 <= i < |es| ==> !es[i].Clicked?
    ensures Run(n, es).current == n.current && Run(n, es).travel == n.travel
    decreases |es|
  {
    if |es| > 0 {
      HoversKeepPosition(Step(n, es[0]), es[1..]);
    }
  }

}
