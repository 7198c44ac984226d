/** The music-player controls: a play/pause flag and an index into a fixed
    three-track playlist, moved by prev and next with wrap-around, plus the
    two texts the controls write (the track name and the play button). The
    texts shown before the first click come from the page markup and are
    parameters. */
module MusicPlayer {

  const Playlist: seq<string> := ["TRACK_001.MP3", "TRACK_002.MP3", "TRACK_003.MP3"]

  const PlayGlyph: string := "\U{25B6}"
  const PauseGlyph: string := "\U{275A}\U{275A}"

  datatype Player = Player(playing: bool, track: nat, trackText: string, buttonText: string)

  predicate Valid(p: Player) {
    p.track < |Playlist|
  }

  /** `(i + 1) % n` */
  function NextIndex(i: nat, n: nat): (r: nat)
    requires 0 < n
    ensures r < n
    ensures i + 1 < n ==> r == i + 1
    ensures i + 1 == n ==> r == 0
  {
    (i + 1) % n
  }

  /** `(i - 1 + n) % n`; the dividend is never negative here, so the
      language's truncating remainder and the Euclidean one agree. */
  function PrevIndex(i: nat, n: nat): (r: nat)
    requires 0 < n
    ensures r < n
    ensures 0 < i <= n ==> r == i - 1
    ensures i == 0 ==> r == n - 1
  {
    (i - 1 + n) % n
  }

  /** Prev undoes next and next undoes prev on every index in range. */
  lemma PrevNextInverse(i: nat, n: nat)
    requires i < n
    ensures PrevIndex(NextIndex(i, n), n) == i
    ensures NextIndex(PrevIndex(i, n), n) == i
  {
  }

  /** The page on load: paused on the first track. */
  function Start(trackText: string, buttonText: string): (p: Player)
    ensures Valid(p) && !p.playing
    ensures p.track == 0
    ensures p.trackText == trackText && p.buttonText == buttonText
  {
    Player(false, 0, trackText, buttonText)
  }

  /** Play button: flips the flag; the button shows pause while playing and
      play while paused; the track name is written only when playback starts. */
  function Play(p: Player): (r: Player)
    requires Valid(p)
    ensures Valid(r) && r.track == p.track
    ensures r.playing == !p.playing
    ensures r.playing ==> r.trackText == Playlist[r.track] && r.buttonText == PauseGlyph
    ensures !r.playing ==> r.trackText == p.trackText && r.buttonText == PlayGlyph
  {
    var playing := !p.playing;
    p.(playing := playing,
       trackText := if playing then Playlist[p.track] else p.trackText,
       buttonText := if playing then PauseGlyph else PlayGlyph)
  }

  /** Prev button: steps back with wrap-around and shows the new track. */
  function Prev(p: Player): (r: Player)
    requires Valid(p)
    ensures Valid(r) && r.playing == p.playing
    ensures NextIndex(r.track, |Playlist|) == p.track
    ensures r.trackText == Playlist[r.track]
    ensures r.buttonText == if p.playing then PauseGlyph else p.buttonText
  {
    var track := PrevIndex(p.track, |Playlist|);
    p.(track := track, trackText := Playlist[track],
       buttonText := if p.playing then PauseGlyph else p.buttonText)
  }

  /** Next button: steps forward with wrap-around and shows the new track. */
  function Next(p: Player): (r: Player)
    requires Valid(p)
    ensures Valid(r) && r.playing == p.playing
    ensures PrevIndex(r.track, |Playlist|) == p.track
    ensures r.trackText == Playlist[r.track]
    ensures r.buttonText == if p.playing then PauseGlyph else p.buttonText
  {
    var track := NextIndex(p.track, |Playlist|);
    p.(track := track, trackText := Playlist[track],
       buttonText := if p.playing then PauseGlyph else p.buttonText)
  }

  /** The controls show what the state says: the current track's name, and
      the glyph of the action the button would take. */
  predicate Shows(p: Player) {
    && Valid(p)
    && p.trackText == Playlist[p.track]
    && p.buttonText == if p.playing then PauseGlyph else PlayGlyph
  }

  /** Pressing play twice restores the flag and the track; on a player
      whose controls show its state, it restores everything. */
  lemma PlayTwice(p: Player)
    requires Valid(p)
    ensures Play(Play(p)).playing == p.playing && Play(Play(p)).track == p.track
    ensures Shows(p) ==> Play(Play(p)) == p
  {
  }

  /** Prev after next and next after prev restore the track and the flag;
      on a player whose controls show its state, they restore everything. */
  lemma PrevAfterNext(p: Player)
    requires Valid(p)
    ensures Prev(Next(p)).track == p.track && Prev(Next(p)).playing == p.playing
    ensures Next(Prev(p)).track == p.track && Next(Prev(p)).playing == p.playing
    ensures Shows(p) ==> Prev(Next(p)) == p && Next(Prev(p)) == p
  {
  }

  /** Pressing next k times. */
  function Advance(p: Player, k: nat): (r: Player)
    requires Valid(p)
    ensures Valid(r)
    decreases k
  {
    if k == 0 then p else Advance(Next(p), k - 1)
  }

  /** k presses of next land on track (i + k) mod 3, so three presses come
      back to the starting track. */
  lemma {:induction false} AdvanceWraps(p: Player, k: nat)
    requires Valid(p)
    ensures Advance(p, k).track == (p.track + k) % |Playlist|
    ensures Advance(p, k).playing == p.playing
    decreases k
  {
    if k > 0 {
      var q := Next(p);
      AdvanceWraps(q, k - 1);
      NextThenSteps(p.track, k - 1);
    }
  }

  lemma NextThenSteps(i: nat, j: nat)
    requires i < |Playlist|
    ensures (NextIndex(i, |Playlist|) + j) % |Playlist| == (i + j + 1) % |Playlist|
  {
  }

  /** The three buttons. */
  datatype Button = PlayButton | PrevButton | NextButton

  function Press(p: Player, b: Button): (r: Player)
    requires Valid(p)
    ensures Valid(r)
  {
    match b
    case PlayButton => Play(p)
    case PrevButton => Prev(p)
    case NextButton => Next(p)
  }

  function Run(p: Player, bs: seq<Button>): (r: Player)
    requires Valid(p)
    ensures Valid(r)
    decreases |bs|
  {
    if |bs| == 0 then p else Run(Press(p, bs[0]), bs[1..])
  }

  /** While playing, the controls always show the playing track and the
      pause glyph, whatever was pressed before. */
  predicate PlayingShown(p: Player) {
    Valid(p) && (p.playing ==> p.trackText == Playlist[p.track] && p.buttonText == PauseGlyph)
  }

  lemma {:induction false} RunKeepsPlayingShown(p: Player, bs: seq<Button>)
    requires Valid(p) && PlayingShown(p)
    ensures PlayingShown(Run(p, bs))
    decreases |bs|
  {
    if |bs| > 0 {
      RunKeepsPlayingShown(Press(p, bs[0]), bs[1..]);
    }
  }

  /** From the page's start, whatever markup texts it begins with. */
  lemma ReachablePlayingShown(trackText: string, buttonText: string, bs: seq<Button>)
    ensures PlayingShown(Run(Start(trackText, buttonText), bs))
  {
    RunKeepsPlayingShown(Start(trackText, buttonText), bs);
  }

}
