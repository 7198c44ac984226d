/** Substring search as the page uses it: `s.indexOf(sub) > -1`, and the
    ordered first-match rule tables that the browser and OS detection build
    out of it. */
module TextSearch {

  /** sub occurs in s starting at position i. */
  predicate OccursAt(s: string, sub: string, i: int) {
    0 <= i && i + |sub| <= |s| && s[i..i + |sub|] == sub
  }

  predicate Contains(s: string, sub: string) {
    exists i :: 0 <= i <= |s| && OccursAt(s, sub, i)
  }

  /** `s.indexOf(sub, from)`: the first occurrence at or after from, or -1. */
  function IndexOfFrom(s: string, sub: string, from: nat): (r: int)
    ensures r == -1 || (from <= r && OccursAt(s, sub, r))
    ensures forall j :: from <= j && (r == -1 || j < r) ==> !OccursAt(s, sub, j)
    decreases |s| - from
  {
    if |s| < from + |sub| then -1
    else if s[from..from + |sub|] == sub then from
    else IndexOfFrom(s, sub, from + 1)
  }

  /** `s.indexOf(sub)`: -1 exactly when sub does not occur, otherwise the
      position of its leftmost occurrence. An empty sub is found at 0. */
  function IndexOf(s: string, sub: string): (r: int)
    ensures -1 <= r
    ensures r > -1 <==> Contains(s, sub)
    ensures r > -1 ==> OccursAt(s, sub, r)
    ensures forall j :: 0 <= j < r ==> !OccursAt(s, sub, j)
  {
    IndexOfFrom(s, sub, 0)
  }

  /** One line of a detection table: if pattern occurs, answer result. */
  datatype Rule<T> = Rule(pattern: string, result: T)

  /** The answer of the first rule whose pattern occurs in s, or fallback. */
  function FirstMatch<T>(s: string, rules: seq<Rule<T>>, fallback: T): (r: T)
    ensures (forall k :: 0 <= k < |rules| ==> !Contains(s, rules[k].pattern)) ==> r == fallback
    ensures forall k :: 0 <= k < |rules| && Contains(s, rules[k].pattern)
                        && (forall j :: 0 <= j < k ==> !Contains(s, rules[j].pattern))
                        ==> r == rules[k].result
    decreases |rules|
  {
    if |rules| == 0 then fallback
    else if Contains(s, rules[0].pattern) then rules[0].result
    else
      var r := FirstMatch(s, rules[1..], fallback);
      assert forall k :: 1 <= k < |rules| ==> rules[k] == rules[1..][k - 1];
      r
  }

  /** A string with none of sub's first character cannot contain sub. */
  lemma AbsentFirstChar(s: string, sub: string)
    requires 1 <= |sub|
    requires forall i :: 0 <= i < |s| ==> s[i] != sub[0]
    ensures !Contains(s, sub)
  {
    forall i | 0 <= i <= |s|
      ensures !OccursAt(s, sub, i)
    {
      if i + |sub| <= |s| {
        assert s[i..i + |sub|][0] == s[i];
      }
    }
  }

  /** A string that has sub as a slice contains it. */
  lemma ContainsAt(s: string, sub: string, i: nat)
    requires i + |sub| <= |s| && s[i..i + |sub|] == sub
    ensures Contains(s, sub)
  {
    assert OccursAt(s, sub, i);
  }

}
