/** Ordinal substring search on strings, as `string.Contains(string)` does it. */
module Text {

  /** `sub` occurs in `s` starting at index `i`. */
  ghost predicate OccursAt(s: string, sub: string, i: int) {
    0 <= i && i + |sub| <= |s| && s[i..i + |sub|] == sub
  }

  /** `sub` occurs somewhere in `s`; the empty string occurs in every string. */
  ghost predicate Occurs(s: string, sub: string) {
    exists i :: OccursAt(s, sub, i)
  }

  predicate IsPrefix(sub: string, s: string) {
    |sub| <= |s| && s[..|sub|] == sub
  }

  /** Occurrences in the tail are the occurrences in `s` one position later. */
  lemma ShiftOccurrence(s: string, sub: string)
    requires |s| > 0
    ensures forall i :: 0 <= i ==> (OccursAt(s[1..], sub, i) <==> OccursAt(s, sub, i + 1))
  {
    forall i | 0 <= i
      ensures OccursAt(s[1..], sub, i) <==> OccursAt(s, sub, i + 1)
    {
      if 0 <= i && i + |sub| <= |s| - 1 {
        assert s[1..][i..i + |sub|] == s[i + 1..i + 1 + |sub|];
      }
    }
  }

  lemma ContainsStep(s: string, sub: string)
    requires !IsPrefix(sub, s)
    requires |s| > 0
    ensures Occurs(s, sub) <==> Occurs(s[1..], sub)
  {
    ShiftOccurrence(s, sub);
    if Occurs(s, sub) {
      var j :| OccursAt(s, sub, j);
      assert j != 0;
      assert OccursAt(s[1..], sub, j - 1);
    }
    if Occurs(s[1..], sub) {
      var j :| OccursAt(s[1..], sub, j);
      assert OccursAt(s, sub, j + 1);
    }
  }

  /** Whether `sub` occurs in `s`, scanning start positions left to right. */
  function Contains(s: string, sub: string): (b: bool)
    ensures b <==> Occurs(s, sub)
    decreases |s|
  {
    if IsPrefix(sub, s) then
      assert OccursAt(s, sub, 0) by { assert s[0..0 + |sub|] == s[..|sub|]; }
      true
    else if |s| == 0 then
      false
    else
      ContainsStep(s, sub);
      Contains(s[1..], sub)
  }
}
