/** The two string operations the search box relies on: `toLowerCase`, taken
    here as ASCII lower-casing, and `String.prototype.includes`. */
module Text {

  function LowerChar(c: char): char
  {
    if 'A' <= c <= 'Z' then (c as int + 32) as char else c
  }

  /** `s.toLowerCase()` restricted to ASCII letters: every other character is kept. */
  function Lower(s: string): (r: string)
    ensures |r| == |s|
    ensures forall i :: 0 <= i < |s| ==> r[i] == LowerChar(s[i])
    ensures forall i :: 0 <= i < |r| ==> !('A' <= r[i] <= 'Z')
  {
    if s == "" then "" else [LowerChar(s[0])] + Lower(s[1..])
  }

  /** Recognises the lower-cased form of a string character by character. */
  lemma LowerIs(s: string, t: string)
    requires |s| == |t| && forall i :: 0 <= i < |s| ==> LowerChar(s[i]) == t[i]
    ensures Lower(s) == t
  {
    var r := Lower(s);
    forall i | 0 <= i < |s| ensures r[i] == t[i] {
      assert r[i] == LowerChar(s[i]);
    }
  }

  /** `sub` occurs in `s` starting at position `i`. */
  predicate OccursAt(s: string, sub: string, i: nat)
  {
    i + |sub| <= |s| && s[i..i + |sub|] == sub
  }

  /** `s.includes(sub)`: some position of `s` starts an occurrence of `sub`. */
  function Includes(s: string, sub: string): (r: bool)
    ensures r <==> exists i: nat :: OccursAt(s, sub, i)
    decreases |s|
  {
    if |sub| > |s| then false
    else if s[..|sub|] == sub then
      assert OccursAt(s, sub, 0);
      true
    else
      var r := Includes(s[1..], sub);
      if r then
        ghost var i: nat :| OccursAt(s[1..], sub, i);
        assert s[1..][i..i + |sub|] == s[i + 1..i + 1 + |sub|];
        assert OccursAt(s, sub, i + 1);
        true
      else
        forall i: nat | 0 < i ensures OccursAt(s, sub, i) == OccursAt(s[1..], sub, i - 1) {
          if i + |sub| <= |s| {
            assert s[1..][i - 1..i - 1 + |sub|] == s[i..i + |sub|];
          }
        }
        assert !OccursAt(s, sub, 0);
        false
  }

  /** Every string contains the empty string. */
  lemma IncludesEmpty(s: string)
    ensures Includes(s, "")
  {
    assert OccursAt(s, "", 0);
  }

  /** Every string contains itself. */
  lemma IncludesSelf(s: string)
    ensures Includes(s, s)
  {
    assert OccursAt(s, s, 0);
  }

  /** One differing character rules out an occurrence at `i`. */
  lemma MismatchAt(s: string, sub: string, i: nat, k: nat)
    requires i + |sub| <= |s| && k < |sub| && s[i + k] != sub[k]
    ensures !OccursAt(s, sub, i)
  {
  }
}
