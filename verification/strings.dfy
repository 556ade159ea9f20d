/** Comparing strings without regard to case. */
module Strings {

  function LowerChar(c: char): char {
    if 'A' <= c <= 'Z' then (c as int + 32) as char else c
  }

  function Lower(s: string): string {
    if s == "" then "" else [LowerChar(s[0])] + Lower(s[1..])
  }

  lemma {:induction false} Lowered(s: string, t: string)
    requires |s| == |t| && forall i :: 0 <= i < |s| ==> t[i] == LowerChar(s[i])
    ensures Lower(s) == t
    decreases |s|
  {
    if s != "" {
      Lowered(s[1..], t[1..]);
      assert t == [t[0]] + t[1..];
    }
  }
}
