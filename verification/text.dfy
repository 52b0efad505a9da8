/** The few string operations the models need, on ASCII. */
module Text {

  function LowerChar(c: char): char {
    if 'A' <= c <= 'Z' then c - 'A' + 'a' else c
  }

  function UpperChar(c: char): char {
    if 'a' <= c <= 'z' then c - 'a' + 'A' else c
  }

  function Lower(s: string): string {
    seq(|s|, i requires 0 <= i < |s| => LowerChar(s[i]))
  }

  function Upper(s: string): string {
    seq(|s|, i requires 0 <= i < |s| => UpperChar(s[i]))
  }

  lemma CaseIs(s: string)
    ensures |Lower(s)| == |Upper(s)| == |s|
    ensures forall i | 0 <= i < |s| ::
              Lower(s)[i] as int == s[i] as int + (if 65 <= s[i] as int <= 90 then 32 else 0)
    ensures forall i | 0 <= i < |s| ::
              Upper(s)[i] as int == s[i] as int - (if 97 <= s[i] as int <= 122 then 32 else 0)
  {
  }

  /** Whitespace of Python's `strip`. */
  predicate Blank(c: char) {
    '\t' <= c <= '\r' || '\U{1C}' <= c <= '\U{1F}' || c == ' '
  }

  function Strip(s: string): string {
    if s != "" && Blank(s[0]) then Strip(s[1..])
    else if s != "" && Blank(s[|s| - 1]) then Strip(s[..|s| - 1])
    else s
  }

  /** What is left out at either end is whitespace, and none is left at either end. */
  lemma {:induction false} StripIs(s: string) returns (i: nat, j: nat)
    ensures i <= j <= |s| && Strip(s) == s[i..j]
    ensures forall k | 0 <= k < i || j <= k < |s| :: Whitespace(s[k] as int)
    ensures i < j ==> !Whitespace(s[i] as int) && !Whitespace(s[j - 1] as int)
    decreases |s|
  {
    i, j := 0, |s|;
    if s != "" && Blank(s[0]) {
      i, j := StripIs(s[1..]);
      assert s[1..][i..j] == s[i + 1..j + 1];
      i, j := i + 1, j + 1;
    } else if s != "" && Blank(s[|s| - 1]) {
      i, j := StripIs(s[..|s| - 1]);
    }
  }

  predicate Whitespace(code: int) {
    9 <= code <= 13 || 28 <= code <= 32
  }
}
