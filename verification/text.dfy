/** String padding as Python's `str` methods and format mini-language do it.
    Strings are sequences of characters; no encoding is involved. */
module Text {

  function Max(a: int, b: int): int
  {
    if a < b then b else a
  }

  predicate AllSpaces(s: string)
  {
    forall i :: 0 <= i < |s| ==> s[i] == ' '
  }

  /** `n * c` in Python, for a one-character string `c`: `n` copies of `c`, and the empty string when `n` is not positive. */
  function Repeat(c: char, n: int): (r: string)
    ensures |r| == Max(0, n)
    ensures forall i :: 0 <= i < |r| ==> r[i] == c
    decreases n
  {
    if n <= 0 then [] else [c] + Repeat(c, n - 1)
  }

  function Spaces(n: int): (r: string)
    ensures |r| == Max(0, n)
    ensures AllSpaces(r)
  {
    Repeat(' ', n)
  }

  /** `s.ljust(w)`, also `format(s, ' <w')` for `w >= 0`: `s` followed by enough spaces
      to reach width `w`. The string is never truncated. */
  function Ljust(s: string, w: int): (r: string)
    ensures |r| == Max(|s|, w)
    ensures r[..|s|] == s
    ensures AllSpaces(r[|s|..])
  {
    s + Spaces(w - |s|)
  }

  /** Right alignment in a field of width `w`, the default for integers in Python's
      format mini-language: spaces before `s`, never truncated. */
  function Rjust(s: string, w: int): (r: string)
    ensures |r| == Max(|s|, w)
    ensures r[|r| - |s|..] == s
    ensures AllSpaces(r[..|r| - |s|])
  {
    Spaces(w - |s|) + s
  }

  /** `s.lstrip(' ')`: `s` without its leading spaces. */
  function LstripSpaces(s: string): (r: string)
    ensures |r| <= |s|
    ensures r == s[|s| - |r|..]
    ensures AllSpaces(s[..|s| - |r|])
    ensures r == [] || r[0] != ' '
  {
    if |s| > 0 && s[0] == ' ' then LstripSpaces(s[1..]) else s
  }

  /** Stripping the padding that `Rjust` added gives back the string, provided the
      string does not itself start with a space. */
  lemma {:induction false} LstripRjust(s: string, w: int)
    requires s != [] && s[0] != ' '
    ensures LstripSpaces(Rjust(s, w)) == s
  {
    var r := Rjust(s, w);
    var t := LstripSpaces(r);
    assert r[|r| - |s|] == s[0];
  }
}
