/** `len(s.encode("utf-8"))` for a decoded text. */
module Utf8 {

  /** The number of bytes one character takes in UTF-8. */
  function Utf8Width(c: char): nat {
    if c as int < 0x80 then 1
    else if c as int < 0x800 then 2
    else if c as int < 0x10000 then 3
    else 4
  }

  /** `len(s.encode("utf-8"))`: between one and four bytes per character. */
  function Utf8Length(s: string): (n: nat)
    ensures |s| <= n <= 4 * |s|
  {
    if s == [] then 0 else Utf8Width(s[0]) + Utf8Length(s[1..])
  }

  /** Encoding is character by character, so the size of a concatenation is the sum of the sizes. */
  lemma {:induction false} Utf8LengthConcat(a: string, b: string)
    ensures Utf8Length(a + b) == Utf8Length(a) + Utf8Length(b)
    decreases |a|
  {
    if a != [] {
      assert (a + b)[0] == a[0];
      assert (a + b)[1..] == a[1..] + b;
      Utf8LengthConcat(a[1..], b);
    } else {
      assert a + b == b;
    }
  }

  /** Below U+0080 every character is one byte. */
  lemma {:induction false} Utf8LengthAscii(s: string)
    requires forall i :: 0 <= i < |s| ==> s[i] as int < 0x80
    ensures Utf8Length(s) == |s|
    decreases |s|
  {
    if s != [] {
      forall i | 0 <= i < |s[1..]|
        ensures s[1..][i] as int < 0x80
      {
        assert s[1..][i] == s[i + 1];
      }
      Utf8LengthAscii(s[1..]);
    }
  }
}
