/**
 * The string primitives the service relies on, at ASCII level: case folding
 * (`str.lower`), substring search (`in`), stripping (`str.strip`), splitting
 * and joining on a separator (`str.split`, `str.join`).
 */
module Text {

  /** ASCII case folding: only 'A'..'Z' change. */
  function LowerChar(c: char): char {
    if 'A' <= c <= 'Z' then (c as int + 32) as char else c
  }

  function Lower(s: string): string {
    seq(|s|, i requires 0 <= i < |s| => LowerChar(s[i]))
  }

  predicate IsUpper(c: char) {
    'A' <= c <= 'Z'
  }

  /** A text without ASCII capitals is its own lowercase form. */
  lemma LowerUnchanged(s: string)
    requires forall i :: 0 <= i < |s| ==> !IsUpper(s[i])
    ensures Lower(s) == s
  {
  }

  lemma LowerConcat(a: string, b: string)
    ensures Lower(a + b) == Lower(a) + Lower(b)
  {
    assert forall i | 0 <= i < |a + b| :: Lower(a + b)[i] == (Lower(a) + Lower(b))[i];
  }

  /** `needle` occurs in `hay` starting at offset `i`. */
  predicate OccursAt(hay: string, needle: string, i: int) {
    0 <= i && i + |needle| <= |hay| && hay[i..i + |needle|] == needle
  }

  /** `needle in hay`: the needle occurs at some offset of the haystack. */
  predicate Contains(hay: string, needle: string) {
    exists i :: 0 <= i <= |hay| - |needle| && OccursAt(hay, needle, i)
  }

  lemma ContainsInRight(a: string, b: string, needle: string)
    requires Contains(b, needle)
    ensures Contains(a + b, needle)
  {
    var i :| 0 <= i <= |b| - |needle| && OccursAt(b, needle, i);
    assert (a + b)[|a| + i..|a| + i + |needle|] == b[i..i + |needle|];
    assert OccursAt(a + b, needle, |a| + i);
  }

  lemma ContainsInLeft(a: string, b: string, needle: string)
    requires Contains(a, needle)
    ensures Contains(a + b, needle)
  {
    var i :| 0 <= i <= |a| - |needle| && OccursAt(a, needle, i);
    assert (a + b)[i..i + |needle|] == a[i..i + |needle|];
    assert OccursAt(a + b, needle, i);
  }

  /** A text without the needle neither starts with it nor holds it after its first character. */
  lemma NotContainedTail(hay: string, needle: string)
    requires hay != [] && !Contains(hay, needle)
    ensures !(needle <= hay) && !Contains(hay[1..], needle)
  {
    if needle <= hay {
      assert OccursAt(hay, needle, 0);
    }
    if Contains(hay[1..], needle) {
      var i :| 0 <= i <= |hay| - 1 - |needle| && OccursAt(hay[1..], needle, i);
      assert hay[1..][i..i + |needle|] == hay[i + 1..i + 1 + |needle|];
      assert OccursAt(hay, needle, i + 1);
    }
  }

  /** A character the haystack lacks rules out every needle that has it. */
  lemma MissingCharNotContained(hay: string, needle: string, c: char)
    requires c in needle && c !in hay
    ensures !Contains(hay, needle)
  {
    var j :| 0 <= j < |needle| && needle[j] == c;
    forall i | 0 <= i <= |hay| - |needle|
      ensures !OccursAt(hay, needle, i)
    {
      var piece := hay[i..i + |needle|];
      assert piece[j] == hay[i + j] && hay[i + j] in hay;
      assert piece[j] != needle[j];
    }
  }

  /**
   * A lowercased text holds no ASCII capital, so a pattern with a capital
   * letter is never found in it.
   */
  lemma {:induction false} UpperNeverInLower(s: string, pattern: string)
    requires exists j :: 0 <= j < |pattern| && IsUpper(pattern[j])
    ensures !Contains(Lower(s), pattern)
  {
    var j :| 0 <= j < |pattern| && IsUpper(pattern[j]);
    assert pattern[j] in pattern;
    MissingCharNotContained(Lower(s), pattern, pattern[j]);
  }

  /** The characters Python's `str.isspace` accepts within ASCII. */
  const Whitespace: set<char> :=
    {' ', '\t', '\n', '\r', 11 as char, 12 as char, 28 as char, 29 as char, 30 as char, 31 as char}

  /** `s.lstrip(chars)` for the character set `drop`: everything cut off is a `drop` character. */
  function TrimLeft(s: string, drop: set<char>): (r: string)
    ensures |r| <= |s|
    ensures forall j :: 0 <= j < |s| - |r| ==> s[j] in drop
    ensures r == [] || r[0] !in drop
    decreases |s|
  {
    if s != [] && s[0] in drop then TrimLeft(s[1..], drop) else s
  }

  /** `s.rstrip(chars)` for the character set `drop`: everything cut off is a `drop` character. */
  function TrimRight(s: string, drop: set<char>): (r: string)
    ensures |r| <= |s|
    ensures forall j :: |r| <= j < |s| ==> s[j] in drop
    ensures r == [] || r[|r| - 1] !in drop
    decreases |s|
  {
    if s != [] && s[|s| - 1] in drop then TrimRight(s[..|s| - 1], drop) else s
  }

  /** What `lstrip` keeps is a suffix of its input. */
  lemma {:induction false} TrimLeftSuffix(s: string, drop: set<char>)
    ensures TrimLeft(s, drop) == s[|s| - |TrimLeft(s, drop)|..]
    decreases |s|
  {
    if s != [] && s[0] in drop {
      TrimLeftSuffix(s[1..], drop);
      assert s[1..][|s| - 1 - |TrimLeft(s[1..], drop)|..] == s[|s| - |TrimLeft(s, drop)|..];
    }
  }

  /** What `rstrip` keeps is a prefix of its input. */
  lemma {:induction false} TrimRightPrefix(s: string, drop: set<char>)
    ensures TrimRight(s, drop) == s[..|TrimRight(s, drop)|]
    decreases |s|
  {
    if s != [] && s[|s| - 1] in drop {
      TrimRightPrefix(s[..|s| - 1], drop);
      assert s[..|s| - 1][..|TrimRight(s, drop)|] == s[..|TrimRight(s, drop)|];
    }
  }

  /** `s.strip(chars)`: the result neither starts nor ends with a `drop` character. */
  function Trim(s: string, drop: set<char>): (r: string)
    ensures r == [] || (r[0] !in drop && r[|r| - 1] !in drop)
  {
    var left := TrimLeft(s, drop);
    TrimRightPrefix(left, drop);
    TrimRight(left, drop)
  }

  /**
   * What `strip` cuts off: the result is the piece of `s` that starts after
   * the leading run of `drop` characters, and everything after it is a `drop`
   * character too.
   */
  lemma TrimCuts(s: string, drop: set<char>)
    ensures var lead := |s| - |TrimLeft(s, drop)|;
      var r := Trim(s, drop);
      && lead + |r| <= |s| && r == s[lead..lead + |r|]
      && (forall j :: 0 <= j < lead ==> s[j] in drop)
      && (forall j :: lead + |r| <= j < |s| ==> s[j] in drop)
  {
    var left := TrimLeft(s, drop);
    var r := TrimRight(left, drop);
    var lead := |s| - |left|;
    TrimLeftSuffix(s, drop);
    TrimRightPrefix(left, drop);
    assert left == s[lead..];
    assert r == left[..|r|];
    assert r == Trim(s, drop);
    assert s[lead..][..|r|] == s[lead..lead + |r|];
    forall j | lead + |r| <= j < |s|
      ensures s[j] in drop
    {
      assert s[j] == left[j - lead];
    }
  }

  lemma TrimUntouched(s: string, drop: set<char>)
    requires s == [] || (s[0] !in drop && s[|s| - 1] !in drop)
    ensures Trim(s, drop) == s
  {
  }

  /** `sep.join(parts)`. */
  function Join(sep: string, parts: seq<string>): string
    decreases |parts|
  {
    if |parts| == 0 then ""
    else if |parts| == 1 then parts[0]
    else parts[0] + sep + Join(sep, parts[1..])
  }

  /** `s.split(sep)` for a one-character separator: never empty, and no piece holds the separator. */
  function Split(s: string, sep: char): (r: seq<string>)
    ensures |r| >= 1
    ensures forall i :: 0 <= i < |r| ==> sep !in r[i]
    decreases |s|
  {
    if s == [] then [""]
    else
      var rest := Split(s[1..], sep);
      if s[0] == sep then [""] + rest else [[s[0]] + rest[0]] + rest[1..]
  }

  /** Joining the pieces of a split gives the text back. */
  lemma {:induction false} JoinSplit(s: string, sep: char)
    ensures Join([sep], Split(s, sep)) == s
    decreases |s|
  {
    if s != [] {
      var rest := Split(s[1..], sep);
      JoinSplit(s[1..], sep);
      if s[0] == sep {
        assert Split(s, sep) == [""] + rest;
        assert ([""] + rest)[1..] == rest;
      } else {
        var r := [[s[0]] + rest[0]] + rest[1..];
        assert Split(s, sep) == r;
        if |rest| == 1 {
          assert r == [[s[0]] + rest[0]];
        } else {
          assert r[1..] == rest[1..];
          assert Join([sep], rest) == rest[0] + [sep] + Join([sep], rest[1..]);
        }
      }
    }
  }

  lemma {:induction false} SplitPrefix(a: string, t: string, sep: char)
    requires sep !in a
    ensures Split(a + t, sep) == [a + Split(t, sep)[0]] + Split(t, sep)[1..]
    decreases |a|
  {
    if a != [] {
      assert (a + t)[1..] == a[1..] + t;
      assert (a + t)[0] == a[0];
      SplitPrefix(a[1..], t, sep);
      assert [a[0]] + (a[1..] + Split(t, sep)[0]) == a + Split(t, sep)[0];
    } else {
      assert a + t == t;
      assert a + Split(t, sep)[0] == Split(t, sep)[0];
    }
  }

  /** Splitting a join gives the parts back, when they are there and none holds the separator. */
  lemma {:induction false} SplitJoin(parts: seq<string>, sep: char)
    requires |parts| >= 1
    requires forall i :: 0 <= i < |parts| ==> sep !in parts[i]
    ensures Split(Join([sep], parts), sep) == parts
    decreases |parts|
  {
    if |parts| == 1 {
      SplitPrefix(parts[0], "", sep);
      assert parts[0] + "" == parts[0];
    } else {
      var tail := Join([sep], parts[1..]);
      SplitJoin(parts[1..], sep);
      assert Join([sep], parts) == parts[0] + ([sep] + tail);
      SplitPrefix(parts[0], [sep] + tail, sep);
      assert ([sep] + tail)[1..] == tail;
      assert Split([sep] + tail, sep) == [""] + parts[1..];
      assert parts[0] + "" == parts[0];
    }
  }

  /** A piece's occurrence of a (lowercased) needle is an occurrence in the (lowercased) join. */
  lemma {:induction false} ContainsPieceOfJoin(sep: string, parts: seq<string>, k: nat, needle: string)
    requires k < |parts| && Contains(Lower(parts[k]), needle)
    ensures Contains(Lower(Join(sep, parts)), needle)
    decreases |parts|
  {
    if |parts| > 1 {
      var rest := Join(sep, parts[1..]);
      LowerConcat(parts[0], sep + rest);
      assert parts[0] + sep + rest == parts[0] + (sep + rest);
      if k == 0 {
        ContainsInLeft(Lower(parts[0]), Lower(sep + rest), needle);
      } else {
        ContainsPieceOfJoin(sep, parts[1..], k - 1, needle);
        LowerConcat(sep, rest);
        ContainsInRight(Lower(sep), Lower(rest), needle);
        ContainsInRight(Lower(parts[0]), Lower(sep + rest), needle);
      }
    }
  }

  /** Concatenation of sequences is associative. */
  lemma ConcatAssoc<T>(a: seq<T>, b: seq<T>, c: seq<T>)
    ensures (a + b) + c == a + (b + c)
  {
  }

  /** Dropping `j - 1` elements of the rest is dropping `j` elements. */
  lemma TailSuffix<T>(s: seq<T>, j: nat)
    requires 1 <= j <= |s|
    ensures s[1..][j - 1..] == s[j..]
  {
  }

  /** The first element, then the first `k - 1` of the rest, are the first `k`. */
  lemma ConsPrefix<T>(s: seq<T>, k: nat)
    requires 1 <= k <= |s|
    ensures [s[0]] + s[1..][..k - 1] == s[..k]
  {
  }

  /** What is in either part is in the concatenation. */
  lemma InConcat<T>(x: T, a: seq<T>, b: seq<T>)
    requires x in a || x in b
    ensures x in a + b
  {
  }
}
