/**
 * Turning the `repo_url` a client sends into the "owner/name" path the hosting
 * API is asked for: every "https://github.com/" is removed, then the slashes
 * at both ends are stripped.
 */
module RepoPath {
  import opened Text

  const HostPrefix: string := "https://github.com/"

  const Slash: set<char> := {'/'}

  /**
   * `s.replace(pattern, "")`: one left-to-right pass that drops every
   * non-overlapping occurrence of `pattern` (an empty pattern leaves `s` as it is).
   */
  function RemoveAll(s: string, pattern: string): (r: string)
    ensures |r| <= |s|
    decreases |s|
  {
    if s == [] || pattern == [] then s
    else if pattern <= s then RemoveAll(s[|pattern|..], pattern)
    else [s[0]] + RemoveAll(s[1..], pattern)
  }

  /** A text without the pattern passes through unchanged. */
  lemma {:induction false} RemoveAllAbsent(s: string, pattern: string)
    requires !Contains(s, pattern)
    ensures RemoveAll(s, pattern) == s
    decreases |s|
  {
    if s != [] && pattern != [] {
      NotContainedTail(s, pattern);
      RemoveAllAbsent(s[1..], pattern);
      assert [s[0]] + s[1..] == s;
    }
  }

  /** Starting with the pattern is occurring at offset 0. */
  lemma PrefixOccurs(s: string, pattern: string)
    ensures (pattern <= s) == OccursAt(s, pattern, 0)
  {
    if |pattern| <= |s| {
      assert s[0..|pattern|] == s[..|pattern|];
    }
  }

  /** An occurrence in the tail is an occurrence one place later in the text. */
  lemma OccursInTail(s: string, pattern: string, i: nat)
    requires s != []
    ensures OccursAt(s[1..], pattern, i) == OccursAt(s, pattern, i + 1)
  {
    if i + 1 + |pattern| <= |s| {
      assert s[1..][i..i + |pattern|] == s[i + 1..i + 1 + |pattern|];
    }
  }

  /** A text that does not start with the pattern keeps its first character. */
  lemma RemoveAllKeeps(s: string, pattern: string)
    requires s != [] && pattern != [] && !(pattern <= s)
    ensures RemoveAll(s, pattern) == [s[0]] + RemoveAll(s[1..], pattern)
  {
  }

  /** The first occurrence, at offset `k`, is dropped and the text before it kept. */
  lemma {:induction false} RemoveAt(s: string, pattern: string, k: nat)
    requires pattern != [] && OccursAt(s, pattern, k)
    requires forall i :: 0 <= i < k ==> !OccursAt(s, pattern, i)
    ensures RemoveAll(s, pattern) == s[..k] + RemoveAll(s[k + |pattern|..], pattern)
    decreases k
  {
    PrefixOccurs(s, pattern);
    if k == 0 {
      assert s[..0] == [];
    } else {
      var t := s[1..];
      RemoveAllKeeps(s, pattern);
      OccursInTail(s, pattern, k - 1);
      forall i | 0 <= i < k - 1
        ensures !OccursAt(t, pattern, i)
      {
        OccursInTail(s, pattern, i);
      }
      RemoveAt(t, pattern, k - 1);
      var after := s[k + |pattern|..];
      assert t[k - 1 + |pattern|..] == after by {
        TailSuffix(s, k + |pattern|);
      }
      var rest := RemoveAll(after, pattern);
      calc {
        RemoveAll(s, pattern);
        [s[0]] + RemoveAll(t, pattern);
        [s[0]] + (t[..k - 1] + rest);
        { ConcatAssoc([s[0]], t[..k - 1], rest); }
        ([s[0]] + t[..k - 1]) + rest;
        { ConsPrefix(s, k); }
        s[..k] + rest;
      }
    }
  }

  /**
   * The first occurrence of the pattern is dropped wherever it stands: the
   * text before it is kept and the pass goes on after it.
   */
  lemma RemoveFirstOccurrence(a: string, pattern: string, b: string)
    requires pattern != []
    requires forall i :: 0 <= i < |a| ==> !OccursAt(a + pattern + b, pattern, i)
    ensures RemoveAll(a + pattern + b, pattern) == a + RemoveAll(b, pattern)
  {
    var s := a + pattern + b;
    assert s[|a|..|a| + |pattern|] == pattern;
    assert OccursAt(s, pattern, |a|);
    RemoveAt(s, pattern, |a|);
    assert s[..|a|] == a;
    assert s[|a| + |pattern|..] == b;
  }

  /** "x" before the host prefix is kept and the prefix removed, as `str.replace` does. */
  lemma RemoveInnerPrefixExample()
    ensures RemoveAll("x" + HostPrefix, HostPrefix) == "x"
  {
    assert HostPrefix[0] == 'h';
    assert !OccursAt("x" + HostPrefix, HostPrefix, 0) by {
      assert ("x" + HostPrefix)[0] == 'x';
    }
    RemoveFirstOccurrence("x", HostPrefix, "");
    assert "x" + HostPrefix + "" == "x" + HostPrefix;
  }

  /** `repo_url.replace("https://github.com/", "").strip("/")`: never starts or ends with '/'. */
  function NormalizeRepoPath(repoUrl: string): (r: string)
    ensures r == [] || (r[0] != '/' && r[|r| - 1] != '/')
  {
    Trim(RemoveAll(repoUrl, HostPrefix), Slash)
  }

  lemma TrimOneTrailingSlash(x: string)
    requires x == [] || (x[0] != '/' && x[|x| - 1] != '/')
    ensures Trim(x + "/", Slash) == x
  {
    var s := x + "/";
    if x == [] {
      assert s[1..] == [];
      assert TrimLeft(s, Slash) == [];
    } else {
      assert s[0] == x[0];
      assert TrimLeft(s, Slash) == s;
      assert s[..|s| - 1] == x;
      assert TrimRight(s, Slash) == TrimRight(x, Slash) == x;
    }
  }

  lemma RemoveLeadingPrefix(s: string)
    ensures RemoveAll(HostPrefix + s, HostPrefix) == RemoveAll(s, HostPrefix)
  {
    assert (HostPrefix + s)[|HostPrefix|..] == s;
  }

  /** The prefix holds a ':', so a text without one holds no prefix to remove. */
  lemma NoColonNoPrefix(s: string)
    requires ':' !in s
    ensures RemoveAll(s, HostPrefix) == s
  {
    assert HostPrefix[5] == ':';
    MissingCharNotContained(s, HostPrefix, ':');
    RemoveAllAbsent(s, HostPrefix);
  }

  /**
   * A canonical repository URL, with or without a trailing slash, and the bare
   * path itself all normalise to the path, as long as the path has no ':' (so
   * it cannot hold another host prefix) and no slash at either end.
   */
  lemma CanonicalUrl(path: string)
    requires ':' !in path
    requires path == [] || (path[0] != '/' && path[|path| - 1] != '/')
    ensures NormalizeRepoPath(HostPrefix + path) == path
    ensures NormalizeRepoPath(HostPrefix + path + "/") == path
    ensures NormalizeRepoPath(path) == path
  {
    NoColonNoPrefix(path);
    RemoveLeadingPrefix(path);
    TrimUntouched(path, Slash);
    var slashed := path + "/";
    assert HostPrefix + path + "/" == HostPrefix + slashed;
    NoColonNoPrefix(slashed);
    RemoveLeadingPrefix(slashed);
    TrimOneTrailingSlash(path);
  }

  lemma NormalizeExample()
    ensures NormalizeRepoPath("https://github.com/owner/name/") == "owner/name"
  {
    assert "https://github.com/owner/name/" == HostPrefix + "owner/name" + "/";
    CanonicalUrl("owner/name");
  }
}
