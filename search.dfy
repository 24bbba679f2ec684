/**
 * `search_code`: a case-insensitive keyword scan over the stored (already
 * truncated) file contents, one result per matching line.
 */
module Search {
  import opened Text
  import opened Decimal
  import opened Dict

  /** `content.split("\n")` */
  function Lines(content: string): seq<string> {
    Split(content, '\n')
  }

  /** `keyword.lower() in line.lower()` */
  predicate LineMatches(line: string, keyword: string) {
    Contains(Lower(line), Lower(keyword))
  }

  /** The 1-based numbers of the lines that match, in the order of the lines. */
  function MatchingLines(lines: seq<string>, keyword: string): (ns: seq<nat>)
    ensures |ns| <= |lines|
    ensures forall k :: 0 <= k < |ns| ==> 1 <= ns[k] <= |lines|
    decreases |lines|
  {
    if lines == [] then []
    else
      var m := |lines|;
      MatchingLines(lines[..m - 1], keyword) + (if LineMatches(lines[m - 1], keyword) then [m] else [])
  }

  /** The last step of `MatchingLines`: whether the last line is added to the numbers for the lines before it. */
  lemma MatchingLast(lines: seq<string>, keyword: string)
    requires lines != []
    ensures var m := |lines|;
      MatchingLines(lines, keyword)
        == MatchingLines(lines[..m - 1], keyword) + (if LineMatches(lines[m - 1], keyword) then [m] else [])
  {
  }

  /** Every number `MatchingLines` gives names a line that matches. */
  lemma {:induction false} MatchingLinesSound(lines: seq<string>, keyword: string)
    ensures var ns := MatchingLines(lines, keyword);
      forall k :: 0 <= k < |ns| ==> LineMatches(lines[ns[k] - 1], keyword)
    decreases |lines|
  {
    if lines != [] {
      var m := |lines|;
      var init := lines[..m - 1];
      MatchingLinesSound(init, keyword);
      var before := MatchingLines(init, keyword);
      var ns := MatchingLines(lines, keyword);
      MatchingLast(lines, keyword);
      forall k | 0 <= k < |ns|
        ensures LineMatches(lines[ns[k] - 1], keyword)
      {
        if k < |before| {
          assert ns[k] == before[k];
          assert LineMatches(init[before[k] - 1], keyword);
          assert init[before[k] - 1] == lines[before[k] - 1];
        } else {
          assert ns[k] == m;
        }
      }
    }
  }

  /** The numbers ascend strictly. */
  lemma {:induction false} MatchingLinesAscending(lines: seq<string>, keyword: string)
    ensures var ns := MatchingLines(lines, keyword);
      forall k, l :: 0 <= k < l < |ns| ==> ns[k] < ns[l]
    decreases |lines|
  {
    if lines != [] {
      var m := |lines|;
      var init := lines[..m - 1];
      MatchingLinesAscending(init, keyword);
      MatchingLast(lines, keyword);
      var before := MatchingLines(init, keyword);
      var ns := MatchingLines(lines, keyword);
      forall k, l | 0 <= k < l < |ns|
        ensures ns[k] < ns[l]
      {
        assert ns[k] == before[k];
        if l < |before| {
          assert ns[l] == before[l];
        } else {
          assert ns[l] == m;
        }
      }
    }
  }

  /** Every matching line is among the numbers. */
  lemma {:induction false} MatchingLinesComplete(lines: seq<string>, keyword: string)
    ensures var ns := MatchingLines(lines, keyword);
      forall i :: 0 <= i < |lines| && LineMatches(lines[i], keyword) ==> i + 1 in ns
    decreases |lines|
  {
    if lines != [] {
      var m := |lines|;
      var init := lines[..m - 1];
      MatchingLinesComplete(init, keyword);
      MatchingLast(lines, keyword);
      var before := MatchingLines(init, keyword);
      var ns := MatchingLines(lines, keyword);
      forall i | 0 <= i < |lines| && LineMatches(lines[i], keyword)
        ensures i + 1 in ns
      {
        if i < m - 1 {
          assert init[i] == lines[i];
          assert i + 1 in before;
        }
      }
    }
  }

  /**
   * The numbers `MatchingLines` gives are exactly the matching lines: each
   * names a line that matches, they ascend strictly, and every matching line
   * is among them.
   */
  lemma MatchingLinesExact(lines: seq<string>, keyword: string)
    ensures var ns := MatchingLines(lines, keyword);
      && (forall k :: 0 <= k < |ns| ==> LineMatches(lines[ns[k] - 1], keyword))
      && (forall k, l :: 0 <= k < l < |ns| ==> ns[k] < ns[l])
      && (forall i :: 0 <= i < |lines| && LineMatches(lines[i], keyword) ==> i + 1 in ns)
  {
    MatchingLinesSound(lines, keyword);
    MatchingLinesAscending(lines, keyword);
    MatchingLinesComplete(lines, keyword);
  }

  /** The lines of one file that are reported: the whole-content test first, then the line scan. */
  function FileLines(content: string, keyword: string): seq<nat> {
    if Contains(Lower(content), Lower(keyword)) then MatchingLines(Lines(content), keyword) else []
  }

  /** `f"{file_path}: Line {i}: {line.strip()}"` */
  function Render(path: string, n: nat, line: string): string {
    path + ": Line " + NatToString(n) + ": " + Trim(line, Whitespace)
  }

  /** The rendered results for the line numbers `ns`, in the order of `ns`. */
  function RenderLines(path: string, lines: seq<string>, ns: seq<nat>): (r: seq<string>)
    requires forall k :: 0 <= k < |ns| ==> 1 <= ns[k] <= |lines|
    ensures |r| == |ns|
    decreases |ns|
  {
    if ns == [] then []
    else
      var last := ns[|ns| - 1];
      RenderLines(path, lines, ns[..|ns| - 1]) + [Render(path, last, lines[last - 1])]
  }

  function FileResults(path: string, content: string, keyword: string): seq<string> {
    RenderLines(path, Lines(content), FileLines(content, keyword))
  }

  /** The results of all files, file after file in insertion order. */
  function Search(files: Dict, keyword: string): seq<string>
    decreases |files|
  {
    if files == [] then []
    else
      var last := files[|files| - 1];
      Search(files[..|files| - 1], keyword) + FileResults(last.0, last.1, keyword)
  }

  lemma MatchingStep(lines: seq<string>, j: nat, keyword: string)
    requires j < |lines|
    ensures MatchingLines(lines[..j + 1], keyword)
      == MatchingLines(lines[..j], keyword) + (if LineMatches(lines[j], keyword) then [j + 1] else [])
  {
    assert lines[..j + 1][..j] == lines[..j];
  }

  lemma RenderAppend(path: string, lines: seq<string>, ns: seq<nat>, n: nat)
    requires forall k :: 0 <= k < |ns| ==> 1 <= ns[k] <= |lines|
    requires 1 <= n <= |lines|
    ensures RenderLines(path, lines, ns + [n]) == RenderLines(path, lines, ns) + [Render(path, n, lines[n - 1])]
  {
    assert (ns + [n])[..|ns|] == ns;
  }

  /** Result `k` renders line `ns[k]`. */
  lemma {:induction false} RenderAt(path: string, lines: seq<string>, ns: seq<nat>, k: nat)
    requires forall k :: 0 <= k < |ns| ==> 1 <= ns[k] <= |lines|
    requires k < |ns|
    ensures RenderLines(path, lines, ns)[k] == Render(path, ns[k], lines[ns[k] - 1])
    decreases |ns|
  {
    if k < |ns| - 1 {
      RenderAt(path, lines, ns[..|ns| - 1], k);
    }
  }

  lemma SearchStep(files: Dict, i: nat, keyword: string)
    requires i < |files|
    ensures Search(files[..i + 1], keyword) == Search(files[..i], keyword) + FileResults(files[i].0, files[i].1, keyword)
  {
    assert files[..i + 1][..i] == files[..i];
  }

  /** The inner loop of `search_code`: one file's lines, scanned in order. */
  method ScanLines(path: string, lines: seq<string>, keyword: string) returns (found: seq<string>)
    ensures found == RenderLines(path, lines, MatchingLines(lines, keyword))
  {
    found := [];
    var needle := Lower(keyword);
    for j := 0 to |lines|
      invariant found == RenderLines(path, lines, MatchingLines(lines[..j], keyword))
    {
      MatchingStep(lines, j, keyword);
      ghost var before := MatchingLines(lines[..j], keyword);
      if Contains(Lower(lines[j]), needle) {
        RenderAppend(path, lines, before, j + 1);
        found := found + [Render(path, j + 1, lines[j])];
      } else {
        assert MatchingLines(lines[..j + 1], keyword) == before;
      }
    }
    assert lines[..|lines|] == lines;
  }

  /** `search_code(repo_data, keyword)`: every stored file, in insertion order. */
  method SearchCode(files: Dict, keyword: string) returns (results: seq<string>)
    ensures results == Search(files, keyword)
  {
    results := [];
    var needle := Lower(keyword);
    for i := 0 to |files|
      invariant results == Search(files[..i], keyword)
    {
      var (filePath, content) := files[i];
      SearchStep(files, i, keyword);
      if Contains(Lower(content), needle) {
        var found := ScanLines(filePath, Split(content, '\n'), keyword);
        results := results + found;
      } else {
        assert FileResults(filePath, content, keyword) == [];
      }
    }
    assert files[..|files|] == files;
  }

  /** Nothing is found in a map without files. */
  lemma SearchNoFiles(keyword: string)
    ensures Search([], keyword) == []
  {
  }

  /** The last step of `Search`: the results of the last file follow those of the files before it. */
  lemma SearchLast(files: Dict, keyword: string)
    requires files != []
    ensures var m := |files| - 1;
      Search(files, keyword) == Search(files[..m], keyword) + FileResults(files[m].0, files[m].1, keyword)
  {
  }

  /** The results for two runs of files are those of the first followed by those of the second. */
  lemma {:induction false} SearchConcat(f: Dict, g: Dict, keyword: string)
    ensures Search(f + g, keyword) == Search(f, keyword) + Search(g, keyword)
    decreases |g|
  {
    if g == [] {
      assert f + g == f;
    } else {
      var fg := f + g;
      var init := g[..|g| - 1];
      var last := g[|g| - 1];
      assert fg[..|fg| - 1] == f + init;
      assert fg[|fg| - 1] == last;
      SearchLast(fg, keyword);
      SearchLast(g, keyword);
      SearchConcat(f, init, keyword);
      ConcatAssoc(Search(f, keyword), Search(init, keyword), FileResults(last.0, last.1, keyword));
    }
  }

  /**
   * The whole-content test never changes the outcome: a line that matches is
   * part of the content, so the content matches too.
   */
  lemma ContentTestRedundant(content: string, keyword: string)
    ensures FileLines(content, keyword) == MatchingLines(Lines(content), keyword)
  {
    var lines := Lines(content);
    var ns := MatchingLines(lines, keyword);
    if !Contains(Lower(content), Lower(keyword)) && ns != [] {
      MatchingLinesExact(lines, keyword);
      JoinSplit(content, '\n');
      assert Join("\n", lines) == content;
      ContainsPieceOfJoin("\n", lines, ns[0] - 1, Lower(keyword));
      assert false;
    }
  }

  /** The numbers a sequence holds, as a set. */
  ghost function Elements(ns: seq<nat>): set<nat> {
    set n | n in ns
  }

  /** A strictly ascending sequence holds no number twice. */
  lemma {:induction false} AscendingCount(ns: seq<nat>)
    requires forall k, l :: 0 <= k < l < |ns| ==> ns[k] < ns[l]
    ensures |Elements(ns)| == |ns|
    decreases |ns|
  {
    if ns != [] {
      var init := ns[..|ns| - 1];
      var last := ns[|ns| - 1];
      AscendingCount(init);
      assert ns == init + [last];
      assert Elements(ns) == Elements(init) + {last};
      assert last !in init by {
        forall k | 0 <= k < |init|
          ensures init[k] != last
        {
          assert init[k] == ns[k];
        }
      }
    }
  }

  /** The lines of `content` that match `keyword`, as a set of 1-based line numbers. */
  ghost function MatchingSet(content: string, keyword: string): set<nat> {
    var lines := Lines(content);
    set i | 0 <= i < |lines| && LineMatches(lines[i], keyword) :: i + 1
  }

  /**
   * The lines a file reports are its matching lines, each once and in
   * ascending order, whatever the whole-content test says.
   */
  lemma FileLinesAreMatches(content: string, keyword: string)
    ensures var ns := FileLines(content, keyword);
      && Elements(ns) == MatchingSet(content, keyword)
      && |ns| == |MatchingSet(content, keyword)|
      && (forall k, l :: 0 <= k < l < |ns| ==> ns[k] < ns[l])
  {
    ContentTestRedundant(content, keyword);
    MatchingLinesExact(Lines(content), keyword);
    var ns := FileLines(content, keyword);
    AscendingCount(ns);
    assert Elements(ns) == MatchingSet(content, keyword);
  }

  /** A file contributes exactly as many results as it has matching lines. */
  lemma FileResultsCount(path: string, content: string, keyword: string)
    ensures |FileResults(path, content, keyword)| == |MatchingSet(content, keyword)|
  {
    FileLinesAreMatches(content, keyword);
  }

  /** Result `s` renders line `n` of file `f`, a line that matches. */
  ghost predicate RendersMatch(files: Dict, keyword: string, f: int, n: int, s: string) {
    && 0 <= f < |files|
    && 1 <= n <= |Lines(files[f].1)|
    && LineMatches(Lines(files[f].1)[n - 1], keyword)
    && s == Render(files[f].0, n, Lines(files[f].1)[n - 1])
  }

  /** Result `k` of a scan renders the `k`-th matching line. */
  lemma ScanResultMatches(path: string, lines: seq<string>, keyword: string, k: nat)
    requires k < |MatchingLines(lines, keyword)|
    ensures var ns := MatchingLines(lines, keyword);
      && 1 <= ns[k] <= |lines|
      && LineMatches(lines[ns[k] - 1], keyword)
      && RenderLines(path, lines, ns)[k] == Render(path, ns[k], lines[ns[k] - 1])
  {
    MatchingLinesSound(lines, keyword);
    RenderAt(path, lines, MatchingLines(lines, keyword), k);
  }

  /** Result `k` of a file renders one of its matching lines. */
  lemma FileResultMatches(path: string, content: string, keyword: string, k: nat)
    requires k < |FileResults(path, content, keyword)|
    ensures var ns := FileLines(content, keyword);
      && 1 <= ns[k] <= |Lines(content)|
      && LineMatches(Lines(content)[ns[k] - 1], keyword)
      && FileResults(path, content, keyword)[k] == Render(path, ns[k], Lines(content)[ns[k] - 1])
  {
    ContentTestRedundant(content, keyword);
    ScanResultMatches(path, Lines(content), keyword, k);
  }

  /** `s` renders some matching line of some stored file. */
  ghost predicate Traced(files: Dict, keyword: string, s: string) {
    exists f: int, n: int :: RendersMatch(files, keyword, f, n, s)
  }

  /** Every result names a line of a stored file whose lowercase form holds the lowercased keyword. */
  lemma {:induction false} SearchResultsMatch(files: Dict, keyword: string)
    ensures forall k :: 0 <= k < |Search(files, keyword)| ==> Traced(files, keyword, Search(files, keyword)[k])
    decreases |files|
  {
    if files != [] {
      var m := |files| - 1;
      var init := files[..m];
      SearchResultsMatch(init, keyword);
      var r := Search(files, keyword);
      var before := Search(init, keyword);
      var own := FileResults(files[m].0, files[m].1, keyword);
      SearchLast(files, keyword);
      forall k | 0 <= k < |r|
        ensures Traced(files, keyword, r[k])
      {
        if k < |before| {
          assert Traced(init, keyword, before[k]);
          var f, n :| RendersMatch(init, keyword, f, n, before[k]);
          assert init[f] == files[f];
          assert r[k] == before[k];
          assert RendersMatch(files, keyword, f, n, r[k]);
        } else {
          FileResultMatches(files[m].0, files[m].1, keyword, k - |before|);
          var ns := FileLines(files[m].1, keyword);
          assert r[k] == own[k - |before|];
          assert RendersMatch(files, keyword, m, ns[k - |before|], r[k]);
        }
      }
    } else {
      assert Search(files, keyword) == [];
    }
  }

  /** Every matching line of every stored file is among the results. */
  lemma {:induction false} SearchFindsEveryMatch(files: Dict, keyword: string, f: nat, n: nat)
    requires f < |files| && 1 <= n <= |Lines(files[f].1)|
    requires LineMatches(Lines(files[f].1)[n - 1], keyword)
    ensures Render(files[f].0, n, Lines(files[f].1)[n - 1]) in Search(files, keyword)
    decreases |files|
  {
    var m := |files| - 1;
    var init := files[..m];
    var path := files[f].0;
    var lines := Lines(files[f].1);
    var hit := Render(path, n, lines[n - 1]);
    var own := FileResults(files[m].0, files[m].1, keyword);
    SearchLast(files, keyword);
    if f < m {
      assert init[f] == files[f];
      SearchFindsEveryMatch(init, keyword, f, n);
      InConcat(hit, Search(init, keyword), own);
    } else {
      assert f == m;
      FileLinesFindsLine(path, files[f].1, keyword, n);
      assert hit in own;
      InConcat(hit, Search(init, keyword), own);
    }
  }

  /** A matching line is among the rendered results of a scan. */
  lemma ScanFindsLine(path: string, lines: seq<string>, keyword: string, n: nat)
    requires 1 <= n <= |lines| && LineMatches(lines[n - 1], keyword)
    ensures Render(path, n, lines[n - 1]) in RenderLines(path, lines, MatchingLines(lines, keyword))
  {
    var ns := MatchingLines(lines, keyword);
    MatchingLinesComplete(lines, keyword);
    assert (n - 1) + 1 in ns;
    var k :| 0 <= k < |ns| && ns[k] == n;
    RenderAt(path, lines, ns, k);
    var r := RenderLines(path, lines, ns);
    assert r[k] == Render(path, n, lines[n - 1]);
  }

  /** A matching line of a file is among that file's results. */
  lemma FileLinesFindsLine(path: string, content: string, keyword: string, n: nat)
    requires 1 <= n <= |Lines(content)| && LineMatches(Lines(content)[n - 1], keyword)
    ensures Render(path, n, Lines(content)[n - 1]) in FileResults(path, content, keyword)
  {
    ContentTestRedundant(content, keyword);
    ScanFindsLine(path, Lines(content), keyword, n);
  }

  /** "import os" mentions "os". */
  lemma ExampleMatch()
    ensures LineMatches("import os", "os")
  {
    LowerUnchanged("os");
    LowerUnchanged("import os");
    assert OccursAt("import os", "os", 7);
  }

  /** The other lines of the example do not mention "os". */
  lemma ExampleMisses()
    ensures !LineMatches("print('hi')", "os")
    ensures !LineMatches("def foo():", "os")
    ensures !LineMatches("    pass", "os")
  {
    LowerUnchanged("os");
    LowerUnchanged("print('hi')");
    MissingCharNotContained("print('hi')", "os", 'o');
    LowerUnchanged("def foo():");
    MissingCharNotContained("def foo():", "os", 's');
    LowerUnchanged("    pass");
    MissingCharNotContained("    pass", "os", 'o');
  }

  /** The rendering of line 1 of "a.py". */
  lemma ExampleRender()
    ensures Render("a.py", 1, "import os") == "a.py: Line 1: import os"
  {
    assert "import os"[0] == 'i' && "import os"[8] == 's';
    TrimUntouched("import os", Whitespace);
    assert NatToString(1) == "1";
  }

  /** Of the lines of "a.py", only the first mentions `os`. */
  lemma ExampleFirstFileLines()
    ensures Lines("import os\nprint('hi')") == ["import os", "print('hi')"]
    ensures FileLines("import os\nprint('hi')", "os") == [1]
  {
    var content := "import os\nprint('hi')";
    var lines := ["import os", "print('hi')"];
    assert Join("\n", lines) == content;
    SplitJoin(lines, '\n');
    ExampleMatch();
    ExampleMisses();
    ContentTestRedundant(content, "os");
    assert lines[..1] == ["import os"] && lines[..1][..0] == [];
  }

  /** A file whose first line imports `os` reports that one line. */
  lemma ExampleFirstFile()
    ensures FileResults("a.py", "import os\nprint('hi')", "os") == ["a.py: Line 1: import os"]
  {
    ExampleFirstFileLines();
    assert [1][..0] == [];
    ExampleRender();
  }

  /** A file that never mentions `os` reports nothing. */
  lemma ExampleSecondFile()
    ensures FileResults("dir/b.py", "def foo():\n    pass", "os") == []
  {
    var content := "def foo():\n    pass";
    var lines := ["def foo():", "    pass"];
    assert Join("\n", lines) == content;
    SplitJoin(lines, '\n');
    ExampleMisses();
    ContentTestRedundant(content, "os");
    assert lines[..1] == ["def foo():"] && lines[..1][..0] == [];
    assert MatchingLines(lines, "os") == [];
  }

  /** Two stored files of which only the first mentions "os". */
  lemma SearchExample()
    ensures Search([("a.py", "import os\nprint('hi')"), ("dir/b.py", "def foo():\n    pass")], "os")
      == ["a.py: Line 1: import os"]
  {
    var files := [("a.py", "import os\nprint('hi')"), ("dir/b.py", "def foo():\n    pass")];
    ExampleFirstFile();
    ExampleSecondFile();
    assert files[..1] == [files[0]] && files[..1][..0] == [];
  }
}
