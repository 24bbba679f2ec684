/**
 * What the bounded walk guarantees, proved about the functions of `RepoTree`
 * (and so, through `Traversal.Walker.TraverseDirectory`, about the walk the
 * service runs): the keys of `files` are all listed, the budget holds after
 * every step, excluded paths never appear and excluded subtrees are never
 * consulted, stored values come from the tree (truncated), and `structure` is
 * in pre-order.
 */
module TreeProofs {
  import opened Text
  import opened Utf8
  import opened Dict
  import opened RepoTree

  // ---------------------------------------------------------------------
  // Listing, budget, exclusion: the invariant kept by every step

  ghost predicate KeysListed(st: State) {
    forall k :: k in Keys(st.files) ==> k in st.structure
  }

  function FileCap(b: Budget): nat {
    if b.maxFiles < 0 then 0 else b.maxFiles
  }

  ghost predicate WithinBudget(st: State, b: Budget) {
    st.fileCount <= FileCap(b) && st.totalSize <= SizeLimit
  }

  ghost predicate NoneExcluded(st: State, b: Budget) {
    forall p :: p in st.structure ==> !Excluded(p, b.exclude)
  }

  ghost predicate Sound(st: State, b: Budget) {
    KeysListed(st) && WithinBudget(st, b) && NoneExcluded(st, b) && Distinct(Keys(st.files))
  }

  /**
   * A file step keeps the invariant: the path it may store was appended
   * before, and the counters move only when the guard admits the file.
   */
  lemma VisitFileSound(st: State, path: string, read: Read, b: Budget)
    requires Sound(st, b) && path in st.structure
    ensures Sound(VisitFile(st, path, read, b), b)
  {
    match read
    case Raised(message) =>
      PutDistinct(st.files, path, "Error: " + message);
    case Decoded(text) =>
      PutDistinct(st.files, path, Preview(text));
  }

  lemma {:induction false} VisitSound(e: Entry, path: string, st: State, b: Budget)
    requires Sound(st, b)
    ensures Sound(Visit(e, path, st, b), b)
    decreases Size(e), 0
  {
    var p := ChildPath(path, e.name);
    if !Excluded(p, b.exclude) {
      var listed := st.(structure := st.structure + [p]);
      assert Sound(listed, b);
      match e
      case File(_, read) =>
        VisitFileSound(listed, p, read, b);
      case Dir(_, listing) =>
        if listing.Listed? && !Halted(listed, b) {
          LoopSound(listing.entries, p, listed, b);
        }
      case Other(_) =>
    }
  }

  lemma {:induction false} LoopSound(es: seq<Entry>, path: string, st: State, b: Budget)
    requires Sound(st, b)
    ensures Sound(Loop(es, path, st, b), b)
    decreases SizeOf(es), 1
  {
    if es != [] {
      VisitSound(es[0], path, st, b);
      LoopSound(es[1..], path, Visit(es[0], path, st, b), b);
    }
  }

  lemma CrawlSound(root: seq<Entry>, b: Budget)
    ensures Sound(Crawl(root, b), b)
  {
    if !Halted(Start, b) {
      LoopSound(root, "", Start, b);
    }
  }

  /** Every key of `files` is also in `structure`, and no key is there twice. */
  lemma CrawlListsEveryKey(root: seq<Entry>, b: Budget)
    ensures var r := Crawl(root, b);
      (forall k :: k in Keys(r.files) ==> k in r.structure) && Distinct(Keys(r.files))
  {
    CrawlSound(root, b);
  }

  /**
   * The budget holds at the end of the walk (and, by `LoopSound`, after every
   * step): at most `max_files` files counted, at most 51200 bytes counted. So
   * the size half of the halt test at the start of a directory call never fires.
   */
  lemma CrawlWithinBudget(root: seq<Entry>, b: Budget)
    ensures var r := Crawl(root, b);
      && r.fileCount <= FileCap(b)
      && r.totalSize <= SizeLimit
  {
    CrawlSound(root, b);
  }

  /** No path whose lowercased form contains a pattern is ever listed, nor stored. */
  lemma CrawlSkipsExcluded(root: seq<Entry>, b: Budget)
    ensures var r := Crawl(root, b);
      && (forall p :: p in r.structure ==> !Excluded(p, b.exclude))
      && (forall k :: k in Keys(r.files) ==> !Excluded(k, b.exclude))
  {
    CrawlSound(root, b);
  }

  /** The pattern has no ASCII capital letter. */
  predicate NoCapital(pattern: string) {
    forall j :: 0 <= j < |pattern| ==> !IsUpper(pattern[j])
  }

  /**
   * The patterns are matched against the lowercased path but are not
   * lowercased themselves: a path is excluded exactly when some pattern
   * without a capital letter occurs in its lowercase form, so a pattern
   * such as "Test" never excludes anything.
   */
  lemma OnlyLowercasePatternsExclude(path: string, exclude: seq<string>)
    ensures Excluded(path, exclude)
      <==> exists pattern :: pattern in exclude && NoCapital(pattern) && Contains(Lower(path), pattern)
  {
    if Excluded(path, exclude) {
      var pattern :| pattern in exclude && Contains(Lower(path), pattern);
      if !NoCapital(pattern) {
        UpperNeverInLower(path, pattern);
      }
    }
  }

  /**
   * One file step, for a path already listed: an exception is stored as
   * "Error: <message>" without touching the counters; a decoded text the
   * budget admits is stored as its preview and counted with its full UTF-8
   * size; a decoded text the budget refuses leaves everything as it was.
   */
  lemma FileAdmission(st: State, path: string, read: Read, b: Budget)
    ensures var r := VisitFile(st, path, read, b);
      && r.structure == st.structure
      && (read.Raised? ==>
            && r.fileCount == st.fileCount && r.totalSize == st.totalSize
            && Get(r.files, path).Some? && Get(r.files, path).value == "Error: " + read.message)
      && (read.Decoded? && Admits(st, Utf8Length(read.text), b) ==>
            && r.fileCount == st.fileCount + 1
            && r.totalSize == st.totalSize + Utf8Length(read.text)
            && Get(r.files, path).Some? && Get(r.files, path).value == Preview(read.text))
      && (read.Decoded? && !Admits(st, Utf8Length(read.text), b) ==> r == st)
  {
  }

  // ---------------------------------------------------------------------
  // Where stored values come from

  /** The value a file entry leads to when it is stored: its preview, or the error text. */
  function StoredValue(read: Read): string {
    match read
    case Decoded(text) => Preview(text)
    case Raised(message) => "Error: " + message
  }

  /** Every (path, value) pair the files of a listing could be stored as, through every directory. */
  ghost function Candidates(es: seq<Entry>, path: string): set<(string, string)>
    decreases SizeOf(es), 1
  {
    if es == [] then {} else EntryCandidates(es[0], path) + Candidates(es[1..], path)
  }

  ghost function EntryCandidates(e: Entry, path: string): set<(string, string)>
    decreases Size(e), 0
  {
    var p := ChildPath(path, e.name);
    match e
    case File(_, read) => {(p, StoredValue(read))}
    case Dir(_, Listed(children)) => Candidates(children, p)
    case _ => {}
  }

  lemma {:induction false} VisitProvenance(e: Entry, path: string, st: State, b: Budget, pool: set<(string, string)>)
    requires forall item :: item in st.files ==> item in pool
    requires EntryCandidates(e, path) <= pool
    ensures forall item :: item in Visit(e, path, st, b).files ==> item in pool
    decreases Size(e), 0
  {
    var p := ChildPath(path, e.name);
    if !Excluded(p, b.exclude) {
      var listed := st.(structure := st.structure + [p]);
      match e
      case File(_, read) =>
        assert (p, StoredValue(read)) in pool;
      case Dir(_, listing) =>
        if listing.Listed? && !Halted(listed, b) {
          LoopProvenance(listing.entries, p, listed, b, pool);
        }
      case Other(_) =>
    }
  }

  lemma {:induction false} LoopProvenance(es: seq<Entry>, path: string, st: State, b: Budget, pool: set<(string, string)>)
    requires forall item :: item in st.files ==> item in pool
    requires Candidates(es, path) <= pool
    ensures forall item :: item in Loop(es, path, st, b).files ==> item in pool
    decreases SizeOf(es), 1
  {
    if es != [] {
      VisitProvenance(es[0], path, st, b, pool);
      LoopProvenance(es[1..], path, Visit(es[0], path, st, b), b, pool);
    }
  }

  /**
   * Every stored item is a file of the tree at that very path, holding either
   * the first 500 characters of its decoded text (so at most 500 characters,
   * and a prefix of the text) or the untruncated "Error: <message>".
   */
  lemma CrawlStoresTreeFiles(root: seq<Entry>, b: Budget)
    ensures forall item :: item in Crawl(root, b).files ==> item in Candidates(root, "")
  {
    if !Halted(Start, b) {
      LoopProvenance(root, "", Start, b, Candidates(root, ""));
    }
  }

  // ---------------------------------------------------------------------
  // How the listing grows: appended only, each call below its own path

  /** `x` lies below the directory `path` (everything lies below the root). */
  ghost predicate Under(path: string, x: string) {
    path == "" || path + "/" <= x
  }

  ghost predicate Grows(st: State, r: State, path: string) {
    && st.structure <= r.structure
    && (forall j :: |st.structure| <= j < |r.structure| ==> Under(path, r.structure[j]))
    && st.fileCount <= r.fileCount && st.totalSize <= r.totalSize
    && Keys(st.files) <= Keys(r.files)
  }

  lemma GrowsTransitive(s1: State, s2: State, s3: State, path: string)
    requires Grows(s1, s2, path) && Grows(s2, s3, path)
    ensures Grows(s1, s3, path)
  {
    forall j | |s1.structure| <= j < |s3.structure|
      ensures Under(path, s3.structure[j])
    {
      if j < |s2.structure| {
        assert s3.structure[j] == s2.structure[j];
      }
    }
  }

  lemma UnderChild(path: string, name: string, x: string)
    requires Under(ChildPath(path, name), x)
    ensures Under(path, x)
  {
    if path != "" {
      var p := path + "/" + name;
      assert (p + "/")[..|path| + 1] == path + "/";
      assert x[..|path| + 1] == (p + "/")[..|path| + 1];
    }
  }

  lemma VisitFileGrows(st: State, path: string, read: Read, b: Budget)
    ensures Grows(st, VisitFile(st, path, read, b), path)
  {
  }

  lemma {:induction false} VisitGrows(e: Entry, path: string, st: State, b: Budget)
    ensures Grows(st, Visit(e, path, st, b), path)
    decreases Size(e), 0
  {
    var p := ChildPath(path, e.name);
    if !Excluded(p, b.exclude) {
      var listed := st.(structure := st.structure + [p]);
      assert Under(path, p);
      assert Grows(st, listed, path);
      match e
      case File(_, read) =>
        VisitFileGrows(listed, p, read, b);
        GrowsTransitive(st, listed, VisitFile(listed, p, read, b), path);
      case Dir(_, listing) =>
        if listing.Listed? {
          var r := Walk(listing.entries, p, listed, b);
          WalkGrows(listing.entries, p, listed, b);
          forall j | |listed.structure| <= j < |r.structure|
            ensures Under(path, r.structure[j])
          {
            UnderChild(path, e.name, r.structure[j]);
          }
          GrowsTransitive(st, listed, r, path);
        }
      case Other(_) =>
    }
  }

  lemma {:induction false} LoopGrows(es: seq<Entry>, path: string, st: State, b: Budget)
    ensures Grows(st, Loop(es, path, st, b), path)
    decreases SizeOf(es), 1
  {
    if es != [] {
      var next := Visit(es[0], path, st, b);
      VisitGrows(es[0], path, st, b);
      LoopGrows(es[1..], path, next, b);
      GrowsTransitive(st, next, Loop(es[1..], path, next, b), path);
    }
  }

  /**
   * One directory call only appends to `structure`, and only paths below its
   * own; the counters never go down; keys already in `files` keep their
   * order; a call entered with the budget spent changes nothing.
   */
  lemma {:induction false} WalkGrows(es: seq<Entry>, path: string, st: State, b: Budget)
    ensures Grows(st, Walk(es, path, st, b), path)
    ensures Halted(st, b) ==> Walk(es, path, st, b) == st
    decreases SizeOf(es), 2
  {
    if !Halted(st, b) {
      LoopGrows(es, path, st, b);
    }
  }

  /**
   * A directory that is not excluded is listed first, and everything its
   * walk lists comes right after it and lies below it.
   */
  lemma DirectoryBeforeItsContents(name: string, listing: Listing, path: string, st: State, b: Budget)
    requires !Excluded(ChildPath(path, name), b.exclude)
    ensures var p := ChildPath(path, name);
      var r := Visit(Dir(name, listing), path, st, b);
      && st.structure + [p] <= r.structure
      && (forall j :: |st.structure| < j < |r.structure| ==> Under(p, r.structure[j]))
  {
    var p := ChildPath(path, name);
    var listed := st.(structure := st.structure + [p]);
    if listing.Listed? {
      WalkGrows(listing.entries, p, listed, b);
    }
  }

  // ---------------------------------------------------------------------
  // Pre-order

  /** The directory part of a path: everything before its last '/', or "" when it has none. */
  function ParentOf(s: string): string
    decreases |s|
  {
    if s == [] then [] else if s[|s| - 1] == '/' then s[..|s| - 1] else ParentOf(s[..|s| - 1])
  }

  lemma {:induction false} ParentOfName(prefix: string, name: string)
    requires '/' !in name
    ensures ParentOf(prefix + "/" + name) == prefix
    ensures ParentOf(name) == ""
    decreases |name|
  {
    if name == [] {
      assert (prefix + "/")[..|prefix|] == prefix;
    } else {
      var s := prefix + "/" + name;
      assert s[..|s| - 1] == prefix + "/" + name[..|name| - 1];
      assert name[|name| - 1] in name;
      ParentOfName(prefix, name[..|name| - 1]);
    }
  }

  lemma ParentOfChild(path: string, name: string)
    requires '/' !in name
    ensures ParentOf(ChildPath(path, name)) == path
  {
    ParentOfName(path, name);
  }

  /** The hosting API never puts a '/' inside an entry's name. */
  ghost predicate WellNamed(es: seq<Entry>)
    decreases SizeOf(es), 1
  {
    es == [] || (EntryWellNamed(es[0]) && WellNamed(es[1..]))
  }

  ghost predicate EntryWellNamed(e: Entry)
    decreases Size(e), 0
  {
    '/' !in e.name && (e.Dir? && e.listing.Listed? ==> WellNamed(e.listing.entries))
  }

  /** Every listed path's directory is the root or was listed before it. */
  ghost predicate PreOrdered(s: seq<string>) {
    forall j :: 0 <= j < |s| ==> ParentOf(s[j]) == "" || ParentOf(s[j]) in s[..j]
  }

  lemma AppendPreOrdered(s: seq<string>, p: string)
    requires PreOrdered(s) && (ParentOf(p) == "" || ParentOf(p) in s)
    ensures PreOrdered(s + [p])
  {
    var t := s + [p];
    forall j | 0 <= j < |t|
      ensures ParentOf(t[j]) == "" || ParentOf(t[j]) in t[..j]
    {
      if j < |s| {
        assert t[..j] == s[..j];
      } else {
        assert t[..j] == s;
      }
    }
  }

  lemma {:induction false} VisitPreOrdered(e: Entry, path: string, st: State, b: Budget)
    requires EntryWellNamed(e) && PreOrdered(st.structure)
    requires path == "" || path in st.structure
    ensures PreOrdered(Visit(e, path, st, b).structure)
    decreases Size(e), 0
  {
    var p := ChildPath(path, e.name);
    if !Excluded(p, b.exclude) {
      var listed := st.(structure := st.structure + [p]);
      ParentOfChild(path, e.name);
      AppendPreOrdered(st.structure, p);
      match e
      case File(_, read) =>
      case Dir(_, listing) =>
        if listing.Listed? && !Halted(listed, b) {
          assert p in listed.structure;
          LoopPreOrdered(listing.entries, p, listed, b);
        }
      case Other(_) =>
    }
  }

  lemma {:induction false} LoopPreOrdered(es: seq<Entry>, path: string, st: State, b: Budget)
    requires WellNamed(es) && PreOrdered(st.structure)
    requires path == "" || path in st.structure
    ensures PreOrdered(Loop(es, path, st, b).structure)
    decreases SizeOf(es), 1
  {
    if es != [] {
      var next := Visit(es[0], path, st, b);
      VisitPreOrdered(es[0], path, st, b);
      VisitGrows(es[0], path, st, b);
      LoopPreOrdered(es[1..], path, next, b);
    }
  }

  /** With names free of '/', the listing the crawl produces is in pre-order. */
  lemma CrawlPreOrdered(root: seq<Entry>, b: Budget)
    requires WellNamed(root)
    ensures PreOrdered(Crawl(root, b).structure)
  {
    if !Halted(Start, b) {
      LoopPreOrdered(root, "", Start, b);
    }
  }

  // ---------------------------------------------------------------------
  // Excluded subtrees are never consulted

  /** The tree with every excluded entry replaced by a bare placeholder of the same name. */
  function Prune(es: seq<Entry>, path: string, exclude: seq<string>): seq<Entry>
    decreases SizeOf(es), 1
  {
    if es == [] then [] else [PruneEntry(es[0], path, exclude)] + Prune(es[1..], path, exclude)
  }

  function PruneEntry(e: Entry, path: string, exclude: seq<string>): Entry
    decreases Size(e), 0
  {
    var p := ChildPath(path, e.name);
    if Excluded(p, exclude) then Other(e.name)
    else match e
      case Dir(name, Listed(children)) => Dir(name, Listed(Prune(children, p, exclude)))
      case _ => e
  }

  lemma {:induction false} VisitPruned(e: Entry, path: string, st: State, b: Budget)
    ensures Visit(PruneEntry(e, path, b.exclude), path, st, b) == Visit(e, path, st, b)
    decreases Size(e), 0
  {
    var p := ChildPath(path, e.name);
    if !Excluded(p, b.exclude) {
      match e
      case Dir(name, Listed(children)) =>
        var listed := st.(structure := st.structure + [p]);
        if !Halted(listed, b) {
          LoopPruned(children, p, listed, b);
        }
      case _ =>
    }
  }

  lemma {:induction false} LoopPruned(es: seq<Entry>, path: string, st: State, b: Budget)
    ensures Loop(Prune(es, path, b.exclude), path, st, b) == Loop(es, path, st, b)
    decreases SizeOf(es), 1
  {
    if es != [] {
      var pruned := Prune(es, path, b.exclude);
      assert pruned[0] == PruneEntry(es[0], path, b.exclude);
      assert pruned[1..] == Prune(es[1..], path, b.exclude);
      VisitPruned(es[0], path, st, b);
      LoopPruned(es[1..], path, Visit(es[0], path, st, b), b);
    }
  }

  /**
   * What lies at or under an excluded path makes no difference to the crawl:
   * its listing is never fetched and its files are never read.
   */
  lemma CrawlIgnoresExcluded(root: seq<Entry>, b: Budget)
    ensures Crawl(Prune(root, "", b.exclude), b) == Crawl(root, b)
  {
    if !Halted(Start, b) {
      LoopPruned(root, "", Start, b);
    }
  }

  // ---------------------------------------------------------------------
  // Worked examples

  /**
   * With `max_files` = 1, once the first file is stored the next directory
   * call returns at once, but the loop it was called from goes on listing
   * its remaining entries.
   */
  lemma HaltStopsOnlyTheDirectoryCall()
    ensures var root := [
        File("x", Decoded("1")),
        Dir("d", Listed([File("y", Decoded("2"))])),
        File("z", Decoded("3"))];
      var r := Crawl(root, Budget(1, []));
      r.structure == ["x", "d", "z"] && r.files == [("x", "1")] && r.fileCount == 1
  {
    var b := Budget(1, []);
    var root := [
      File("x", Decoded("1")),
      Dir("d", Listed([File("y", Decoded("2"))])),
      File("z", Decoded("3"))];
    var s1 := Visit(root[0], "", Start, b);
    assert s1 == State(["x"], [("x", "1")], 1, 1);
    var s2 := Visit(root[1], "", s1, b);
    assert s2 == s1.(structure := ["x", "d"]);
    var s3 := Visit(root[2], "", s2, b);
    assert s3 == s2.(structure := ["x", "d", "z"]);
    assert root[1..][1..] == [root[2]];
    assert Loop(root, "", Start, b) == s3;
  }

  /** "test" excludes `tests`, but not `main.py`, which has no 't'. */
  lemma ExampleExclusions()
    ensures Excluded("tests", ["test"]) && !Excluded("main.py", ["test"])
  {
    LowerUnchanged("tests");
    assert OccursAt("tests", "test", 0);
    assert Contains(Lower("tests"), "test");
    assert "test" in ["test"];
    LowerUnchanged("main.py");
    MissingCharNotContained("main.py", "test", 't');
  }

  /** Neither `tests` nor anything under it is listed or read when "test" is excluded; `main.py` is. */
  lemma ExcludedDirectoryExample()
    ensures var root := [
        Dir("tests", Listed([File("foo.py", Decoded("x"))])),
        File("main.py", Decoded("y"))];
      var r := Crawl(root, Budget(50, ["test"]));
      r.structure == ["main.py"] && r.files == [("main.py", "y")]
  {
    var b := Budget(50, ["test"]);
    var root := [
      Dir("tests", Listed([File("foo.py", Decoded("x"))])),
      File("main.py", Decoded("y"))];
    ExampleExclusions();
    var s1 := Visit(root[0], "", Start, b);
    assert s1 == Start;
    var s2 := Visit(root[1], "", s1, b);
    assert s2 == State(["main.py"], [("main.py", "y")], 1, 1);
    assert root[1..][1..] == [];
    assert Loop(root, "", Start, b) == s2;
  }

  /** Error entries are stored without being counted, so `files` can outgrow `max_files`. */
  lemma ErrorEntriesPassMaxFiles()
    ensures var r := Crawl([File("a", Raised("m")), File("b", Raised("m"))], Budget(1, []));
      |r.files| == 2 && r.fileCount == 0
  {
    var b := Budget(1, []);
    var root := [File("a", Raised("m")), File("b", Raised("m"))];
    var e := "Error: " + "m";
    assert !Excluded("a", b.exclude) && !Excluded("b", b.exclude);
    var f1 := Put([], "a", e);
    assert f1 == [("a", e)];
    var s1 := Visit(root[0], "", Start, b);
    assert s1 == State(["a"], f1, 0, 0);
    var f2 := Put(f1, "b", e);
    assert Keys(f2) == ["a", "b"];
    var s2 := Visit(root[1], "", s1, b);
    assert s2 == State(["a", "b"], f2, 0, 0);
    assert root[1..][1..] == [];
    assert Loop(root, "", Start, b) == s2;
  }
}
