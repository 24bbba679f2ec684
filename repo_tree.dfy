/**
 * The bounded walk over a repository's file tree that `fetch_repo_data`
 * performs, stated as functions on values.
 *
 * The remote tree is an input: each directory listing the hosting API would
 * return is already in the `Entry` value, and an exception the API would
 * raise is recorded where it would be raised. The walk is pre-order and
 * depth-first; it threads the `structure` list, the `files` dict and the two
 * counters `file_count` and `total_size` through every entry.
 */
module RepoTree {
  import opened Wrappers
  import opened Text
  import opened Utf8
  import opened Dict
  import opened RepoPath

  /** The hard-coded 50 KiB ceiling on the bytes of stored contents. */
  const SizeLimit: nat := 50 * 1024

  /** How many characters of a decoded file are kept. */
  const PreviewLength: nat := 500

  /**
   * Reading a file's content: the text that `decode("utf-8", errors="ignore")`
   * gives (undecodable bytes already dropped), or the message of the exception
   * raised while fetching it.
   */
  datatype Read = Decoded(text: string) | Raised(message: string)

  /** What `get_contents(path)` gives for a directory: its entries, or an exception. */
  datatype Listing = Listed(entries: seq<Entry>) | Unlisted

  /**
   * One item of a directory listing. A directory carries its own listing.
   * `Other` is every entry type that is neither "file" nor "dir" (symlinks,
   * submodules).
   */
  datatype Entry =
    | File(name: string, read: Read)
    | Dir(name: string, listing: Listing)
    | Other(name: string)

  /** The caller's bounds: `max_files` and `exclude_patterns`. */
  datatype Budget = Budget(maxFiles: int, exclude: seq<string>)

  /** Everything the walk changes: `structure`, `files`, `file_count`, `total_size`. */
  datatype State = State(structure: seq<string>, files: Dict, fileCount: nat, totalSize: nat)

  /** What the service hands back: `{"structure": [...], "files": {...}}`. */
  datatype RepoData = RepoData(structure: seq<string>, files: Dict)

  const Start: State := State([], [], 0, 0)

  function Size(e: Entry): nat {
    match e
    case Dir(_, Listed(children)) => 1 + SizeOf(children)
    case _ => 1
  }

  function SizeOf(es: seq<Entry>): nat {
    if es == [] then 0 else Size(es[0]) + SizeOf(es[1..])
  }

  lemma {:induction false} SizeAt(es: seq<Entry>, i: nat)
    requires i < |es|
    ensures Size(es[i]) <= SizeOf(es)
  {
    if i > 0 {
      SizeAt(es[1..], i - 1);
    }
  }

  /** `f"{path}/{name}" if path else name` */
  function ChildPath(path: string, name: string): string {
    if path == "" then name else path + "/" + name
  }

  /** `any(pattern in path.lower() for pattern in exclude)`: the patterns themselves are not lowercased. */
  predicate Excluded(path: string, exclude: seq<string>) {
    exists pattern :: pattern in exclude && Contains(Lower(path), pattern)
  }

  /** `text[:500]` */
  function Preview(text: string): (r: string)
    ensures |r| <= PreviewLength && r <= text
    ensures |r| == if |text| <= PreviewLength then |text| else PreviewLength
    ensures |text| <= PreviewLength ==> r == text
  {
    if |text| <= PreviewLength then text else text[..PreviewLength]
  }

  /** `file_count < max_files and total_size + file_size <= 50 * 1024`, checked before a file is stored. */
  predicate Admits(st: State, fileSize: nat, b: Budget) {
    st.fileCount < b.maxFiles && st.totalSize + fileSize <= SizeLimit
  }

  /** `file_count >= max_files or total_size > 50 * 1024`, checked when a directory call starts. */
  predicate Halted(st: State, b: Budget) {
    st.fileCount >= b.maxFiles || st.totalSize > SizeLimit
  }

  /**
   * The `try` block for a file whose path is already in `structure`: a read
   * that raised stores "Error: <message>" whatever the budget, and a decoded
   * text is stored (its first 500 characters) and counted only when the budget
   * admits its full UTF-8 size.
   */
  function VisitFile(st: State, path: string, read: Read, b: Budget): State {
    match read
    case Raised(message) => st.(files := Put(st.files, path, "Error: " + message))
    case Decoded(text) =>
      var fileSize := Utf8Length(text);
      if Admits(st, fileSize, b) then
        st.(files := Put(st.files, path, Preview(text)),
            fileCount := st.fileCount + 1,
            totalSize := st.totalSize + fileSize)
      else st
  }

  /** One call of `traverse_directory(directory, path)`: nothing at all once the budget is spent. */
  function Walk(es: seq<Entry>, path: string, st: State, b: Budget): State
    decreases SizeOf(es), 2
  {
    if Halted(st, b) then st else Loop(es, path, st, b)
  }

  /** The `for` loop of that call, over the entries left. */
  function Loop(es: seq<Entry>, path: string, st: State, b: Budget): State
    decreases SizeOf(es), 1
  {
    if es == [] then st else Loop(es[1..], path, Visit(es[0], path, st, b), b)
  }

  /**
   * One iteration: an excluded path is skipped; any other path is appended to
   * `structure`, then a file is read, a listed directory is walked, and a
   * directory whose listing raised adds nothing more.
   */
  function Visit(e: Entry, path: string, st: State, b: Budget): State
    decreases Size(e), 0
  {
    var p := ChildPath(path, e.name);
    if Excluded(p, b.exclude) then st
    else
      var listed := st.(structure := st.structure + [p]);
      match e
      case File(_, read) => VisitFile(listed, p, read, b)
      case Dir(_, listing) => if listing.Listed? then Walk(listing.entries, p, listed, b) else listed
      case Other(_) => listed
  }

  /** The walk from the repository root, `traverse_directory(contents)`. */
  function Crawl(root: seq<Entry>, b: Budget): State {
    Walk(root, "", Start, b)
  }

  /**
   * `fetch_repo_data` against a host that maps each repository path to its
   * root listing: `None` when `get_repo` raises (no such repository) or when
   * listing the root raises, exceptions the service lets escape.
   */
  function Fetch(host: map<string, Listing>, repoUrl: string, b: Budget): Option<RepoData> {
    var repoPath := NormalizeRepoPath(repoUrl);
    if repoPath !in host || host[repoPath].Unlisted? then None
    else
      var st := Crawl(host[repoPath].entries, b);
      Some(RepoData(st.structure, st.files))
  }
}
