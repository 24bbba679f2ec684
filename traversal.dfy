/**
 * `fetch_repo_data` as the service runs it: the nested `traverse_directory`
 * updates `repo_data` and the `nonlocal` counters in place, one entry at a
 * time, and calls itself on every listed directory.
 */
module Traversal {
  import opened Wrappers
  import opened Utf8
  import opened Dict
  import opened RepoPath
  import opened RepoTree

  /** The variables `traverse_directory` closes over, with the bounds of the fetch. */
  class Walker {
    const budget: Budget
    var structure: seq<string>
    var files: Dict
    var fileCount: nat
    var totalSize: nat

    function Snapshot(): State
      reads this
    {
      State(structure, files, fileCount, totalSize)
    }

    constructor (budget: Budget)
      ensures this.budget == budget && Snapshot() == Start
    {
      this.budget := budget;
      structure, files := [], [];
      fileCount, totalSize := 0, 0;
    }

    /** The `try` block for one file: it leaves exactly the state `VisitFile` describes. */
    method StoreFile(currentPath: string, read: Read)
      modifies this
      ensures Snapshot() == VisitFile(old(Snapshot()), currentPath, read, budget)
    {
      match read {
        case Decoded(fileContent) =>
          var fileSize := Utf8Length(fileContent);
          if fileCount < budget.maxFiles && totalSize + fileSize <= SizeLimit {
            files := Put(files, currentPath, Preview(fileContent));
            fileCount := fileCount + 1;
            totalSize := totalSize + fileSize;
          }
        case Raised(message) =>
          files := Put(files, currentPath, "Error: " + message);
      }
    }

    /** `traverse_directory(directory, path)` leaves exactly the state `Walk` describes. */
    method TraverseDirectory(directory: seq<Entry>, path: string)
      modifies this
      ensures Snapshot() == Walk(directory, path, old(Snapshot()), budget)
      decreases SizeOf(directory), 1
    {
      if fileCount >= budget.maxFiles || totalSize > SizeLimit {
        return;
      }
      var i := 0;
      while i < |directory|
        invariant 0 <= i <= |directory|
        invariant Loop(directory[i..], path, Snapshot(), budget) == Loop(directory, path, old(Snapshot()), budget)
      {
        SizeAt(directory, i);
        VisitEntry(directory[i], path);
        assert directory[i..][1..] == directory[i + 1..];
        i := i + 1;
      }
    }

    /** One iteration of the `for` loop: it leaves exactly the state `Visit` describes. */
    method VisitEntry(content: Entry, path: string)
      modifies this
      ensures Snapshot() == Visit(content, path, old(Snapshot()), budget)
      decreases Size(content), 0
    {
      var currentPath := ChildPath(path, content.name);
      if Excluded(currentPath, budget.exclude) {
        return;
      }
      structure := structure + [currentPath];
      match content {
        case File(_, read) =>
          StoreFile(currentPath, read);
        case Dir(_, listing) =>
          if listing.Listed? {
            TraverseDirectory(listing.entries, currentPath);
          }
        case Other(_) =>
      }
    }
  }

  /** `fetch_repo_data(repo_url, max_files, exclude_patterns)`; `None` stands for the exception it lets escape. */
  method FetchRepoData(host: map<string, Listing>, repoUrl: string, maxFiles: int, exclude: seq<string>)
    returns (r: Option<RepoData>)
    ensures r == Fetch(host, repoUrl, Budget(maxFiles, exclude))
  {
    var repoPath := NormalizeRepoPath(repoUrl);
    if repoPath !in host || host[repoPath].Unlisted? {
      return None;
    }
    var walker := new Walker(Budget(maxFiles, exclude));
    walker.TraverseDirectory(host[repoPath].entries, "");
    r := Some(RepoData(walker.structure, walker.files));
  }
}
