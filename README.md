# Repository fetch, format and search, in Dafny

A model of the data-shaping core of a small Flask service that reads a
GitHub repository and asks a generation service to talk about it. The model
covers four pieces of `main.py`:

- **`fetch_repo_data`**, the bounded tree walk. It turns a repository URL
  into an "owner/name" path. It then walks the repository's file tree
  depth-first and in pre-order with the nested, recursive
  `traverse_directory`, which works through `nonlocal` counters. Along the
  way it builds `structure`, the list of every path it reached and did not exclude, and
  `files`, a dict from file path to the first 500 characters of the file.
  Two budgets bound it: `max_files` counted (successfully read) files,
  and 50 KiB of the full
  UTF-8 size of the admitted files (a file counts with its whole size even
  though only its first 500 characters are stored). Exclusion patterns
  suppress paths. A file whose read raised is stored as an error entry
  without being counted, so `files` can hold more than `max_files` items.
- **`format_for_gemini`**: the flat text document built from that data.
  `/analyze_structure` joins the structure with `"\n"`, and that join is
  modelled too.
- **`search_code`**: a case-insensitive keyword scan over the stored
  contents. It gives one `"<path>: Line <n>: <stripped line>"` per matching
  line.
- **The URL normalisation** `repo_url.replace("https://github.com/", "").strip("/")`.

The project is organised into these modules:

| module | file | content |
|---|---|---|
| `Wrappers` | `wrappers.dfy` | `Option` |
| `Text` | `text.dfy` | `str.lower`, `in` on strings, `strip`/`lstrip`/`rstrip`, `split`, `join`, limited to ASCII |
| `Decimal` | `decimal.dfy` | `str(n)` |
| `Utf8` | `utf8.dfy` | `len(s.encode("utf-8"))` |
| `Dict` | `dict.dfy` | the Python dict as an insertion-ordered list of pairs |
| `RepoPath` | `repo_path.dfy` | line 102 |
| `RepoTree` | `repo_tree.dfy` | the walk stated as functions on values (`Walk`, `Loop`, `Visit`, `VisitFile`, `Crawl`, `Fetch`) |
| `Traversal` | `traversal.dfy` | the walk as the service runs it |
| `TreeProofs` | `tree_proofs.dfy` | what the walk guarantees |
| `Format` | `format.dfy` | `format_for_gemini` |
| `Search` | `search.dfy` | `search_code` |

In `Traversal`, the class `Walker` holds the variables the nested function
updates in place. `TraverseDirectory` and `VisitEntry` are mutually
recursive, as the Python is, and `VisitEntry` calls `StoreFile` for a
file. Each is proved to
leave exactly the state that the `RepoTree` function of the same step
describes. Every lemma of `TreeProofs` is stated about those functions, so
each of its properties also holds of the imperative walk. `SearchCode`,
`ScanLines` and `FormatForGemini` are loops, proved equal to the functions
`Search`, `RenderLines` and `Document`. The lemmas of `Search` and `Format`
are about those functions.

The remote side is an input value. A `Dir` entry carries the `Listing` that
`repo.get_contents(path)` would return: either its entries, or `Unlisted`
when the call raises. A `File` entry carries its decoded text
(`errors="ignore"` has already dropped bad bytes), or the message of the
exception raised while reading it. The host is a map from repository path
to root listing. A missing key is `get_repo` raising.

## Model

| member | source | states |
|---|---|---|
| Traversal.Walker.constructor | main.py:108-110 | a new walker starts with empty `structure` and `files` and both counters at zero |
| Traversal.Walker.StoreFile | main.py:123-135 | the file's `try` block leaves exactly the state `VisitFile` gives: an error text stored without counting, or a preview stored and counted when the budget admits it, else nothing changes |
| Traversal.Walker.TraverseDirectory | main.py:112-140 | a call of `traverse_directory` leaves exactly the state `Walk` gives: unchanged when the halt test fires at entry, otherwise the loop's state; the loop invariant says that `Loop` over the remaining suffix `directory[i..]`, run from the current state, gives what `Loop` over all entries gives from the entry state |
| Traversal.Walker.VisitEntry | main.py:117-140 | one loop iteration leaves exactly the state `Visit` gives: excluded paths change nothing, other paths are appended first, then the file is stored, or the listed directory walked, or nothing more |
| Traversal.FetchRepoData | main.py:98-144 | the fetch returns what `Fetch` gives: `None` when the repository or its root listing raises, else the structure and files of the walk from the root |
| RepoTree.Preview | main.py:128 | the stored text is the prefix of the decoded text of length min(length of the text, 500): exactly 500 characters of a longer text, the whole text otherwise |
| RepoTree.ChildPath | main.py:118 | definition; no contract: `f"{path}/{name}"`, or the bare name at the root |
| RepoTree.Excluded | main.py:119 | definition; no contract: some pattern occurs in the lowercased path, the patterns themselves not lowercased |
| RepoTree.Halted | main.py:114 | definition; no contract: the halt test `file_count >= max_files or total_size > 50 * 1024` |
| RepoTree.Admits | main.py:127 | definition; no contract: the per-file guard `file_count < max_files and total_size + file_size <= 50 * 1024` |
| RepoTree.VisitFile | main.py:123-135 | definition; no contract: the `try` block of one file, as a state change |
| RepoTree.Walk | main.py:112-116 | definition; no contract: one call of `traverse_directory`, unchanged when halted at entry, else its loop |
| RepoTree.Loop | main.py:117 | definition; no contract: the `for` loop over the entries, threading the state |
| RepoTree.Visit | main.py:117-140 | definition; no contract: one iteration: skip when excluded, else append the path, then store the file or walk the listed directory |
| RepoTree.Crawl | main.py:142 | definition; no contract: `traverse_directory(contents)` from the empty state |
| RepoTree.Fetch | main.py:98-144 | definition; no contract: normalise the URL, fail when the repository or root listing raises, else crawl from the root |
| Utf8.Utf8Length | main.py:126 | the UTF-8 size lies between one and four bytes per character |
| Utf8.Utf8LengthConcat | main.py:126 | the UTF-8 size of two texts joined is the sum of their sizes |
| Utf8.Utf8LengthAscii | main.py:126 | an ASCII text takes exactly one byte per character |
| Dict.Get | main.py:128 | definition; no contract: `d.get(k)`, the value stored under `k` |
| Dict.Put | main.py:128 | assignment keeps an existing key's place or appends a new key last, reads back the new value, leaves every other key's value alone and adds no other item |
| Dict.PutDistinct | main.py:128 | assignment keeps the keys of the dict pairwise different |
| TreeProofs.VisitFileSound | main.py:123-135 | a file step on a listed path keeps the invariant: stored keys listed, distinct, counters within budget, no excluded path listed |
| TreeProofs.VisitSound | main.py:117-140 | one loop iteration, directories included, keeps the same invariant |
| TreeProofs.LoopSound | main.py:117-140 | the loop over a directory's entries keeps the invariant after every entry |
| TreeProofs.CrawlSound | main.py:112-142 | the crawl from an empty state ends in a state meeting the invariant |
| TreeProofs.CrawlListsEveryKey | main.py:122-135 | every key of `files` is in `structure`, and no key of `files` occurs twice |
| TreeProofs.CrawlWithinBudget | main.py:114-130 | at most `max_files` files are counted (none when it is negative) and at most 51200 bytes, so the size half of the halt test at line 114 cannot fire |
| TreeProofs.CrawlSkipsExcluded | main.py:119-122 | no path in `structure` and no key in `files` has an exclusion pattern in its lowercase form |
| TreeProofs.OnlyLowercasePatternsExclude | main.py:119 | a path is excluded if and only if some pattern without an ASCII capital occurs in its lowercase form: a pattern with a capital never excludes |
| TreeProofs.ExampleExclusions | main.py:119 | "test" excludes `tests` but not `main.py` |
| TreeProofs.ExcludedDirectoryExample | main.py:117-122 | with `exclude=["test"]`, neither the directory `tests` nor its file is listed or stored, while `main.py` is both |
| TreeProofs.ErrorEntriesPassMaxFiles | main.py:134-135 | with `max_files` = 1, two files whose reads raised are both stored and neither is counted |
| TreeProofs.FileAdmission | main.py:124-135 | a raised read stores "Error: message" without counting; an admitted text stores its preview and adds one file and its full UTF-8 size; a refused text changes nothing; `structure` is untouched |
| TreeProofs.VisitProvenance | main.py:117-138 | one iteration stores only items that pair a path of the subtree with that file's preview or error text |
| TreeProofs.LoopProvenance | main.py:117-138 | the loop stores only such items for its entries |
| TreeProofs.CrawlStoresTreeFiles | main.py:112-142 | every stored item pairs the path of a file in the tree with that file's preview or error text |
| TreeProofs.VisitFileGrows | main.py:123-135 | a file step appends to `structure` nothing outside its path, never lowers a counter, and leaves the keys stored before it as a prefix of the keys |
| TreeProofs.VisitGrows | main.py:117-140 | one iteration only appends to `structure`, and only paths under the directory's path; it never lowers a counter, and the keys stored before it stay a prefix of the keys |
| TreeProofs.LoopGrows | main.py:117-140 | the same for the loop over a directory's entries |
| TreeProofs.WalkGrows | main.py:112-140 | the same for a directory call, and a call entered with the budget spent changes nothing |
| TreeProofs.DirectoryBeforeItsContents | main.py:122-138 | a directory that is not excluded is appended first, and everything its walk appends follows it and lies under its path |
| TreeProofs.ParentOfChild | main.py:118 | the directory part of a child path built from a name without '/' is the parent's path |
| TreeProofs.VisitPreOrdered | main.py:117-140 | one iteration keeps `structure` in pre-order: each path's directory part is empty or listed earlier |
| TreeProofs.LoopPreOrdered | main.py:117-140 | the loop keeps `structure` in pre-order |
| TreeProofs.CrawlPreOrdered | main.py:112-142 | for a tree whose names hold no '/', the final `structure` lists every directory before anything under it |
| TreeProofs.VisitPruned | main.py:119-121 | replacing an excluded entry by a bare placeholder, and pruning below the rest, leaves the iteration's outcome unchanged |
| TreeProofs.LoopPruned | main.py:119-121 | the same for the loop over a directory's entries |
| TreeProofs.CrawlIgnoresExcluded | main.py:119-121 | the crawl of the pruned tree equals the crawl of the tree: nothing at or under an excluded path is fetched or read |
| TreeProofs.HaltStopsOnlyTheDirectoryCall | main.py:114-116 | with `max_files` = 1, the directory after the first stored file is entered and left at once, but the sibling after it is still listed |
| RepoPath.RemoveAll | main.py:102 | `replace(prefix, "")` never lengthens the URL |
| RepoPath.RemoveAt | main.py:102 | when the first occurrence of the prefix is at offset k, `replace` keeps the first k characters and goes on after that occurrence |
| RepoPath.RemoveFirstOccurrence | main.py:102 | the first occurrence of the prefix is removed wherever it stands: the text before it is kept and the rest is processed after it; with `RemoveAllAbsent` this fixes `replace(prefix, "")` completely |
| RepoPath.RemoveInnerPrefixExample | main.py:102 | "x" followed by the host prefix becomes "x" |
| RepoPath.RemoveAllAbsent | main.py:102 | a URL without the prefix passes through `replace` unchanged |
| RepoPath.NormalizeRepoPath | main.py:102 | the normalised path neither starts nor ends with '/' |
| RepoPath.TrimOneTrailingSlash | main.py:102 | `strip("/")` removes a single added trailing slash from a path with no slash at either end |
| RepoPath.RemoveLeadingPrefix | main.py:102 | a leading host prefix is removed by `replace` |
| RepoPath.NoColonNoPrefix | main.py:102 | a text without ':' holds no host prefix, so `replace` leaves it as it is |
| RepoPath.CanonicalUrl | main.py:102 | "https://github.com/" + path, the same with a trailing '/', and the bare path all normalise to the path, for a path without ':' or edge slashes |
| RepoPath.NormalizeExample | main.py:102 | "https://github.com/owner/name/" normalises to "owner/name" |
| Format.Listing | main.py:64 | definition; no contract: `"\n".join(structure)`, as `/analyze_structure` returns it and main.py:147 embeds it |
| Format.Block | main.py:150 | definition; no contract: `f"--- {file_path} ---\n{content}\n"` |
| Format.Blocks | main.py:149-150 | definition; no contract: the blocks of the files in insertion order |
| Format.Document | main.py:146-151 | definition; no contract: the document `format_for_gemini` returns |
| Format.FormatForGemini | main.py:146-151 | the loop builds exactly `Document`: the heading, the joined structure, a blank line, the files heading, then one block per file in insertion order |
| Format.ListingRoundTrip | main.py:64 | splitting the joined structure on "\n" gives the structure back when it is non-empty and no path holds a newline |
| Format.EmptyListingReadsAsOneLine | main.py:64 | the empty structure joins to a text that splits into one empty line, so it does not come back |
| Format.BlocksConcat | main.py:149-150 | the blocks of two runs of files are those of the first followed by those of the second |
| Format.DocumentLayout | main.py:146-151 | the document is the headings and listing, then the blocks of the files before file i, then file i's `--- path ---` block, then the blocks after it |
| Search.LineMatches | main.py:159 | definition; no contract: `keyword.lower() in line.lower()` |
| Search.FileLines | main.py:156-159 | definition; no contract: the content test, then the numbers of the matching lines |
| Search.Render | main.py:160 | definition; no contract: `f"{file_path}: Line {i}: {line.strip()}"` |
| Search.Search | main.py:153-161 | definition; no contract: every file's results, in insertion order |
| Search.Lines | main.py:157 | definition; no contract: `content.split("\n")` |
| Search.FileResults | main.py:156-160 | definition; no contract: one file's contribution to `results`: the content test, the line scan and the rendering |
| Search.MatchingLines | main.py:158-159 | at most one number per line, each a valid 1-based line number |
| Search.MatchingLinesSound | main.py:158-159 | every reported number names a line whose lowercase form holds the lowercased keyword |
| Search.MatchingLinesAscending | main.py:158-159 | the reported numbers ascend strictly, following the order of the lines |
| Search.MatchingLinesComplete | main.py:158-159 | every matching line's number is reported |
| Search.MatchingLinesExact | main.py:158-159 | sound, ascending and complete together: the numbers are exactly the matching lines, in order |
| Search.RenderLines | main.py:160 | one rendered result per reported number |
| Search.RenderAt | main.py:160 | result k is `path: Line n: stripped line` for the k-th reported number n |
| Search.ScanLines | main.py:157-160 | the inner loop gives exactly the rendered results of the matching line numbers |
| Search.SearchCode | main.py:153-161 | the outer loop gives exactly `Search`: each file's results in insertion order |
| Search.SearchNoFiles | main.py:153-161 | no files give no results |
| Search.SearchConcat | main.py:155 | the results for two runs of files are those of the first followed by those of the second |
| Search.ContentTestRedundant | main.py:156-159 | the whole-content test never changes a file's results: when a line matches, the content matches too |
| Search.FileLinesAreMatches | main.py:155-160 | a file reports exactly its matching line numbers, each once, in ascending order |
| Search.FileResultsCount | main.py:155-160 | a file contributes exactly as many results as it has matching lines |
| Search.ScanResultMatches | main.py:157-160 | result k of a scan renders a valid line number that matches |
| Search.FileResultMatches | main.py:155-160 | result k of a file renders one of its matching lines |
| Search.SearchResultsMatch | main.py:153-161 | every result renders some matching line of some stored file |
| Search.SearchFindsEveryMatch | main.py:153-161 | every matching line of every stored file is rendered among the results |
| Search.ScanFindsLine | main.py:157-160 | a matching line is among the rendered results of the line scan |
| Search.FileLinesFindsLine | main.py:155-160 | a matching line of a file is among that file's results |
| Search.ExampleMatch | main.py:159 | "import os" matches "os" |
| Search.ExampleMisses | main.py:159 | "print('hi')", "def foo():" and "    pass" do not match "os" |
| Search.ExampleRender | main.py:160 | line 1 "import os" of "a.py" renders as "a.py: Line 1: import os" |
| Search.ExampleFirstFileLines | main.py:156-159 | "import os\nprint('hi')" has the two lines, and only line 1 matches "os" |
| Search.ExampleFirstFile | main.py:155-160 | that file gives the one result "a.py: Line 1: import os" |
| Search.ExampleSecondFile | main.py:155-160 | a file that never mentions "os" gives no result |
| Search.SearchExample | main.py:153-161 | over both files the search gives just ["a.py: Line 1: import os"] |
| Text.Lower | main.py:156 | definition; no contract: `str.lower` on ASCII |
| Text.Contains | main.py:156 | definition; no contract: `needle in hay`, an occurrence at some offset |
| Text.Join | main.py:64 | definition; no contract: `sep.join(parts)` |
| Text.LowerUnchanged | main.py:119 | a text without ASCII capitals is its own lowercase form |
| Text.ContainsInLeft | main.py:156 | an occurrence in the left part is an occurrence in the concatenation |
| Text.ContainsInRight | main.py:156 | an occurrence in the right part is an occurrence in the concatenation |
| Text.MissingCharNotContained | main.py:119 | a needle with a character the text lacks does not occur in it |
| Text.UpperNeverInLower | main.py:119 | a pattern with an ASCII capital never occurs in a lowercased text |
| Text.TrimLeft | main.py:160 | `lstrip` keeps at most the input, everything cut off is whitespace, and what is left starts with a non-whitespace character |
| Text.TrimRight | main.py:160 | `rstrip` keeps at most the input, everything cut off is whitespace, and what is left ends with a non-whitespace character |
| Text.Trim | main.py:160 | the stripped line neither starts nor ends with a character of the stripped set |
| Text.TrimCuts | main.py:160 | the stripped line is the piece of the line after its leading run of stripped characters, and everything after that piece is stripped characters too |
| Text.TrimUntouched | main.py:160 | a line with no stripped character at either end is left as it is |
| Text.Split | main.py:157 | `split("\n")` gives at least one piece, and no piece holds a newline |
| Text.JoinSplit | main.py:157 | joining the pieces of a split with the separator gives the content back |
| Text.SplitJoin | main.py:64 | splitting a join of one or more newline-free parts gives the parts back |
| Text.ContainsPieceOfJoin | main.py:156 | a match in one line is a match in the joined content |
| Decimal.NatToString | main.py:160 | `str(i)` is at least one character long, all decimal digits, and starts with '0' only for 0 (no leading zeros) |
| Decimal.NatToStringRoundTrip | main.py:160 | reading the digits back gives the line number |

## Left out

- The Flask routes, request parsing and JSON responses (main.py:1-96) are not modelled, since they only pass data through. That includes the `/ingest` token estimate and `max_size_kb`, which does not reach the fetch: 50 KiB always applies.
- The call to the generation service, `send_to_gemini`, the environment variables and the logging `print`s are not modelled. They are I/O with no effect on the data.
- The GitHub API is an input value, not a network call. What `get_contents` returns for each directory, and the outcome of each file read, are fixed in the `Entry` tree, so a listing cannot change between calls.
- Exception messages are taken as given: `str(e)` is the `message` of a `Raised` read.
- An exception that escapes `fetch_repo_data` is `None`: `get_repo` raising, or listing the root raising. The Python function never returns `None`, and the routes do not catch the exception, so their `repo_data is None` branches (main.py:30-31, main.py:89-90) are dead; the model's `None` stands for the escaping exception.
- UTF-8 decoding with `errors="ignore"` is not modelled: a file's content is the already-decoded text. `Utf8.Utf8Length` counts bytes from the code points, with no surrogates and no error handling.
- Text.Lower: only ASCII letters are lowercased. Python's `str.lower` also lowercases the rest of Unicode.
- Text.Trim: the whitespace that `strip()` removes is the ASCII whitespace set, not all of Unicode's.
- Characters are Dafny `char`s, which stand for Python's code points. Slicing to 500 characters counts code points as Python does.

What the code does at the edges of the walk:

- The halt test at main.py:114 only ends the current directory call; the calling loop keeps appending its remaining entries to `structure` (`TreeProofs.HaltStopsOnlyTheDirectoryCall`).
- The per-file guard at main.py:127 keeps the budget at every step, so the size half of the test at main.py:114 never fires (`TreeProofs.CrawlWithinBudget`).
- Only the path is lowercased at main.py:119, so a pattern with a capital letter never matches (`TreeProofs.OnlyLowercasePatternsExclude`) and the empty pattern excludes every path.
- A read that raised is stored as "Error: ..." whatever the budget, uncounted and untruncated (main.py:134-135).
