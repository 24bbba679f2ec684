/**
 * `format_for_gemini`: the flat text document built from a `RepoData` for
 * the generation service, and the structure listing that `/analyze_structure`
 * returns.
 */
module Format {
  import opened Text
  import opened Dict
  import opened RepoTree

  /** `"\n".join(structure)`, one path per line, as `format_for_gemini` and `/analyze_structure` build it. */
  function Listing(structure: seq<string>): string {
    Join("\n", structure)
  }

  /** The block one file contributes: `f"--- {path} ---\n{content}\n"`. */
  function Block(path: string, content: string): string {
    "--- " + path + " ---\n" + content + "\n"
  }

  /** The blocks of the files, in insertion order. */
  function Blocks(files: Dict): string
    decreases |files|
  {
    if files == [] then ""
    else Blocks(files[..|files| - 1]) + Block(files[|files| - 1].0, files[|files| - 1].1)
  }

  const Heading: string := "Directory Structure:\n"
  const FilesHeading: string := "File Contents:\n"

  function Document(d: RepoData): string {
    Heading + Listing(d.structure) + "\n\n" + FilesHeading + Blocks(d.files)
  }

  /** `format_for_gemini(repo_data)`, with its loop over `files.items()`. */
  method FormatForGemini(d: RepoData) returns (output: string)
    ensures output == Document(d)
  {
    output := Heading + Listing(d.structure) + "\n\n";
    output := output + FilesHeading;
    for i := 0 to |d.files|
      invariant output == Heading + Listing(d.structure) + "\n\n" + FilesHeading + Blocks(d.files[..i])
    {
      var (filePath, content) := d.files[i];
      assert d.files[..i + 1][..i] == d.files[..i];
      output := output + "--- " + filePath + " ---\n" + content + "\n";
    }
    assert d.files[..|d.files|] == d.files;
  }

  /**
   * Splitting the listing on "\n" gives the structure back, when there is at
   * least one path and no path holds a newline.
   */
  lemma ListingRoundTrip(structure: seq<string>)
    requires |structure| >= 1
    requires forall i :: 0 <= i < |structure| ==> '\n' !in structure[i]
    ensures Split(Listing(structure), '\n') == structure
  {
    SplitJoin(structure, '\n');
  }

  /** The empty structure is the one case that does not come back: it reads as one empty line. */
  lemma EmptyListingReadsAsOneLine()
    ensures Split(Listing([]), '\n') == [""]
  {
  }

  /** The last step of `Blocks`: the last file's block follows the blocks of the files before it. */
  lemma BlocksLast(files: Dict)
    requires files != []
    ensures var m := |files| - 1;
      Blocks(files) == Blocks(files[..m]) + Block(files[m].0, files[m].1)
  {
  }

  /** The blocks of two runs of files are the blocks of the first followed by those of the second. */
  lemma {:induction false} BlocksConcat(f: Dict, g: Dict)
    ensures Blocks(f + g) == Blocks(f) + Blocks(g)
    decreases |g|
  {
    if g == [] {
      assert f + g == f;
    } else {
      var fg := f + g;
      var init := g[..|g| - 1];
      var last := g[|g| - 1];
      assert fg[..|fg| - 1] == f + init;
      assert fg[|fg| - 1] == last;
      BlocksLast(fg);
      BlocksLast(g);
      BlocksConcat(f, init);
      ConcatAssoc(Blocks(f), Blocks(init), Block(last.0, last.1));
    }
  }

  /**
   * The document lists the structure, then the blocks of the files before
   * file `i`, then file `i`'s own block, then the blocks of the files after it.
   */
  lemma DocumentLayout(d: RepoData, i: nat)
    requires i < |d.files|
    ensures Document(d) == Heading + Listing(d.structure) + "\n\n" + FilesHeading
      + Blocks(d.files[..i]) + Block(d.files[i].0, d.files[i].1) + Blocks(d.files[i + 1..])
  {
    var f := d.files;
    assert f == f[..i] + [f[i]] + f[i + 1..];
    BlocksConcat(f[..i] + [f[i]], f[i + 1..]);
    BlocksConcat(f[..i], [f[i]]);
    assert Blocks([f[i]]) == Block(f[i].0, f[i].1) by {
      assert [f[i]][..0] == [];
    }
  }
}
