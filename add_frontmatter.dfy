/**
  The batch script that puts a YAML frontmatter block in front of every
  knowledge-base document lacking one. The files are a map from path to
  text; a path missing from the map cannot be read.
 */
module AddFrontmatter {
  import opened Wrappers
  import opened Text

  const Delimiter := "---"

  /** The block, split around the title it is formatted with. */
  const BlockHead := Delimiter + "\nsource_url: https://www.sbir.org.tw/\nsource_title: "
  const BlockTail := "\nsource_date: 2026-01-01\n---\n\n"

  function Block(title: string): (b: string)
    ensures StartsWith(b, Delimiter)
  {
    assert (BlockHead + title + BlockTail)[..3] == BlockHead[..3];
    BlockHead + title + BlockTail
  }

  /** A document that, stripped, starts with "---" already has a block. */
  predicate HasFrontmatter(content: string) {
    StartsWith(Strip(content), Delimiter)
  }

  /** The title: the first line without its "# " when it is a heading,
      otherwise the file name with ".md" removed and "_" read as a space. */
  function Title(path: string, content: string): string {
    var firstLine := FirstLine(content);
    if StartsWith(firstLine, "# ") then Strip(firstLine[2..])
    else Replace(Replace(BaseName(path), ".md", ""), "_", " ")
  }

  /** `add_frontmatter` on the text of `path`: `None` when the document
      already has a block and is left alone, otherwise the new text. */
  function AddBlock(path: string, content: string): (r: Option<string>)
    ensures r.None? <==> HasFrontmatter(content)
    ensures r.Some? ==> StartsWith(r.value, Delimiter)
    ensures r.Some? ==> |content| < |r.value| && r.value[|r.value| - |content|..] == content
  {
    if HasFrontmatter(content) then None
    else
      var out := Block("SBIR " + Title(path, content)) + content;
      assert out[|out| - |content|..] == content;
      Some(out)
  }

  /** The text of a document after a run: the new text, or the old one when
      it was skipped. */
  function Apply(path: string, content: string): string {
    AddBlock(path, content).GetOr(content)
  }

  /** A text starting with "---" still does once stripped. */
  lemma StartsWithDelimiter(s: string)
    requires StartsWith(s, Delimiter)
    ensures HasFrontmatter(s)
  {
    assert !IsSpace(s[0]) && !IsSpace(s[2]);
    assert LeadingSpace(s) == 0;
    var j := |s| - TrailingSpace(s);
    assert j > 2;
    assert Strip(s) == s[0..j];
    assert Strip(s)[..3] == s[..3];
  }

  /** A run on a processed document skips it, so running twice is running
      once. */
  lemma ApplyIdempotent(path: string, content: string)
    ensures HasFrontmatter(Apply(path, content))
    ensures AddBlock(path, Apply(path, content)).None?
    ensures Apply(path, Apply(path, content)) == Apply(path, content)
  {
    if !HasFrontmatter(content) {
      StartsWithDelimiter(Apply(path, content));
    }
  }

  /** A heading line gives the title. */
  lemma HeadingTitle(path: string, heading: string, rest: string)
    requires '\n' !in heading
    ensures Title(path, "# " + heading + "\n" + rest) == Strip(heading)
  {
    var content := "# " + heading + "\n" + rest;
    var firstLine := FirstLine(content);
    assert content[..|heading| + 2] == "# " + heading;
    assert content[|heading| + 2] == '\n';
    FirstLineOf(content, |heading| + 2);
    assert firstLine[2..] == heading;
  }

  /** The first line ends at the first line break. */
  lemma {:induction false} FirstLineOf(s: string, n: nat)
    requires n < |s| && s[n] == '\n' && '\n' !in s[..n]
    ensures FirstLine(s) == s[..n]
  {
    if n > 0 {
      assert s[1..][..n - 1] == s[1..n];
      assert '\n' !in s[1..][..n - 1] by {
        forall k | 0 <= k < n - 1 ensures s[1..][k] != '\n' {
          assert s[1..][k] == s[..n][k + 1];
        }
      }
      assert s[0] == s[..n][0];
      FirstLineOf(s[1..], n - 1);
    }
  }

  // ---------------------------------------------------------------- main

  /** The number of paths whose first visit adds a block: readable, without
      a block, and not met before in the list. */
  function AddedCount(paths: seq<string>, files: map<string, string>): (n: nat)
    ensures n <= |paths|
  {
    if paths == [] then 0
    else
      var init := paths[..|paths| - 1];
      var p := paths[|paths| - 1];
      AddedCount(init, files) + (if p in files && p !in init && !HasFrontmatter(files[p]) then 1 else 0)
  }

  /** The files after the paths in `visited` have been processed. */
  function Processed(files: map<string, string>, visited: seq<string>): (r: map<string, string>)
    ensures r.Keys == files.Keys
  {
    map p | p in files :: if p in visited then Apply(p, files[p]) else files[p]
  }

  /** `main`: every path is visited in order; a visit that adds a block counts
      as added, any other as skipped, and a path met again is skipped because
      its first visit gave it a block. */
  method ProcessFiles(paths: seq<string>, files: map<string, string>)
    returns (added: nat, skipped: nat, after: map<string, string>)
    ensures added + skipped == |paths|
    ensures added == AddedCount(paths, files)
    ensures after == Processed(files, paths)
  {
    added, skipped := 0, 0;
    after := files;
    for i := 0 to |paths|
      invariant added + skipped == i
      invariant added == AddedCount(paths[..i], files)
      invariant after == Processed(files, paths[..i])
    {
      var p := paths[i];
      assert paths[..i + 1] == paths[..i] + [p];
      var r := Visit(p, after, files, paths[..i]);
      VisitCounts(files, paths[..i], p, r.Some?);
      VisitFiles(files, paths[..i], p, r);
      if r.Some? {
        after := after[p := r.value];
        added := added + 1;
      } else {
        skipped := skipped + 1;
      }
    }
    assert paths[..|paths|] == paths;
  }

  /** The first visit of a readable file without a block adds one. */
  predicate Adds(files: map<string, string>, visited: seq<string>, p: string) {
    p in files && p !in visited && !HasFrontmatter(files[p])
  }

  /** One visit of `p` after those in `visited`: the new text when a block
      is added to it, `None` when it is skipped. */
  method Visit(p: string, after: map<string, string>, files: map<string, string>, ghost visited: seq<string>)
    returns (r: Option<string>)
    requires after == Processed(files, visited)
    ensures r.Some? <==> Adds(files, visited, p)
    ensures r.Some? ==> r.value == Apply(p, files[p])
  {
    if p !in after {
      return None;
    }
    ProcessedAt(files, visited, p);
    r := AddBlock(p, after[p]);
    if p in visited {
      ApplyIdempotent(p, files[p]);
    }
  }

  /** A visit that adds a block adds one to the count. */
  lemma VisitCounts(files: map<string, string>, visited: seq<string>, p: string, adds: bool)
    requires adds <==> Adds(files, visited, p)
    ensures AddedCount(visited + [p], files) == AddedCount(visited, files) + (if adds then 1 else 0)
  {
    assert (visited + [p])[..|visited|] == visited;
  }

  /** A visit that adds a block replaces the file's text; one that skips
      leaves the files as they were. */
  lemma VisitFiles(files: map<string, string>, visited: seq<string>, p: string, r: Option<string>)
    requires r.Some? <==> Adds(files, visited, p)
    requires r.Some? ==> r.value == Apply(p, files[p])
    ensures Processed(files, visited + [p])
              == if r.Some? then Processed(files, visited)[p := r.value] else Processed(files, visited)
  {
    if p in files && p in visited {
      ApplyIdempotent(p, files[p]);
    }
  }

  /** A file holds its processed text once visited, its old text before. */
  lemma ProcessedAt(files: map<string, string>, visited: seq<string>, p: string)
    requires p in files
    ensures p in visited ==> Processed(files, visited)[p] == Apply(p, files[p])
    ensures p !in visited ==> Processed(files, visited)[p] == files[p]
  {
  }
}
