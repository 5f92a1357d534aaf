/**
  The semantic chunker without its embedding model: front-matter removal,
  sentence splitting, boundary selection from the similarities of adjacent
  sentences, and the assembly of sentences into size-bounded, numbered chunks.

  The embedding model enters only through the similarity of two adjacent
  sentences and through the percentile of the similarity list; both are
  parameters here.

  During assembly a chunk text is represented by its lines: the text is
  `Join(lines, "\n")`. Every line is a sentence, which is at least ten
  characters long and holds no line break, so the string operations of the
  assembly (`a + "\n" + b`, `text.split('\n')`, the truth value of a text)
  are the list operations `a + b`, `lines` and `lines != []`
  (`LinesAsText` states this).
 */
module Chunker {
  import opened Wrappers
  import opened Text
  import opened Seqs

  const Delimiter := "---"
  const MinSentenceLength := 10
  const MinChunkSize := 50
  const MaxChunkSize := 800
  const ThresholdPercentile := 25
  const PreviewLength := 50

  // ---------------------------------------------------------------- extract_frontmatter

  /** The front matter, kept as the unparsed text between the two `---`
      markers (its YAML parsing is not modelled), and the remaining body. */
  datatype Frontmatter = Frontmatter(header: Option<string>, body: string)

  /** `extract_frontmatter`: when the stripped content starts with `---` and
      `content.split('---', 2)` has three parts, the header is the middle part
      and the body is the stripped third part; otherwise the content is
      returned as it is. */
  function ExtractFrontmatter(content: string): (r: Frontmatter)
    ensures r.header.None? ==> r.body == content
  {
    if !StartsWith(Strip(content), Delimiter) then Frontmatter(None, content)
    else
      var parts := SplitOn(content, Delimiter, 2);
      if |parts| >= 3 then Frontmatter(Some(parts[1]), Strip(parts[2]))
      else Frontmatter(None, content)
  }

  /** Front matter is found exactly when the stripped content starts with
      `---` and the content holds two markers that do not overlap. */
  lemma FrontmatterFound(content: string)
    ensures ExtractFrontmatter(content).header.Some? <==>
              StartsWith(Strip(content), Delimiter) && OccursTwice(content, Delimiter)
  {
    SplitOnTwice(content, Delimiter);
  }

  /** The content is the part before the first marker, the marker, the
      header, the second marker and the rest; neither the part before nor the
      header holds a marker, and the body is the stripped rest. */
  lemma FrontmatterParts(content: string) returns (before: string, rest: string)
    requires ExtractFrontmatter(content).header.Some?
    ensures content == before + Delimiter + ExtractFrontmatter(content).header.value + Delimiter + rest
    ensures !Contains(before, Delimiter)
    ensures !Contains(ExtractFrontmatter(content).header.value, Delimiter)
    ensures ExtractFrontmatter(content).body == Strip(rest)
  {
    var parts := SplitOn(content, Delimiter, 2);
    SplitOnJoin(content, Delimiter, 2);
    SplitOnPieces(content, Delimiter, 2);
    JoinThree(parts, Delimiter);
    before, rest := parts[0], parts[2];
  }

  // ---------------------------------------------------------------- split_chinese_sentences

  /** The characters `split_chinese_sentences` splits at. */
  predicate IsSentenceEnd(c: char) {
    c == '。' || c == '！' || c == '？' || c == '!' || c == '?' || c == '\n'
  }

  /** The text between sentence ends, splitting at every single end
      character. The source splits at runs of end characters; the extra pieces
      this makes are empty and are dropped by the length filter anyway. */
  function Pieces(s: string): (r: seq<string>)
    ensures |r| >= 1
    ensures forall k :: 0 <= k < |r| ==> forall c :: c in r[k] ==> !IsSentenceEnd(c)
  {
    if s == [] then [[]]
    else if IsSentenceEnd(s[0]) then [[]] + Pieces(s[1..])
    else
      var rest := Pieces(s[1..]);
      assert forall c :: c in [s[0]] + rest[0] ==> c == s[0] || c in rest[0];
      [[s[0]] + rest[0]] + rest[1..]
  }

  /** A text whose only sentence ends are line breaks splits into its lines. */
  lemma {:induction false} PiecesOfLines(s: string)
    requires forall k :: 0 <= k < |s| ==> s[k] == '\n' || !IsSentenceEnd(s[k])
    ensures Pieces(s) == Split(s, '\n')
  {
    if s != [] {
      PiecesOfLines(s[1..]);
    }
  }

  /** The filter loop: strip every piece and keep those of ten or more characters. */
  function KeepSentences(pieces: seq<string>): (r: seq<string>)
    ensures forall k :: 0 <= k < |r| ==> |r[k]| >= MinSentenceLength
    ensures forall k :: 0 <= k < |r| ==> exists j :: 0 <= j < |pieces| && r[k] == Strip(pieces[j])
  {
    if pieces == [] then []
    else
      var init := pieces[..|pieces| - 1];
      var s := Strip(pieces[|pieces| - 1]);
      assert forall j :: 0 <= j < |init| ==> init[j] == pieces[j];
      KeepSentences(init) + (if |s| >= MinSentenceLength then [s] else [])
  }

  function Sentences(text: string): seq<string> {
    KeepSentences(Pieces(text))
  }

  /** Every sentence is stripped, at least ten characters long and free of
      sentence ends; so it begins and ends with a character that is not white
      space and holds no line break. */
  lemma SentencesShape(text: string)
    ensures forall k :: 0 <= k < |Sentences(text)| ==> CleanLine(Sentences(text)[k])
  {
    var pieces := Pieces(text);
    var r := Sentences(text);
    forall k | 0 <= k < |r| ensures CleanLine(r[k]) {
      var j :| 0 <= j < |pieces| && r[k] == Strip(pieces[j]);
      StripPiece(pieces[j]);
    }
  }

  /** A piece stripped to ten or more characters is a clean line. */
  lemma StripPiece(piece: string)
    requires forall c :: c in piece ==> !IsSentenceEnd(c)
    requires |Strip(piece)| >= MinSentenceLength
    ensures CleanLine(Strip(piece))
  {
    var a, b := StripIsSlice(piece);
    var line := Strip(piece);
    forall c | c in line ensures !IsSentenceEnd(c) {
      var m :| 0 <= m < |line| && line[m] == c;
      assert c == piece[a + m];
    }
  }

  /** A sentence as `split_chinese_sentences` returns it. */
  predicate CleanLine(s: string) {
    && |s| >= MinSentenceLength
    && !IsSpace(s[0]) && !IsSpace(s[|s| - 1])
    && forall c :: c in s ==> !IsSentenceEnd(c)
  }

  /** `split_chinese_sentences`. The heading rule of the source only puts a
      `。` right before a line end, which adds an empty piece at most. */
  method SplitSentences(text: string) returns (result: seq<string>)
    ensures result == Sentences(text)
  {
    var pieces := Pieces(text);
    result := [];
    for i := 0 to |pieces|
      invariant result == KeepSentences(pieces[..i])
    {
      assert pieces[..i + 1][..i] == pieces[..i];
      var s := Strip(pieces[i]);
      if |s| >= MinSentenceLength {
        result := result + [s];
      }
    }
    assert pieces[..|pieces|] == pieces;
  }

  // ---------------------------------------------------------------- find_semantic_boundaries

  /** The similarity of every two adjacent sentences, in order. */
  function AdjacentSimilarities(sentences: seq<string>, similarity: (string, string) -> real): seq<real>
  {
    if |sentences| <= 1 then []
    else seq(|sentences| - 1, i requires 0 <= i < |sentences| - 1 => similarity(sentences[i], sentences[i + 1]))
  }

  /** `find_semantic_boundaries`: a sentence index starts a new chunk when its
      similarity to the sentence before lies below the given percentile of
      all adjacent similarities. */
  method FindBoundaries(sentences: seq<string>, similarity: (string, string) -> real,
                        percentile: (seq<real>, nat) -> real, thresholdPercentile: nat)
    returns (boundaries: seq<nat>)
    ensures |sentences| <= 1 ==> boundaries == []
    ensures forall k :: k in boundaries <==>
              1 <= k < |sentences|
              && similarity(sentences[k - 1], sentences[k])
                 < percentile(AdjacentSimilarities(sentences, similarity), thresholdPercentile)
    ensures ValidBoundaries(boundaries, |sentences|)
    ensures boundaries == Boundaries(sentences, similarity, percentile, thresholdPercentile)
  {
    if |sentences| <= 1 {
      return [];
    }
    var similarities := [];
    for i := 0 to |sentences| - 1
      invariant |similarities| == i
      invariant forall m :: 0 <= m < i ==> similarities[m] == similarity(sentences[m], sentences[m + 1])
    {
      similarities := similarities + [similarity(sentences[i], sentences[i + 1])];
    }
    assert similarities == AdjacentSimilarities(sentences, similarity);
    var threshold := percentile(similarities, thresholdPercentile);
    boundaries := SelectBoundaries(similarities, threshold);
  }

  predicate Increasing(xs: seq<nat>) {
    forall a, b :: 0 <= a < b < |xs| ==> xs[a] < xs[b]
  }

  /** The boundaries selected from `similarities`: `i + 1` for every
      similarity `i` below the threshold, in increasing order. */
  function Selected(similarities: seq<real>, threshold: real): (r: seq<nat>)
    ensures forall k :: k in r <==> 1 <= k <= |similarities| && similarities[k - 1] < threshold
    ensures ValidBoundaries(r, |similarities| + 1)
  {
    if similarities == [] then []
    else
      var n := |similarities|;
      var before := Selected(similarities[..n - 1], threshold);
      if similarities[n - 1] < threshold then before + [n] else before
  }

  /** The boundaries of `find_semantic_boundaries`: none for at most one
      sentence, else those selected below the percentile of the adjacent
      similarities. */
  function Boundaries(sentences: seq<string>, similarity: (string, string) -> real,
                      percentile: (seq<real>, nat) -> real, thresholdPercentile: nat): (r: seq<nat>)
    ensures ValidBoundaries(r, |sentences|)
  {
    if |sentences| <= 1 then []
    else
      var similarities := AdjacentSimilarities(sentences, similarity);
      Selected(similarities, percentile(similarities, thresholdPercentile))
  }

  /** The selection loop: `i + 1` for every similarity `i` below the threshold. */
  method SelectBoundaries(similarities: seq<real>, threshold: real) returns (boundaries: seq<nat>)
    ensures forall k :: k in boundaries <==> 1 <= k <= |similarities| && similarities[k - 1] < threshold
    ensures boundaries == Selected(similarities, threshold)
  {
    boundaries := [];
    for i := 0 to |similarities|
      invariant boundaries == Selected(similarities[..i], threshold)
    {
      assert similarities[..i + 1][..i] == similarities[..i];
      if similarities[i] < threshold {
        boundaries := boundaries + [i + 1];
      }
    }
    assert similarities[..|similarities|] == similarities;
  }

  // ---------------------------------------------------------------- building the raw chunks

  /** Boundaries as `find_semantic_boundaries` returns them for `n` sentences. */
  predicate ValidBoundaries(boundaries: seq<nat>, n: nat) {
    Increasing(boundaries) && forall k :: 0 <= k < |boundaries| ==> 1 <= boundaries[k] < n
  }

  /** The `i`-th cut: 0, then the boundaries, then `n`. */
  function Cut(boundaries: seq<nat>, n: nat, i: nat): nat
    requires i <= |boundaries| + 1
  {
    if i == 0 then 0 else if i <= |boundaries| then boundaries[i - 1] else n
  }

  lemma CutsIncrease(boundaries: seq<nat>, n: nat, i: nat)
    requires n >= 1 && ValidBoundaries(boundaries, n) && i <= |boundaries|
    ensures Cut(boundaries, n, i) < Cut(boundaries, n, i + 1) <= n
  {
    if 0 < i < |boundaries| {
      assert boundaries[i - 1] < boundaries[i];
    }
  }

  /** The raw chunk from cut `i` to cut `i + 1`. */
  function Segment(sentences: seq<string>, boundaries: seq<nat>, i: nat): (r: seq<string>)
    requires |sentences| >= 1 && ValidBoundaries(boundaries, |sentences|) && i <= |boundaries|
    ensures r != [] && (i > 0 ==> r[0] == sentences[boundaries[i - 1]])
  {
    CutsIncrease(boundaries, |sentences|, i);
    sentences[Cut(boundaries, |sentences|, i)..Cut(boundaries, |sentences|, i + 1)]
  }

  /** The raw chunks: the sentences from each cut to the next. */
  function Segments(sentences: seq<string>, boundaries: seq<nat>): seq<seq<string>>
    requires |sentences| >= 1 && ValidBoundaries(boundaries, |sentences|)
  {
    seq(|boundaries| + 1, i requires 0 <= i <= |boundaries| => Segment(sentences, boundaries, i))
  }

  /** Step 4: the sentences from each cut to the next form one raw chunk. */
  method RawChunks(sentences: seq<string>, boundaries: seq<nat>) returns (raw: seq<seq<string>>)
    requires |sentences| >= 1 && ValidBoundaries(boundaries, |sentences|)
    ensures raw == Segments(sentences, boundaries)
    ensures |raw| == |boundaries| + 1
    ensures forall i :: 0 <= i < |raw| ==> raw[i] != []
    ensures forall i :: 0 < i < |raw| ==> raw[i][0] == sentences[boundaries[i - 1]]
    ensures Flatten(raw) == sentences
  {
    var n := |sentences|;
    raw := [];
    for i := 0 to |boundaries| + 1
      invariant |raw| == i
      invariant Flatten(raw) == sentences[..Cut(boundaries, n, i)]
      invariant forall m :: 0 <= m < i ==> raw[m] == Segment(sentences, boundaries, m)
    {
      CutsIncrease(boundaries, n, i);
      var start := Cut(boundaries, n, i);
      var end := Cut(boundaries, n, i + 1);
      FlattenSingle(raw, sentences[start..end]);
      assert sentences[..start] + sentences[start..end] == sentences[..end];
      assert sentences[start..end] == Segment(sentences, boundaries, i);
      raw := raw + [sentences[start..end]];
    }
    assert sentences[..n] == sentences;
    assert forall m :: 0 <= m < |raw| ==> raw[m] == Segments(sentences, boundaries)[m];
    assert forall m :: 0 <= m < |raw| ==> raw[m] != [];
  }

  // ---------------------------------------------------------------- merging and force-splitting

  /** The length of the text of a chunk given by its lines. */
  function Size(lines: seq<string>): nat {
    |Join(lines, "\n")|
  }

  lemma SizeAppend(a: seq<string>, b: seq<string>)
    requires a != [] && b != []
    ensures Size(a + b) == Size(a) + 1 + Size(b)
  {
    JoinAppend(a, b, "\n");
  }

  /** A chunk is a single line, or fits `maxSize` but for one joining line
      break, or is no longer than `minSize`. */
  predicate Sized(c: seq<string>, minSize: int, maxSize: int) {
    |c| == 1 || Size(c) <= maxSize + 1 || Size(c) <= minSize
  }

  /** A piece of the force-split: one line, or within `maxSize` but for one
      joining line break. */
  predicate PieceFits(c: seq<string>, maxSize: int) {
    |c| == 1 || Size(c) <= maxSize + 1
  }

  /** The state of the force-split loop after the lines `lines`: the
      finished pieces and the piece being collected. A line joins the piece
      being collected while the collected length plus the line's length stays
      within `maxSize`; otherwise the collected piece is finished and the line
      starts the next one. */
  function SplitState(lines: seq<string>, maxSize: int): (seq<seq<string>>, seq<string>)
  {
    if lines == [] then ([], [])
    else
      var (pieces, current) := SplitState(lines[..|lines| - 1], maxSize);
      var line := lines[|lines| - 1];
      if Size(current) + |line| > maxSize then
        ((if current != [] then pieces + [current] else pieces), [line])
      else (pieces, current + [line])
  }

  /** The force-split of `lines`: the finished pieces and the last one collected. */
  function Greedy(lines: seq<string>, maxSize: int): seq<seq<string>>
  {
    var (pieces, current) := SplitState(lines, maxSize);
    if current != [] then pieces + [current] else pieces
  }

  /** Every line of the piece after the first was added because the
      collected length plus its own stayed within `maxSize`. */
  predicate GreedyPiece(piece: seq<string>, maxSize: int) {
    forall j :: 0 < j < |piece| ==> Size(piece[..j]) + |piece[j]| <= maxSize
  }

  /** What the force-split loop keeps: the pieces and the collected piece are
      the lines read so far, every piece was collected greedily, and each
      piece ended because the next line did not fit. */
  predicate SplitInv(lines: seq<string>, pieces: seq<seq<string>>, current: seq<string>, maxSize: int) {
    && Flatten(pieces) + current == lines
    && (lines != [] ==> current != [])
    && (forall k :: 0 <= k < |pieces| ==> pieces[k] != [] && GreedyPiece(pieces[k], maxSize))
    && GreedyPiece(current, maxSize)
    && (forall k :: 0 <= k < |pieces| - 1 ==> Size(pieces[k]) + |pieces[k + 1][0]| > maxSize)
    && (pieces != [] && current != [] ==> Size(pieces[|pieces| - 1]) + |current[0]| > maxSize)
  }

  lemma {:induction false} SplitStateInv(lines: seq<string>, maxSize: int)
    ensures SplitInv(lines, SplitState(lines, maxSize).0, SplitState(lines, maxSize).1, maxSize)
  {
    if lines != [] {
      var init := lines[..|lines| - 1];
      SplitStateInv(init, maxSize);
      assert lines == init + [lines[|lines| - 1]];
      SplitStepInv(init, lines[|lines| - 1], SplitState(init, maxSize).0, SplitState(init, maxSize).1, maxSize);
    }
  }

  /** One line more keeps the force-split invariant. */
  lemma SplitStepInv(lines: seq<string>, line: string, pieces: seq<seq<string>>, current: seq<string>, maxSize: int)
    requires SplitInv(lines, pieces, current, maxSize)
    ensures Size(current) + |line| > maxSize ==>
              SplitInv(lines + [line], if current != [] then pieces + [current] else pieces, [line], maxSize)
    ensures Size(current) + |line| <= maxSize ==>
              SplitInv(lines + [line], pieces, current + [line], maxSize)
  {
    if Size(current) + |line| > maxSize {
      SplitStartInv(lines, line, pieces, current, maxSize);
    } else {
      SplitAddInv(lines, line, pieces, current, maxSize);
    }
  }

  /** A line that does not fit finishes the collected piece and starts the next. */
  lemma SplitStartInv(lines: seq<string>, line: string, pieces: seq<seq<string>>, current: seq<string>, maxSize: int)
    requires SplitInv(lines, pieces, current, maxSize) && Size(current) + |line| > maxSize
    ensures SplitInv(lines + [line], if current != [] then pieces + [current] else pieces, [line], maxSize)
  {
    if current != [] {
      SplitFinishInv(lines, line, pieces, current, maxSize);
    } else if pieces != [] {
      FlattenNonEmpty(pieces);
    }
  }

  lemma SplitFinishInv(lines: seq<string>, line: string, pieces: seq<seq<string>>, current: seq<string>, maxSize: int)
    requires SplitInv(lines, pieces, current, maxSize) && current != []
    requires Size(current) + |line| > maxSize
    ensures SplitInv(lines + [line], pieces + [current], [line], maxSize)
  {
    FlattenSingle(pieces, current);
    var ps := pieces + [current];
    forall k | 0 <= k < |ps| ensures ps[k] != [] && GreedyPiece(ps[k], maxSize) {
      if k < |pieces| {
        assert ps[k] == pieces[k];
      }
    }
    forall k | 0 <= k < |ps| - 1 ensures Size(ps[k]) + |ps[k + 1][0]| > maxSize {
      assert ps[k] == pieces[k];
      if k < |pieces| - 1 {
        assert ps[k + 1] == pieces[k + 1];
      }
    }
  }

  /** A line that fits joins the collected piece. */
  lemma SplitAddInv(lines: seq<string>, line: string, pieces: seq<seq<string>>, current: seq<string>, maxSize: int)
    requires SplitInv(lines, pieces, current, maxSize) && Size(current) + |line| <= maxSize
    ensures SplitInv(lines + [line], pieces, current + [line], maxSize)
  {
    var c := current + [line];
    forall j | 0 < j < |c| ensures Size(c[..j]) + |c[j]| <= maxSize {
      if j < |current| {
        assert c[..j] == current[..j] && c[j] == current[j];
      } else {
        assert c[..j] == current;
      }
    }
    if current == [] {
      assert pieces == [] by {
        if pieces != [] {
          FlattenNonEmpty(pieces);
        }
      }
    } else {
      assert c[0] == current[0];
    }
  }

  /** A greedily collected piece is one line, or within `maxSize` but for
      the one joining line break the test does not count. */
  lemma GreedyPieceFits(piece: seq<string>, maxSize: int)
    requires piece != [] && GreedyPiece(piece, maxSize)
    ensures PieceFits(piece, maxSize)
  {
    if |piece| > 1 {
      var n := |piece| - 1;
      assert piece == piece[..n] + [piece[n]];
      SizeAppend(piece[..n], [piece[n]]);
      assert Join([piece[n]], "\n") == piece[n];
    }
  }

  /** The force-split covers the lines in order with non-empty pieces; each
      piece takes lines while they fit (`len(current) + len(sentence) <=
      max_chunk_size`) and ends where the next line does not fit. */
  lemma GreedyRule(lines: seq<string>, maxSize: int)
    ensures var pieces := Greedy(lines, maxSize);
            && (lines != [] ==> pieces != [])
            && Flatten(pieces) == lines
            && (forall k :: 0 <= k < |pieces| ==> pieces[k] != [] && PieceFits(pieces[k], maxSize))
            && (forall k, j :: 0 <= k < |pieces| && 0 < j < |pieces[k]| ==>
                  Size(pieces[k][..j]) + |pieces[k][j]| <= maxSize)
            && (forall k :: 0 <= k < |pieces| - 1 ==> Size(pieces[k]) + |pieces[k + 1][0]| > maxSize)
  {
    var (ps, current) := SplitState(lines, maxSize);
    SplitStateInv(lines, maxSize);
    var pieces := Greedy(lines, maxSize);
    if current != [] {
      FlattenSingle(ps, current);
      assert forall k :: 0 <= k < |ps| ==> pieces[k] == ps[k];
    }
    forall k | 0 <= k < |pieces| ensures pieces[k] != [] && PieceFits(pieces[k], maxSize) {
      GreedyPieceFits(pieces[k], maxSize);
    }
  }

  /** The force-split of a chunk longer than `maxSize` (chunker.py's inner
      loop): the pieces are `Greedy(lines, maxSize)`. The test does not count
      the joining line break, so a piece of several lines can be one
      character too long; only a piece made of one over-long line is longer
      than that. */
  method ForceSplit(lines: seq<string>, maxSize: int) returns (pieces: seq<seq<string>>)
    requires lines != []
    ensures pieces == Greedy(lines, maxSize)
    ensures pieces != [] && Flatten(pieces) == lines
    ensures forall k :: 0 <= k < |pieces| ==> pieces[k] != [] && PieceFits(pieces[k], maxSize)
    ensures forall k, j :: 0 <= k < |pieces| && 0 < j < |pieces[k]| ==>
              Size(pieces[k][..j]) + |pieces[k][j]| <= maxSize
    ensures forall k :: 0 <= k < |pieces| - 1 ==> Size(pieces[k]) + |pieces[k + 1][0]| > maxSize
  {
    pieces := [];
    var current: seq<string> := [];
    for j := 0 to |lines|
      invariant (pieces, current) == SplitState(lines[..j], maxSize)
    {
      var sentence := lines[j];
      assert lines[..j + 1][..j] == lines[..j];
      if Size(current) + |sentence| > maxSize {
        if current != [] {
          pieces := pieces + [current];
        }
        current := [sentence];
      } else if current != [] {
        current := current + [sentence];
      } else {
        current := [sentence];
        assert current == [] + [sentence];
      }
    }
    assert lines[..|lines|] == lines;
    if current != [] {
      pieces := pieces + [current];
    }
    GreedyRule(lines, maxSize);
  }

  /** What holds between two raw chunks of the merge loop: the emitted
      chunks are non-empty and sized, and the buffer is no longer than
      `minSize`. */
  predicate MergeState(merged: seq<seq<string>>, buffer: seq<string>, minSize: int, maxSize: int) {
    && (forall k :: 0 <= k < |merged| ==> merged[k] != [] && Sized(merged[k], minSize, maxSize))
    && (buffer != [] ==> Size(buffer) <= minSize)
  }

  /** What one chunk text becomes when it is emitted: itself when it fits
      `maxSize`, its force-split otherwise. */
  function Emit(chunk: seq<string>, maxSize: int): seq<seq<string>> {
    if Size(chunk) > maxSize then Greedy(chunk, maxSize) else [chunk]
  }

  /** One pass of the merge loop over the raw chunk `chunk`, from the chunks
      emitted so far and the buffer: a pair shorter than `minSize` stays in
      the buffer; otherwise a buffer that reached `minSize` is emitted on its
      own before the chunk, and a shorter one is put in front of the chunk. */
  function Step(done: seq<seq<string>>, buffer: seq<string>, chunk: seq<string>, minSize: int, maxSize: int)
    : (seq<seq<string>>, seq<string>)
  {
    if Size(buffer) + Size(chunk) < minSize then (done, buffer + chunk)
    else if buffer != [] && Size(buffer) >= minSize then (done + [buffer] + Emit(chunk, maxSize), [])
    else (done + Emit(buffer + chunk, maxSize), [])
  }

  /** The emitted chunks and the buffer after the merge loop has read `raw`. */
  function MergeLoop(raw: seq<seq<string>>, minSize: int, maxSize: int): (seq<seq<string>>, seq<string>)
  {
    if raw == [] then ([], [])
    else
      var (done, buffer) := MergeLoop(raw[..|raw| - 1], minSize, maxSize);
      Step(done, buffer, raw[|raw| - 1], minSize, maxSize)
  }

  /** After the loop: a buffer shorter than `minSize` joins the last chunk,
      if there is one; any other buffer becomes a chunk of its own. */
  function Flush(done: seq<seq<string>>, buffer: seq<string>, minSize: int): seq<seq<string>> {
    if buffer == [] then done
    else if done != [] && Size(buffer) < minSize then done[..|done| - 1] + [done[|done| - 1] + buffer]
    else done + [buffer]
  }

  /** Step 5 as a whole: the merge loop, then the flush of its buffer. */
  function Merge(raw: seq<seq<string>>, minSize: int, maxSize: int): seq<seq<string>> {
    var (done, buffer) := MergeLoop(raw, minSize, maxSize);
    Flush(done, buffer, minSize)
  }

  /** Step 5: raw chunks shorter than `minSize` are gathered in a buffer; a
      buffer that reaches `minSize` stands alone, a shorter one is put in
      front of the next chunk; chunks longer than `maxSize` are force-split;
      a trailing short buffer goes to the end of the last chunk. */
  method MergeChunks(raw: seq<seq<string>>, minSize: int, maxSize: int)
    returns (merged: seq<seq<string>>, ghost loopDone: seq<seq<string>>, ghost loopBuffer: seq<string>)
    requires forall i :: 0 <= i < |raw| ==> raw[i] != []
    ensures Flatten(merged) == Flatten(raw)
    ensures raw != [] ==> merged != []
    ensures forall k :: 0 <= k < |merged| ==> merged[k] != []
    ensures forall k :: 0 <= k < |merged| - 1 ==> Sized(merged[k], minSize, maxSize)
    ensures merged != [] ==> LastSized(merged[|merged| - 1], minSize, maxSize)
    // the chunks and the buffer the loop leaves, and how the buffer is flushed
    ensures (loopDone, loopBuffer) == MergeLoop(raw, minSize, maxSize)
    ensures MergeState(loopDone, loopBuffer, minSize, maxSize) && Flatten(loopDone) + loopBuffer == Flatten(raw)
    ensures merged == Flush(loopDone, loopBuffer, minSize) == Merge(raw, minSize, maxSize)
  {
    var done: seq<seq<string>> := [];
    var buffer: seq<string> := [];
    for i := 0 to |raw|
      invariant (done, buffer) == MergeLoop(raw[..i], minSize, maxSize)
      invariant Flatten(done) + buffer == Flatten(raw[..i])
      invariant i > 0 ==> done != [] || buffer != []
      invariant MergeState(done, buffer, minSize, maxSize)
    {
      assert raw[..i + 1] == raw[..i] + [raw[i]];
      assert raw[..i + 1][..i] == raw[..i];
      FlattenSingle(raw[..i], raw[i]);
      done, buffer := MergeStep(done, buffer, raw[i], minSize, maxSize);
    }
    assert raw[..|raw|] == raw;
    merged := FlushBuffer(done, buffer, minSize, maxSize);
    loopDone, loopBuffer := done, buffer;
  }

  /** The last chunk is sized, or it is a sized chunk followed by a trailing
      buffer shorter than `minSize`. */
  ghost predicate LastSized(last: seq<string>, minSize: int, maxSize: int) {
    || Sized(last, minSize, maxSize)
    || exists n :: 0 < n < |last| && Sized(last[..n], minSize, maxSize) && Size(last[n..]) < minSize
  }

  /** One pass of the merge loop over the raw chunk `chunk`. */
  method MergeStep(merged: seq<seq<string>>, buffer: seq<string>, chunk: seq<string>, minSize: int, maxSize: int)
    returns (merged': seq<seq<string>>, buffer': seq<string>)
    requires chunk != [] && MergeState(merged, buffer, minSize, maxSize)
    ensures MergeState(merged', buffer', minSize, maxSize)
    ensures Flatten(merged') + buffer' == Flatten(merged) + buffer + chunk
    ensures merged' != [] || buffer' != []
    ensures (merged', buffer') == Step(merged, buffer, chunk, minSize, maxSize)
  {
    if Size(buffer) + Size(chunk) < minSize {
      BufferStaysShort(merged, buffer, chunk, minSize, maxSize);
      merged', buffer' := merged, buffer + chunk;
    } else {
      merged' := EmitWithBuffer(merged, buffer, chunk, minSize, maxSize);
      buffer' := [];
      assert Flatten(merged') + buffer' == Flatten(merged');
    }
  }

  /** A buffer and a chunk that together stay below `minSize` form a buffer
      no longer than `minSize`. */
  lemma BufferStaysShort(merged: seq<seq<string>>, buffer: seq<string>, chunk: seq<string>, minSize: int, maxSize: int)
    requires chunk != [] && MergeState(merged, buffer, minSize, maxSize)
    requires Size(buffer) + Size(chunk) < minSize
    ensures MergeState(merged, buffer + chunk, minSize, maxSize)
  {
    if buffer != [] {
      SizeAppend(buffer, chunk);
    } else {
      assert buffer + chunk == chunk;
    }
  }

  /** The emitting half of a merge step: the buffer on its own when it
      reached `minSize`, else in front of the chunk. */
  method EmitWithBuffer(merged: seq<seq<string>>, buffer: seq<string>, chunk: seq<string>, minSize: int, maxSize: int)
    returns (merged': seq<seq<string>>)
    requires chunk != [] && MergeState(merged, buffer, minSize, maxSize)
    ensures MergeState(merged', [], minSize, maxSize)
    ensures Flatten(merged') == Flatten(merged) + buffer + chunk
    ensures Size(buffer) + Size(chunk) >= minSize ==> (merged', []) == Step(merged, buffer, chunk, minSize, maxSize)
  {
    if buffer != [] && Size(buffer) >= minSize {
      FlattenSingle(merged, buffer);
      merged' := EmitChunk(merged + [buffer], chunk, minSize, maxSize);
    } else {
      merged' := EmitChunk(merged, buffer + chunk, minSize, maxSize);
    }
  }

  /** Emitting one chunk: as it is, or force-split when longer than `maxSize`. */
  method EmitChunk(merged: seq<seq<string>>, chunk: seq<string>, minSize: int, maxSize: int)
    returns (merged': seq<seq<string>>)
    requires chunk != [] && MergeState(merged, [], minSize, maxSize)
    ensures MergeState(merged', [], minSize, maxSize) && merged' != []
    ensures Flatten(merged') == Flatten(merged) + chunk
    ensures merged' == merged + Emit(chunk, maxSize)
  {
    if Size(chunk) > maxSize {
      var pieces := ForceSplit(chunk, maxSize);
      FlattenConcat(merged, pieces);
      merged' := merged + pieces;
    } else {
      FlattenSingle(merged, chunk);
      merged' := merged + [chunk];
    }
  }

  /** A short trailing buffer appended to the last chunk leaves every chunk
      but the last sized, and the last one sized up to that buffer. */
  lemma AppendToLast(merged: seq<seq<string>>, buffer: seq<string>, minSize: int, maxSize: int)
    requires MergeState(merged, buffer, minSize, maxSize)
    requires merged != [] && buffer != [] && Size(buffer) < minSize
    ensures var result := merged[..|merged| - 1] + [merged[|merged| - 1] + buffer];
            && Flatten(result) == Flatten(merged) + buffer
            && (forall k :: 0 <= k < |result| ==> result[k] != [])
            && (forall k :: 0 <= k < |result| - 1 ==> Sized(result[k], minSize, maxSize))
            && LastSized(result[|result| - 1], minSize, maxSize)
  {
    var init := merged[..|merged| - 1];
    var last := merged[|merged| - 1];
    assert merged == init + [last];
    FlattenSingle(init, last);
    FlattenSingle(init, last + buffer);
    assert (last + buffer)[..|last|] == last && (last + buffer)[|last|..] == buffer;
  }

  /** After the loop: a buffer shorter than `minSize` joins the last chunk,
      if there is one; any other buffer becomes a chunk of its own. */
  method FlushBuffer(merged: seq<seq<string>>, buffer: seq<string>, minSize: int, maxSize: int)
    returns (result: seq<seq<string>>)
    requires MergeState(merged, buffer, minSize, maxSize)
    ensures Flatten(result) == Flatten(merged) + buffer
    ensures merged != [] || buffer != [] ==> result != []
    ensures forall k :: 0 <= k < |result| ==> result[k] != []
    ensures forall k :: 0 <= k < |result| - 1 ==> Sized(result[k], minSize, maxSize)
    ensures result != [] ==> LastSized(result[|result| - 1], minSize, maxSize)
    ensures result == Flush(merged, buffer, minSize)
  {
    if buffer == [] {
      result := merged;
      assert buffer + [] == buffer;
    } else if merged != [] && Size(buffer) < minSize {
      AppendToLast(merged, buffer, minSize, maxSize);
      result := merged[..|merged| - 1] + [merged[|merged| - 1] + buffer];
    } else {
      FlattenSingle(merged, buffer);
      result := merged + [buffer];
    }
  }

  /** The list view of chunk texts, for lines that are non-empty and hold no
      line break: a text is empty exactly when it has no lines, two texts
      joined by a line break are the text of the joined lines, and splitting
      a text at line breaks gives back its lines. */
  lemma LinesAsText(a: seq<string>, b: seq<string>)
    requires forall k :: 0 <= k < |a| ==> a[k] != [] && '\n' !in a[k]
    requires forall k :: 0 <= k < |b| ==> b[k] != [] && '\n' !in b[k]
    ensures Join(a, "\n") == [] <==> a == []
    ensures a != [] && b != [] ==> Join(a + b, "\n") == Join(a, "\n") + "\n" + Join(b, "\n")
    ensures a != [] ==> Split(Join(a, "\n"), '\n') == a
  {
    if a != [] {
      JoinFirst(a, "\n");
      SplitJoin(a, '\n');
      if b != [] {
        JoinAppend(a, b, "\n");
      }
    }
  }

  /** The texts of chunks given by their lines. */
  function Texts(chunks: seq<seq<string>>): seq<string>
  {
    seq(|chunks|, i requires 0 <= i < |chunks| => Join(chunks[i], "\n"))
  }

  /** Joining the chunk texts with line breaks is joining all their lines. */
  lemma {:induction false} JoinTexts(chunks: seq<seq<string>>)
    requires forall i :: 0 <= i < |chunks| ==> chunks[i] != []
    ensures Join(Texts(chunks), "\n") == Join(Flatten(chunks), "\n")
  {
    if |chunks| > 1 {
      var init := chunks[..|chunks| - 1];
      var last := chunks[|chunks| - 1];
      JoinTexts(init);
      assert chunks == init + [last];
      assert Texts(chunks) == Texts(init) + [Join(last, "\n")];
      JoinAppend(Texts(init), [Join(last, "\n")], "\n");
      FlattenSingle(init, last);
      FlattenNonEmpty(init);
      JoinAppend(Flatten(init), last, "\n");
    } else if |chunks| == 1 {
      assert chunks == [] + [chunks[0]];
      FlattenSingle([], chunks[0]);
      assert Flatten(chunks) == chunks[0];
      assert Texts(chunks) == [Join(chunks[0], "\n")];
    }
  }

  lemma FlattenNonEmpty(chunks: seq<seq<string>>)
    requires chunks != [] && chunks[0] != []
    ensures Flatten(chunks) != []
  {
    FlattenMember(chunks, 0, 0);
  }

  // ---------------------------------------------------------------- formatting

  /** One chunk with its metadata. `frontmatter` is the document's front
      matter, from which the source URL, title and date are read. A document
      kept whole has no preview. */
  datatype Chunk = Chunk(id: string, content: string, file: string, filePath: string,
                         index: nat, total: nat, preview: Option<string>,
                         frontmatter: Option<string>)

  function ChunkId(filePath: string, i: nat): string {
    filePath + "::chunk_" + NatToString(i)
  }

  function WholeDocumentId(filePath: string): string {
    filePath + "::0"
  }

  /** Chunk ids of one file are all different, and none is the id of a
      document kept whole. */
  lemma ChunkIdsDistinct(filePath: string, i: nat, j: nat)
    ensures ChunkId(filePath, i) == ChunkId(filePath, j) <==> i == j
    ensures ChunkId(filePath, i) != WholeDocumentId(filePath)
  {
    var n := |filePath| + 8;
    if ChunkId(filePath, i) == ChunkId(filePath, j) {
      assert ChunkId(filePath, i)[n..] == NatToString(i);
      assert ChunkId(filePath, j)[n..] == NatToString(j);
      NatToStringInjective(i, j);
    }
    assert ChunkId(filePath, i)[|filePath| + 2] == 'c';
    assert WholeDocumentId(filePath)[|filePath| + 2] == '0';
  }

  /** The first line of a chunk text, cut to fifty characters: the longest
      prefix of at most fifty characters without a line break. */
  function Preview(text: string): (r: string)
    ensures |r| <= PreviewLength && StartsWith(text, r) && '\n' !in r
    ensures |r| == PreviewLength || |r| == |text| || text[|r|] == '\n'
  {
    Take(FirstLine(text), PreviewLength)
  }

  /** The chunk record of each merged chunk: its number, its stripped text,
      the preview of its text and the metadata of the document. */
  function Formatted(merged: seq<seq<string>>, file: string, filePath: string, frontmatter: Option<string>)
    : seq<Chunk>
  {
    seq(|merged|, i requires 0 <= i < |merged| => ChunkOf(merged[i], i, |merged|, file, filePath, frontmatter))
  }

  /** The record of chunk `i` of `total`, given by its lines. */
  function ChunkOf(lines: seq<string>, i: nat, total: nat, file: string, filePath: string,
                   frontmatter: Option<string>): Chunk
  {
    var text := Join(lines, "\n");
    Chunk(ChunkId(filePath, i), Strip(text), file, filePath, i, total, Some(Preview(text)), frontmatter)
  }

  /** Step 6: number the chunks and attach their metadata. */
  method FormatChunks(merged: seq<seq<string>>, file: string, filePath: string, frontmatter: Option<string>)
    returns (result: seq<Chunk>)
    ensures result == Formatted(merged, file, filePath, frontmatter)
  {
    result := [];
    var total := |merged|;
    for i := 0 to |merged|
      invariant |result| == i
      invariant forall m :: 0 <= m < i ==> result[m] == ChunkOf(merged[m], m, total, file, filePath, frontmatter)
    {
      result := result + [ChunkOf(merged[i], i, total, file, filePath, frontmatter)];
    }
    assert forall m :: 0 <= m < |result| ==> result[m] == Formatted(merged, file, filePath, frontmatter)[m];
  }


  // ---------------------------------------------------------------- semantic_chunk

  function Contents(chunks: seq<Chunk>): seq<string>
  {
    seq(|chunks|, i requires 0 <= i < |chunks| => chunks[i].content)
  }

  /** Steps 3 to 5: the raw chunks between the selected boundaries, merged. */
  function MergedChunks(sentences: seq<string>, similarity: (string, string) -> real,
                        percentile: (seq<real>, nat) -> real): seq<seq<string>>
    requires |sentences| >= 1
  {
    var boundaries := Boundaries(sentences, similarity, percentile, ThresholdPercentile);
    Merge(Segments(sentences, boundaries), MinChunkSize, MaxChunkSize)
  }

  /** The chunks `semantic_chunk` computes with its default sizes: the whole
      body for at most one sentence, else the formatted merged chunks. */
  function SemanticChunks(content: string, file: string, filePath: string,
                          similarity: (string, string) -> real, percentile: (seq<real>, nat) -> real): seq<Chunk>
  {
    var fm := ExtractFrontmatter(content);
    var sentences := Sentences(fm.body);
    if |sentences| <= 1 then [Chunk(WholeDocumentId(filePath), Strip(fm.body), file, filePath, 0, 1, None, fm.header)]
    else Formatted(MergedChunks(sentences, similarity, percentile), file, filePath, fm.header)
  }

  /** What `semantic_chunk` with its default sizes promises of the chunks of
      `content`: some chunks, numbered, carrying the file, the path and the
      header; a body of at most one sentence is kept whole; otherwise the
      chunks are those of its sentences. */
  predicate ChunksOf(content: string, file: string, filePath: string, chunks: seq<Chunk>) {
    var fm := ExtractFrontmatter(content);
    && chunks != []
    && (forall i :: 0 <= i < |chunks| ==>
          && chunks[i].file == file && chunks[i].filePath == filePath
          && chunks[i].index == i && chunks[i].total == |chunks|
          && chunks[i].frontmatter == fm.header)
    && (|Sentences(fm.body)| <= 1 ==>
          chunks == [Chunk(WholeDocumentId(filePath), Strip(fm.body), file, filePath, 0, 1, None, fm.header)])
    && (|Sentences(fm.body)| > 1 ==> SentenceChunks(Sentences(fm.body), filePath, chunks))
  }

  /** The chunks of two or more sentences: ids `<path>::chunk_<i>`, a
      preview of each content, every chunk but the last within the size
      bound, and the contents joined by line breaks are the sentences joined
      by line breaks, in order. */
  predicate SentenceChunks(sentences: seq<string>, filePath: string, chunks: seq<Chunk>) {
    && (forall i :: 0 <= i < |chunks| ==>
          chunks[i].id == ChunkId(filePath, i) && chunks[i].preview == Some(Preview(chunks[i].content)))
    && (forall i :: 0 <= i < |chunks| - 1 ==> ChunkFits(chunks[i].content))
    && Join(Contents(chunks), "\n") == Join(sentences, "\n")
  }

  /** A chunk text is a single sentence or at most `max_chunk_size` + 1 long
      (one line break more than the force-split test counts). */
  predicate ChunkFits(text: string) {
    '\n' !in text || |text| <= MaxChunkSize + 1
  }

  /** `semantic_chunk` with its default sizes. */
  method SemanticChunk(content: string, file: string, filePath: string,
                       similarity: (string, string) -> real, percentile: (seq<real>, nat) -> real)
    returns (chunks: seq<Chunk>)
    ensures chunks == SemanticChunks(content, file, filePath, similarity, percentile)
    ensures ChunksOf(content, file, filePath, chunks)
  {
    var fm := ExtractFrontmatter(content);
    var sentences := SplitSentences(fm.body);
    if |sentences| <= 1 {
      return [Chunk(WholeDocumentId(filePath), Strip(fm.body), file, filePath, 0, 1, None, fm.header)];
    }
    SentencesShape(fm.body);
    chunks := ChunkSentences(sentences, file, filePath, fm.header, similarity, percentile);
  }

  /** Steps 2 to 6 for two or more sentences. */
  method ChunkSentences(sentences: seq<string>, file: string, filePath: string, header: Option<string>,
                        similarity: (string, string) -> real, percentile: (seq<real>, nat) -> real)
    returns (chunks: seq<Chunk>)
    requires |sentences| > 1 && forall k :: 0 <= k < |sentences| ==> CleanLine(sentences[k])
    ensures chunks == Formatted(MergedChunks(sentences, similarity, percentile), file, filePath, header)
    ensures chunks != []
    ensures forall i :: 0 <= i < |chunks| ==>
              && chunks[i].file == file && chunks[i].filePath == filePath
              && chunks[i].index == i && chunks[i].total == |chunks|
              && chunks[i].frontmatter == header
    ensures SentenceChunks(sentences, filePath, chunks)
  {
    var merged, _, _ := MergeSentences(sentences, similarity, percentile);
    chunks := FormatChunks(merged, file, filePath, header);
    forall i | 0 <= i < |chunks|
      ensures chunks[i] == ChunkOf(merged[i], i, |merged|, file, filePath, header)
    {
    }
    FormattedSentenceChunks(sentences, merged, filePath, chunks);
  }

  /** Steps 3 to 5: the boundaries, the raw chunks between them, and their
      merge. */
  method MergeSentences(sentences: seq<string>, similarity: (string, string) -> real,
                        percentile: (seq<real>, nat) -> real)
    returns (merged: seq<seq<string>>, ghost boundaries: seq<nat>, ghost raw: seq<seq<string>>)
    requires |sentences| > 1
    ensures boundaries == Boundaries(sentences, similarity, percentile, ThresholdPercentile)
    ensures raw == Segments(sentences, boundaries)
    ensures merged == Merge(raw, MinChunkSize, MaxChunkSize) == MergedChunks(sentences, similarity, percentile)
    ensures merged != [] && Flatten(merged) == sentences
    ensures forall i :: 0 <= i < |merged| ==> merged[i] != []
    ensures forall i :: 0 <= i < |merged| - 1 ==> Sized(merged[i], MinChunkSize, MaxChunkSize)
  {
    var cuts := FindBoundaries(sentences, similarity, percentile, ThresholdPercentile);
    var pieces := RawChunks(sentences, cuts);
    var chunkLines, _, _ := MergeChunks(pieces, MinChunkSize, MaxChunkSize);
    merged, boundaries, raw := chunkLines, cuts, pieces;
  }


  /** The formatted merged chunks of clean sentences are sentence chunks. */
  lemma FormattedSentenceChunks(sentences: seq<string>, merged: seq<seq<string>>, filePath: string, chunks: seq<Chunk>)
    requires forall k :: 0 <= k < |sentences| ==> CleanLine(sentences[k])
    requires Flatten(merged) == sentences
    requires forall i :: 0 <= i < |merged| ==> merged[i] != []
    requires forall i :: 0 <= i < |merged| - 1 ==> Sized(merged[i], MinChunkSize, MaxChunkSize)
    requires |chunks| == |merged|
    requires forall i :: 0 <= i < |chunks| ==>
               && chunks[i].id == ChunkId(filePath, i)
               && chunks[i].content == Strip(Join(merged[i], "\n"))
               && chunks[i].preview == Some(Preview(Join(merged[i], "\n")))
    ensures SentenceChunks(sentences, filePath, chunks)
  {
    ContentsAreTexts(sentences, merged, chunks);
    JoinTexts(merged);
    forall i | 0 <= i < |chunks| ensures chunks[i].content == Join(merged[i], "\n") {
      assert Contents(chunks)[i] == Texts(merged)[i];
    }
    forall i | 0 <= i < |merged| - 1 ensures ChunkFits(Join(merged[i], "\n")) {
      forall k | 0 <= k < |merged[i]| ensures CleanLine(merged[i][k]) {
        FlattenMember(merged, i, k);
      }
      SizedChunkText(merged[i]);
    }
  }

  /** A sized chunk of clean lines has a text that fits. */
  lemma SizedChunkText(c: seq<string>)
    requires c != [] && forall k :: 0 <= k < |c| ==> CleanLine(c[k])
    requires Sized(c, MinChunkSize, MaxChunkSize)
    ensures ChunkFits(Join(c, "\n"))
  {
    if |c| == 1 {
      assert Join(c, "\n") == c[0];
      assert CleanLine(c[0]);
    }
  }

  /** A chunk made of whole sentences is its own strip, so the contents are
      the chunk texts. */
  lemma ContentsAreTexts(sentences: seq<string>, merged: seq<seq<string>>, chunks: seq<Chunk>)
    requires forall k :: 0 <= k < |sentences| ==> CleanLine(sentences[k])
    requires Flatten(merged) == sentences
    requires forall i :: 0 <= i < |merged| ==> merged[i] != []
    requires |chunks| == |merged|
    requires forall i :: 0 <= i < |chunks| ==> chunks[i].content == Strip(Join(merged[i], "\n"))
    ensures Contents(chunks) == Texts(merged)
  {
    forall i | 0 <= i < |merged| ensures Strip(Join(merged[i], "\n")) == Join(merged[i], "\n") {
      forall k | 0 <= k < |merged[i]| ensures CleanLine(merged[i][k]) {
        FlattenMember(merged, i, k);
      }
      CleanChunkText(merged[i]);
    }
  }

  /** The text of a chunk of clean lines neither starts nor ends with white
      space, so `strip` leaves it as it is. */
  lemma CleanChunkText(c: seq<string>)
    requires c != [] && forall k :: 0 <= k < |c| ==> CleanLine(c[k])
    ensures Strip(Join(c, "\n")) == Join(c, "\n")
  {
    assert CleanLine(c[0]) && CleanLine(c[|c| - 1]);
    JoinFirst(c, "\n");
    JoinLast(c, "\n");
    StripClean(Join(c, "\n"));
  }

  // ---------------------------------------------------------------- chunk_all_documents

  /** A loaded document: its path id, its text and the file name its metadata
      may carry. */
  datatype Document = Document(id: string, content: string, filename: Option<string>)

  /** The file name of a document: from its metadata, else the last part of its path. */
  function FileName(doc: Document): string {
    doc.filename.GetOr(BaseName(doc.id))
  }

  /** `chunk_all_documents`: the chunks of the documents, one document after
      the other, each document's chunks those of `semantic_chunk` under its
      file name and path; so every document yields at least one chunk, and
      every chunk belongs to one of the documents. */
  method ChunkAllDocuments(documents: seq<Document>, similarity: (string, string) -> real,
                           percentile: (seq<real>, nat) -> real)
    returns (allChunks: seq<Chunk>, ghost perDocument: seq<seq<Chunk>>)
    ensures |perDocument| == |documents| && allChunks == Flatten(perDocument)
    ensures forall i :: 0 <= i < |documents| ==>
              perDocument[i] == SemanticChunks(documents[i].content, FileName(documents[i]), documents[i].id,
                                               similarity, percentile)
    ensures forall i :: 0 <= i < |documents| ==>
              ChunksOf(documents[i].content, FileName(documents[i]), documents[i].id, perDocument[i])
    ensures |allChunks| >= |documents|
    ensures forall k :: 0 <= k < |allChunks| ==> FromDocuments(allChunks[k], documents, |documents|)
    ensures forall i :: 0 <= i < |documents| ==> HasChunk(allChunks, documents[i])
  {
    allChunks := [];
    perDocument := [];
    for i := 0 to |documents|
      invariant |perDocument| == i && allChunks == Flatten(perDocument)
      invariant forall m :: 0 <= m < i ==>
                  perDocument[m] == SemanticChunks(documents[m].content, FileName(documents[m]), documents[m].id,
                                                   similarity, percentile)
                  && ChunksOf(documents[m].content, FileName(documents[m]), documents[m].id, perDocument[m])
      invariant |allChunks| >= i && Owned(allChunks, documents, i)
    {
      var chunks := ChunkDocument(documents[i], similarity, percentile);
      AppendChunks(allChunks, chunks, documents, i);
      FlattenSingle(perDocument, chunks);
      AppendDocument(perDocument, chunks, documents, i, similarity, percentile);
      allChunks := allChunks + chunks;
      perDocument := perDocument + [chunks];
    }
    OwnedAll(allChunks, documents);
  }

  /** The chunks of document `i` extend the chunks of the documents before it. */
  lemma AppendDocument(perDocument: seq<seq<Chunk>>, chunks: seq<Chunk>, documents: seq<Document>, i: nat,
                        similarity: (string, string) -> real, percentile: (seq<real>, nat) -> real)
    requires |perDocument| == i < |documents|
    requires forall m :: 0 <= m < i ==>
               perDocument[m] == SemanticChunks(documents[m].content, FileName(documents[m]), documents[m].id,
                                                similarity, percentile)
               && ChunksOf(documents[m].content, FileName(documents[m]), documents[m].id, perDocument[m])
    requires chunks == SemanticChunks(documents[i].content, FileName(documents[i]), documents[i].id,
                                      similarity, percentile)
    requires ChunksOf(documents[i].content, FileName(documents[i]), documents[i].id, chunks)
    ensures forall m :: 0 <= m < i + 1 ==>
              (perDocument + [chunks])[m] == SemanticChunks(documents[m].content, FileName(documents[m]),
                                                            documents[m].id, similarity, percentile)
              && ChunksOf(documents[m].content, FileName(documents[m]), documents[m].id, (perDocument + [chunks])[m])
  {
    forall m | 0 <= m < i + 1
      ensures (perDocument + [chunks])[m] == SemanticChunks(documents[m].content, FileName(documents[m]),
                                                            documents[m].id, similarity, percentile)
      ensures ChunksOf(documents[m].content, FileName(documents[m]), documents[m].id, (perDocument + [chunks])[m])
    {
      if m < i {
        assert (perDocument + [chunks])[m] == perDocument[m];
      } else {
        assert (perDocument + [chunks])[m] == chunks;
      }
    }
  }


  lemma OwnedAll(chunks: seq<Chunk>, documents: seq<Document>)
    requires Owned(chunks, documents, |documents|)
    ensures forall k :: 0 <= k < |chunks| ==> FromDocuments(chunks[k], documents, |documents|)
    ensures forall i :: 0 <= i < |documents| ==> HasChunk(chunks, documents[i])
  {
  }

  /** The loop body: the document's file name, then `semantic_chunk`. */
  method ChunkDocument(doc: Document, similarity: (string, string) -> real, percentile: (seq<real>, nat) -> real)
    returns (chunks: seq<Chunk>)
    ensures chunks == SemanticChunks(doc.content, FileName(doc), doc.id, similarity, percentile)
    ensures ChunksOf(doc.content, FileName(doc), doc.id, chunks)
    ensures chunks != [] && forall k :: 0 <= k < |chunks| ==> FromDocument(chunks[k], doc)
  {
    chunks := SemanticChunk(doc.content, FileName(doc), doc.id, similarity, percentile);
  }

  /** Appending the chunks of document `i` keeps every chunk owned by one of
      the first `i + 1` documents and gives document `i` a chunk. */
  lemma AppendChunks(before: seq<Chunk>, chunks: seq<Chunk>, documents: seq<Document>, i: nat)
    requires i < |documents| && chunks != []
    requires forall k :: 0 <= k < |chunks| ==> FromDocument(chunks[k], documents[i])
    requires Owned(before, documents, i)
    ensures Owned(before + chunks, documents, i + 1)
  {
    var all := before + chunks;
    forall k | 0 <= k < |all| ensures FromDocuments(all[k], documents, i + 1) {
      if k < |before| {
        assert all[k] == before[k];
        assert FromDocuments(before[k], documents, i);
        var m :| 0 <= m < i && m < |documents| && FromDocument(before[k], documents[m]);
      } else {
        assert all[k] == chunks[k - |before|];
        assert FromDocument(all[k], documents[i]);
      }
    }
    forall m | 0 <= m <= i ensures HasChunk(all, documents[m]) {
      if m < i {
        assert HasChunk(before, documents[m]);
        var k :| 0 <= k < |before| && FromDocument(before[k], documents[m]);
        assert all[k] == before[k];
      } else {
        assert all[|before|] == chunks[0];
      }
    }
  }

  /** The chunk carries the path and the file name of the document. */
  predicate FromDocument(c: Chunk, doc: Document) {
    c.filePath == doc.id && c.file == FileName(doc)
  }

  /** Every chunk comes from one of the first `n` documents, and each of
      them has a chunk. */
  ghost predicate Owned(chunks: seq<Chunk>, documents: seq<Document>, n: nat) {
    && (forall k {:trigger FromDocuments(chunks[k], documents, n)} ::
          0 <= k < |chunks| ==> FromDocuments(chunks[k], documents, n))
    && (forall m {:trigger HasChunk(chunks, documents[m])} ::
          0 <= m < n && m < |documents| ==> HasChunk(chunks, documents[m]))
  }

  /** Some chunk comes from `doc`. */
  ghost predicate HasChunk(chunks: seq<Chunk>, doc: Document) {
    exists k :: 0 <= k < |chunks| && FromDocument(chunks[k], doc)
  }

  /** The chunk comes from one of the first `n` documents. */
  ghost predicate FromDocuments(c: Chunk, documents: seq<Document>, n: nat) {
    exists m :: 0 <= m < n && m < |documents| && FromDocument(c, documents[m])
  }
}
