/**
 * Index building: each section's text is cut into overlapping windows of
 * whitespace-separated tokens, and every chunk becomes one metadata record and one
 * embedding row, numbered consecutively so that the record's `id` is its row.
 */
module BuildIndex {
  import opened Results
  import opened PyStr
  import opened Metadata
  import ExtractSections

  /** Target size of a chunk, in tokens. */
  const MaxTokens: nat := 256
  /** Tokens shared by consecutive chunks. */
  const OverlapTokens: nat := 50

  function Min(a: nat, b: nat): nat {
    if a <= b then a else b
  }

  // ---------------------------------------------------------------------------
  // The windows of `split_into_chunks`

  /** The token range `[start, end)` of one chunk. */
  datatype Window = Window(start: nat, end: nat)

  /** A window of at least one and at most `MaxTokens` tokens, inside `[lo, n)`. */
  predicate WindowIn(w: Window, lo: nat, n: nat) {
    lo <= w.start < w.end <= n && w.end - w.start <= MaxTokens
  }

  /** The windows the loop visits from `start` on, over `n` tokens. */
  function WindowsFrom(start: nat, n: nat): (ws: seq<Window>)
    ensures forall i | 0 <= i < |ws| :: WindowIn(ws[i], start, n)
    decreases n - start
  {
    if start >= n then []
    else
      var end := Min(start + MaxTokens, n);
      if end == n then [Window(start, end)]
      else [Window(start, end)] + WindowsFrom(end - OverlapTokens, n)
  }

  /** All windows over `n` tokens; no tokens, no windows. */
  function Windows(n: nat): seq<Window> {
    WindowsFrom(0, n)
  }

  /** The text of one chunk: its tokens joined by single spaces. */
  function ChunkText(tokens: seq<string>, w: Window): string
    requires w.start <= w.end <= |tokens|
  {
    JoinWith(" ", tokens[w.start..w.end])
  }

  function Texts(tokens: seq<string>, ws: seq<Window>): (r: seq<string>)
    requires forall i | 0 <= i < |ws| :: WindowIn(ws[i], 0, |tokens|)
    ensures |r| == |ws|
    decreases |ws|
  {
    if ws == [] then []
    else
      assert WindowIn(ws[0], 0, |tokens|);
      [ChunkText(tokens, ws[0])] + Texts(tokens, ws[1..])
  }

  /** The chunks of a text: one joined window of its tokens per window. */
  function Chunks(text: string): seq<string> {
    var tokens := Split(text);
    Texts(tokens, Windows(|tokens|))
  }

  // ---------------------------------------------------------------------------
  // The loop

  /** A chunk text is never empty and never has surrounding whitespace. */
  lemma ChunkTextTrimmed(tokens: seq<string>, w: Window)
    requires forall i | 0 <= i < |tokens| :: IsToken(tokens[i])
    requires w.start < w.end <= |tokens|
    ensures ChunkText(tokens, w) != [] && Strip(ChunkText(tokens, w)) == ChunkText(tokens, w)
  {
    var ts := tokens[w.start..w.end];
    assert forall i | 0 <= i < |ts| :: ts[i] == tokens[w.start + i];
    JoinTokensTrimmed(ts);
    StripTrimmed(ChunkText(tokens, w));
  }

  /**
   * `split_into_chunks`: windows of `MaxTokens` tokens, each next one starting
   * `OverlapTokens` before the previous end, until a window reaches the last token.
   */
  method SplitIntoChunks(text: string) returns (chunks: seq<string>)
    ensures chunks == Chunks(text)
  {
    var tokens := Split(text);
    if tokens == [] {
      return [];
    }
    chunks := [];
    var start: nat := 0;
    var n := |tokens|;
    while start < n
      invariant Texts(tokens, Windows(n)) == chunks + Texts(tokens, WindowsFrom(start, n))
      decreases n - start
    {
      var end := Min(start + MaxTokens, n);
      var chunkTokens := tokens[start..end];
      ChunkTextTrimmed(tokens, Window(start, end));
      var chunk := Strip(JoinWith(" ", chunkTokens));
      if chunk != [] {
        chunks := chunks + [chunk];
      }
      if end == n {
        break;
      }
      start := end - OverlapTokens;
    }
  }

  // ---------------------------------------------------------------------------
  // Properties of the windows

  /**
   * The windows from `start` begin at `start` and end at `n`; every window but the
   * last is full, and each next one starts `OverlapTokens` before the previous end.
   */
  lemma {:induction false} WindowsFromShape(start: nat, n: nat)
    requires start < n
    ensures var ws := WindowsFrom(start, n);
      ws != [] && ws[0].start == start && ws[|ws| - 1].end == n
      && (forall i | 0 <= i < |ws| - 1 ::
            ws[i].end - ws[i].start == MaxTokens && ws[i].end < n
            && ws[i + 1].start == ws[i].end - OverlapTokens)
    decreases n - start
  {
    var end := Min(start + MaxTokens, n);
    if end < n {
      var rest := WindowsFrom(end - OverlapTokens, n);
      WindowsFromShape(end - OverlapTokens, n);
      var ws := WindowsFrom(start, n);
      assert ws == [Window(start, end)] + rest;
      forall i | 0 <= i < |ws| - 1
        ensures ws[i].end - ws[i].start == MaxTokens && ws[i].end < n
        ensures ws[i + 1].start == ws[i].end - OverlapTokens
      {
        if i > 0 {
          assert ws[i] == rest[i - 1] && ws[i + 1] == rest[i];
        }
      }
    }
  }

  /** The windows over `n > 0` tokens run from token 0 to token `n`, as in `WindowsFromShape`. */
  lemma WindowsShape(n: nat)
    requires n > 0
    ensures var ws := Windows(n);
      ws != [] && ws[0].start == 0 && ws[|ws| - 1].end == n
      && (forall i | 0 <= i < |ws| - 1 ::
            ws[i].end - ws[i].start == MaxTokens && ws[i].end < n
            && ws[i + 1].start == ws[i].end - OverlapTokens)
  {
    WindowsFromShape(0, n);
  }

  /** Up to `MaxTokens` tokens fit in one window. */
  lemma OneWindow(n: nat)
    requires 1 <= n <= MaxTokens
    ensures Windows(n) == [Window(0, n)]
  {
  }

  /** 300 tokens: `[0, 256)` and `[206, 300)`. */
  lemma ThreeHundredTokens()
    ensures Windows(300) == [Window(0, 256), Window(206, 300)]
  {
    assert WindowsFrom(206, 300) == [Window(206, 300)];
  }

  // ---------------------------------------------------------------------------
  // Properties of the chunks

  /** The token lists of the windows. */
  function Slices(tokens: seq<string>, ws: seq<Window>): (r: seq<seq<string>>)
    requires forall i | 0 <= i < |ws| :: WindowIn(ws[i], 0, |tokens|)
    ensures |r| == |ws|
    decreases |ws|
  {
    if ws == [] then []
    else
      assert WindowIn(ws[0], 0, |tokens|);
      [tokens[ws[0].start..ws[0].end]] + Slices(tokens, ws[1..])
  }

  /** `p[k:]` with Python's slice semantics: empty when `p` is shorter than `k`. */
  function Drop(p: seq<string>, k: nat): seq<string> {
    if |p| <= k then [] else p[k..]
  }

  /** Every part after the first, without its leading overlap. */
  function Tails(parts: seq<seq<string>>): seq<string>
    decreases |parts|
  {
    if parts == [] then [] else Drop(parts[0], OverlapTokens) + Tails(parts[1..])
  }

  /** The first part, then every later part minus the tokens it shares with the one before. */
  function Stitch(parts: seq<seq<string>>): seq<string> {
    if parts == [] then [] else parts[0] + Tails(parts[1..])
  }

  /** One step of `WindowsFrom`: the first window, and what follows it. */
  lemma WindowsFromStep(start: nat, n: nat)
    requires start < n
    ensures var ws := WindowsFrom(start, n);
      var end := Min(start + MaxTokens, n);
      ws != [] && ws[0] == Window(start, end)
      && (end == n ==> ws[1..] == [])
      && (end < n ==> end >= OverlapTokens && ws[1..] == WindowsFrom(end - OverlapTokens, n))
  {
  }

  /** One step of `Slices`: the first window's tokens, then the slices of the rest. */
  lemma SlicesStep(tokens: seq<string>, ws: seq<Window>)
    requires ws != [] && forall i | 0 <= i < |ws| :: WindowIn(ws[i], 0, |tokens|)
    ensures var r := Slices(tokens, ws);
      r[0] == tokens[ws[0].start..ws[0].end] && r[1..] == Slices(tokens, ws[1..])
  {
  }

  /**
   * From the window at `start` on: the first window holds `tokens[start..end]`, and the
   * later windows minus their overlaps hold exactly `tokens[end..]`.
   */
  lemma {:induction false} RestCover(tokens: seq<string>, start: nat)
    requires start < |tokens|
    ensures var sl := Slices(tokens, WindowsFrom(start, |tokens|));
      var end := Min(start + MaxTokens, |tokens|);
      sl != [] && sl[0] == tokens[start..end] && Tails(sl[1..]) == tokens[end..]
    decreases |tokens| - start
  {
    var n := |tokens|;
    var end := Min(start + MaxTokens, n);
    var ws := WindowsFrom(start, n);
    WindowsFromStep(start, n);
    SlicesStep(tokens, ws);
    if end < n {
      var next := end - OverlapTokens;
      var end2 := Min(next + MaxTokens, n);
      RestCover(tokens, next);
      var sl' := Slices(tokens, WindowsFrom(next, n));
      assert Tails(sl') == Drop(sl'[0], OverlapTokens) + Tails(sl'[1..]);
      assert Drop(sl'[0], OverlapTokens) == tokens[end..end2];
      assert tokens[end..] == tokens[end..end2] + tokens[end2..];
    }
  }

  /** No gaps: the windows, stitched at their overlaps, give back all tokens. */
  lemma WindowsCover(tokens: seq<string>)
    ensures Stitch(Slices(tokens, Windows(|tokens|))) == tokens
  {
    var n := |tokens|;
    if n > 0 {
      var end := Min(MaxTokens, n);
      RestCover(tokens, 0);
      var sl := Slices(tokens, WindowsFrom(0, n));
      assert Stitch(sl) == sl[0] + Tails(sl[1..]);
      SplitAt(tokens, end);
    }
  }

  lemma SplitAt(t: seq<string>, k: nat)
    requires k <= |t|
    ensures t[0..k] + t[k..] == t
  {
  }

  function SplitEach(cs: seq<string>): (r: seq<seq<string>>)
    ensures |r| == |cs|
    decreases |cs|
  {
    if cs == [] then [] else [Split(cs[0])] + SplitEach(cs[1..])
  }

  /** Splitting each chunk again gives exactly the tokens of its window. */
  lemma {:induction false} ChunkTokens(tokens: seq<string>, ws: seq<Window>)
    requires forall i | 0 <= i < |tokens| :: IsToken(tokens[i])
    requires forall i | 0 <= i < |ws| :: WindowIn(ws[i], 0, |tokens|)
    ensures SplitEach(Texts(tokens, ws)) == Slices(tokens, ws)
    decreases |ws|
  {
    if ws != [] {
      var ts := tokens[ws[0].start..ws[0].end];
      assert forall i | 0 <= i < |ts| :: ts[i] == tokens[ws[0].start + i];
      SplitJoinTokens(ts);
      ChunkTokens(tokens, ws[1..]);
    }
  }

  /** The tokens of the chunks of `text`, chunk by chunk. */
  function ChunkTokenLists(text: string): seq<seq<string>> {
    SplitEach(Chunks(text))
  }

  lemma ChunkTokenListsAreSlices(text: string)
    ensures var tokens := Split(text);
      ChunkTokenLists(text) == Slices(tokens, Windows(|tokens|))
  {
    var tokens := Split(text);
    ChunkTokens(tokens, Windows(|tokens|));
  }

  /** Text without tokens has no chunks. */
  lemma NoTokensNoChunks(text: string)
    ensures Chunks(text) == [] <==> Split(text) == []
  {
    var tokens := Split(text);
    if tokens != [] {
      WindowsShape(|tokens|);
    }
  }

  /** No gaps: the chunks' tokens, stitched at their overlaps, are the tokens of the text. */
  lemma ChunksCover(text: string)
    ensures Stitch(ChunkTokenLists(text)) == Split(text)
  {
    ChunkTokenListsAreSlices(text);
    WindowsCover(Split(text));
  }

  lemma {:induction false} SliceAt(tokens: seq<string>, ws: seq<Window>, i: nat)
    requires forall j | 0 <= j < |ws| :: WindowIn(ws[j], 0, |tokens|)
    requires i < |ws|
    ensures Slices(tokens, ws)[i] == tokens[ws[i].start..ws[i].end]
    decreases i
  {
    if i > 0 {
      SliceAt(tokens, ws[1..], i - 1);
    }
  }

  /** Every chunk has between 1 and `MaxTokens` tokens. */
  lemma ChunkSize(text: string, i: nat)
    requires i < |Chunks(text)|
    ensures 1 <= |Split(Chunks(text)[i])| <= MaxTokens
  {
    var tokens := Split(text);
    var ws := Windows(|tokens|);
    ChunkTokenListsAreSlices(text);
    SliceAt(tokens, ws, i);
    SplitEachAt(Chunks(text), i);
  }

  lemma {:induction false} SplitEachAt(cs: seq<string>, i: nat)
    requires i < |cs|
    ensures SplitEach(cs)[i] == Split(cs[i])
    decreases i
  {
    if i > 0 {
      SplitEachAt(cs[1..], i - 1);
    }
  }

  /**
   * Consecutive chunks share exactly `OverlapTokens` tokens: every chunk but the last
   * is full, and its last `OverlapTokens` tokens are the next chunk's first ones.
   */
  lemma ChunkOverlap(text: string, i: nat)
    requires i + 1 < |Chunks(text)|
    ensures var a := Split(Chunks(text)[i]);
      var b := Split(Chunks(text)[i + 1]);
      |a| == MaxTokens && |b| > OverlapTokens
      && a[MaxTokens - OverlapTokens..] == b[..OverlapTokens]
  {
    var tokens := Split(text);
    var ws := Windows(|tokens|);
    ChunkTokenListsAreSlices(text);
    SliceAt(tokens, ws, i);
    SliceAt(tokens, ws, i + 1);
    SplitEachAt(Chunks(text), i);
    SplitEachAt(Chunks(text), i + 1);
    WindowOverlap(tokens, i);
  }

  /** The tokens of windows `i` and `i + 1`: a full window, then one overlapping its last 50. */
  lemma WindowOverlap(tokens: seq<string>, i: nat)
    requires i + 1 < |Windows(|tokens|)|
    ensures var ws := Windows(|tokens|);
      var a := tokens[ws[i].start..ws[i].end];
      var b := tokens[ws[i + 1].start..ws[i + 1].end];
      |a| == MaxTokens && |b| > OverlapTokens
      && a[MaxTokens - OverlapTokens..] == b[..OverlapTokens]
  {
    var ws := Windows(|tokens|);
    WindowsShape(|tokens|);
    var e := ws[i].end;
    assert ws[i + 1].start == e - OverlapTokens;
    if i + 2 < |ws| {
      assert ws[i + 1].end - ws[i + 1].start == MaxTokens;
    } else {
      assert ws[i + 1].end == |tokens| && e < |tokens|;
    }
    SubSlice(tokens, ws[i].start, e, e - OverlapTokens, e);
    SubSlice(tokens, e - OverlapTokens, ws[i + 1].end, e - OverlapTokens, e);
  }

  /** A slice of a slice is a slice. */
  lemma SubSlice(t: seq<string>, a: nat, b: nat, c: nat, d: nat)
    requires a <= c <= d <= b <= |t|
    ensures t[a..b][c - a..d - a] == t[c..d]
    ensures d == b ==> t[a..b][c - a..] == t[c..d]
    ensures c == a ==> t[a..b][..d - a] == t[c..d]
  {
    assert forall j | 0 <= j < d - c :: t[a..b][c - a..d - a][j] == t[c..d][j];
  }

  /** 1..256 tokens: one chunk, the tokens joined by single spaces. */
  lemma ShortText(text: string)
    requires 1 <= |Split(text)| <= MaxTokens
    ensures Chunks(text) == [JoinWith(" ", Split(text))]
  {
    var tokens := Split(text);
    OneWindow(|tokens|);
    assert tokens[0..|tokens|] == tokens;
  }

  /** 300 tokens: two chunks, tokens `[0, 256)` and `[206, 300)`. */
  lemma ThreeHundredTokenText(text: string)
    requires |Split(text)| == 300
    ensures var tokens := Split(text);
      Chunks(text) == [JoinWith(" ", tokens[..256]), JoinWith(" ", tokens[206..])]
  {
    ThreeHundredTokens();
    var tokens := Split(text);
    assert tokens[0..256] == tokens[..256] && tokens[206..300] == tokens[206..];
  }

  // ---------------------------------------------------------------------------
  // The build loop of `main`

  /** The records of one section's chunks, numbered from `base`. */
  function SectionRecords(sec: ExtractSections.Section, cs: seq<string>, base: nat): (r: seq<ChunkRecord>)
    ensures |r| == |cs|
    decreases |cs|
  {
    if cs == [] then []
    else
      var k := |cs| - 1;
      SectionRecords(sec, cs[..k], base)
        + [ChunkRecord(base + k, sec.sectionId, sec.pageStart, sec.pageEnd, cs[k], |Split(cs[k])|)]
  }

  /** The metadata of the whole build: each section's chunk records, in order. */
  function Records(sections: seq<ExtractSections.Section>): seq<ChunkRecord>
    decreases |sections|
  {
    if sections == [] then []
    else
      var k := |sections| - 1;
      var prefix := Records(sections[..k]);
      prefix + SectionRecords(sections[k], Chunks(sections[k].text), |prefix|)
  }

  /** The embedding matrix and its metadata, row for row. */
  datatype Snapshot<V> = Snapshot(vectors: seq<V>, metadata: seq<ChunkRecord>)

  /** `RuntimeError("No vectors were created ...")` */
  datatype BuildError = NoVectors

  /** Row `k` of the matrix is the embedding of record `k`'s text. */
  predicate Aligned<V(==)>(vectors: seq<V>, metadata: seq<ChunkRecord>, embed: string -> V) {
    |vectors| == |metadata| && forall k | 0 <= k < |vectors| :: vectors[k] == embed(metadata[k].text)
  }

  /**
   * The inner loop over one section's chunks: each chunk is embedded and gets the
   * next `id`, and the section's id and page range.
   */
  method EmbedChunks<V(==)>(sec: ExtractSections.Section, chunks: seq<string>, embed: string -> V,
                            vectors0: seq<V>, metadata0: seq<ChunkRecord>, idx0: nat)
    returns (vectors: seq<V>, metadata: seq<ChunkRecord>, idx: nat)
    requires idx0 == |metadata0| && Aligned(vectors0, metadata0, embed)
    ensures metadata == metadata0 + SectionRecords(sec, chunks, idx0)
    ensures idx == |metadata| && Aligned(vectors, metadata, embed)
  {
    vectors, metadata, idx := vectors0, metadata0, idx0;
    for j := 0 to |chunks|
      invariant metadata == metadata0 + SectionRecords(sec, chunks[..j], idx0)
      invariant idx == |metadata|
      invariant Aligned(vectors, metadata, embed)
    {
      assert chunks[..j + 1][..j] == chunks[..j];
      var chunk := chunks[j];
      var vec := embed(chunk);
      vectors := vectors + [vec];
      var metaRec := ChunkRecord(idx, sec.sectionId, sec.pageStart, sec.pageEnd, chunk, |Split(chunk)|);
      metadata := metadata + [metaRec];
      idx := idx + 1;
    }
    assert chunks[..|chunks|] == chunks;
  }

  /**
   * The chunk-and-embed loop and the empty-build check. `embed` stands for the
   * embedding model; the index file and the metadata file are not written here.
   */
  method Build<V(==)>(sections: seq<ExtractSections.Section>, embed: string -> V)
    returns (r: Result<Snapshot<V>, BuildError>)
    ensures r.Err? <==> Records(sections) == []
    ensures r.Ok? ==> r.value.metadata == Records(sections)
    ensures r.Ok? ==> Aligned(r.value.vectors, r.value.metadata, embed)
  {
    var vectors: seq<V> := [];
    var metadata: seq<ChunkRecord> := [];
    var idx: nat := 0;
    for i := 0 to |sections|
      invariant metadata == Records(sections[..i]) && idx == |metadata|
      invariant Aligned(vectors, metadata, embed)
    {
      assert sections[..i + 1][..i] == sections[..i];
      var sec := sections[i];
      var chunks := SplitIntoChunks(sec.text);
      vectors, metadata, idx := EmbedChunks(sec, chunks, embed, vectors, metadata, idx);
    }
    assert sections[..|sections|] == sections;
    if vectors == [] {
      return Err(NoVectors);
    }
    return Ok(Snapshot(vectors, metadata));
  }

  // ---------------------------------------------------------------------------
  // Properties of the metadata

  lemma {:induction false} SectionRecordsAt(sec: ExtractSections.Section, cs: seq<string>, base: nat, j: nat)
    requires j < |cs|
    ensures SectionRecords(sec, cs, base)[j]
      == ChunkRecord(base + j, sec.sectionId, sec.pageStart, sec.pageEnd, cs[j], |Split(cs[j])|)
    decreases |cs|
  {
    var k := |cs| - 1;
    if j < k {
      SectionRecordsAt(sec, cs[..k], base, j);
    }
  }

  /** Record `k` of the build: from the earlier sections' records, or from the last section's. */
  lemma RecordsAt(sections: seq<ExtractSections.Section>, k: nat)
    requires sections != [] && k < |Records(sections)|
    ensures var n := |sections| - 1;
      var prefix := Records(sections[..n]);
      var own := SectionRecords(sections[n], Chunks(sections[n].text), |prefix|);
      |Records(sections)| == |prefix| + |own|
      && Records(sections)[k] == (if k < |prefix| then prefix[k] else own[k - |prefix|])
  {
  }

  /** Each record's `id` is its position, so metadata row `k` describes vector row `k`. */
  lemma {:induction false} RecordIds(sections: seq<ExtractSections.Section>)
    ensures forall k | 0 <= k < |Records(sections)| :: Records(sections)[k].id == k
    decreases |sections|
  {
    if sections != [] {
      var n := |sections| - 1;
      var prefix := Records(sections[..n]);
      RecordIds(sections[..n]);
      forall k | 0 <= k < |Records(sections)| ensures Records(sections)[k].id == k {
        RecordsAt(sections, k);
        if k >= |prefix| {
          SectionRecordsAt(sections[n], Chunks(sections[n].text), |prefix|, k - |prefix|);
        }
      }
    }
  }

  /**
   * Each record is a chunk of some section and carries that section's id and page
   * range unchanged; its `n_tokens` is its chunk's token count, between 1 and `MaxTokens`.
   */
  lemma {:induction false} RecordsInherit(sections: seq<ExtractSections.Section>, k: nat)
    requires k < |Records(sections)|
    ensures var rec := Records(sections)[k];
      exists i :: 0 <= i < |sections|
        && rec.sectionId == sections[i].sectionId
        && rec.pageStart == sections[i].pageStart
        && rec.pageEnd == sections[i].pageEnd
        && rec.text in Chunks(sections[i].text)
    ensures 1 <= Records(sections)[k].nTokens <= MaxTokens
    ensures Records(sections)[k].nTokens == |Split(Records(sections)[k].text)|
    decreases |sections|
  {
    var n := |sections| - 1;
    var prefix := Records(sections[..n]);
    var cs := Chunks(sections[n].text);
    var own := SectionRecords(sections[n], cs, |prefix|);
    RecordsAt(sections, k);
    if k < |prefix| {
      RecordsInherit(sections[..n], k);
      var i :| 0 <= i < |sections[..n]|
        && prefix[k].sectionId == sections[..n][i].sectionId
        && prefix[k].pageStart == sections[..n][i].pageStart
        && prefix[k].pageEnd == sections[..n][i].pageEnd
        && prefix[k].text in Chunks(sections[..n][i].text);
      assert sections[..n][i] == sections[i];
    } else {
      var j := k - |prefix|;
      SectionRecordsAt(sections[n], cs, |prefix|, j);
      ChunkSize(sections[n].text, j);
      assert cs[j] in cs;
    }
  }

  /** No section has a single token. */
  predicate NoTokens(sections: seq<ExtractSections.Section>) {
    forall i | 0 <= i < |sections| :: Split(sections[i].text) == []
  }

  lemma NoTokensLast(sections: seq<ExtractSections.Section>)
    requires sections != []
    ensures var n := |sections| - 1;
      NoTokens(sections) <==> NoTokens(sections[..n]) && Split(sections[n].text) == []
  {
    var n := |sections| - 1;
    assert forall i | 0 <= i < n :: sections[..n][i] == sections[i];
  }

  /** The build fails exactly when no section has a single token. */
  lemma {:induction false} RecordsEmpty(sections: seq<ExtractSections.Section>)
    ensures Records(sections) == [] <==> forall i | 0 <= i < |sections| :: Split(sections[i].text) == []
    decreases |sections|
  {
    if sections != [] {
      var n := |sections| - 1;
      RecordsEmpty(sections[..n]);
      NoTokensNoChunks(sections[n].text);
      NoTokensLast(sections);
      assert NoTokens(sections[..n]) <==> Records(sections[..n]) == [];
    }
  }
}
