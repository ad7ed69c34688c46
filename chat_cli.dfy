/**
 * The console chat front end: hit assembly with Python list indexing, the context
 * string, the sorted list of section ids shown after an answer, and the input loop.
 * The embedding and search of a question, and the local chat model, are function
 * parameters.
 */
module ChatCli {
  import opened Results
  import opened PyStr
  import opened Metadata
  import opened RagPipeline

  /** The Python exceptions that end the console. */
  datatype ChatError = IndexError(idx: int) | KeyError(key: string)

  // ---------------------------------------------------------------------------
  // retrieve

  /** `xs[idx]` on a list of length `n`: negative indices count from the end. */
  function PyIndex(n: nat, idx: int): (r: Option<nat>)
    ensures r.Some? <==> -(n as int) <= idx < n
    ensures r.Some? ==> r.value < n && (if idx < 0 then r.value == n + idx else r.value == idx)
  {
    if idx < -(n as int) || idx >= n then None
    else if idx < 0 then Some(n + idx)
    else Some(idx)
  }

  /** The hits of `retrieve`: one per pair, in order; the first bad row raises `IndexError`. */
  function Hits<S>(metadata: seq<ChunkRecord>, pairs: seq<Hit<S>>): Result<seq<Scored<S>>, ChatError>
    decreases |pairs|
  {
    if pairs == [] then Ok([])
    else
      var p := pairs[|pairs| - 1];
      match Hits(metadata, pairs[..|pairs| - 1])
      case Err(e) => Err(e)
      case Ok(hs) =>
        match PyIndex(|metadata|, p.idx)
        case None => Err(IndexError(p.idx))
        case Some(row) => Ok(hs + [Scored(metadata[row], p.score)])
  }

  /** The loop of `retrieve`, after the search: no range check, Python indexing. */
  method Retrieve<S>(metadata: seq<ChunkRecord>, pairs: seq<Hit<S>>)
    returns (r: Result<seq<Scored<S>>, ChatError>)
    ensures r == Hits(metadata, pairs)
  {
    var hits: seq<Scored<S>> := [];
    for i := 0 to |pairs|
      invariant Hits(metadata, pairs[..i]) == Ok(hits)
    {
      assert pairs[..i + 1][..i] == pairs[..i];
      var score, idx := pairs[i].score, pairs[i].idx;
      if idx < -|metadata| || idx >= |metadata| {
        HitsErrSticks(metadata, pairs, i + 1);
        return Err(IndexError(idx));
      }
      var row := if idx < 0 then |metadata| + idx else idx;
      var doc := metadata[row];
      hits := hits + [Scored(doc, score)];
    }
    assert pairs[..|pairs|] == pairs;
    return Ok(hits);
  }

  /** Once a prefix raises, the whole list raises the same error. */
  lemma {:induction false} HitsErrSticks<S>(metadata: seq<ChunkRecord>, pairs: seq<Hit<S>>, i: nat)
    requires i <= |pairs| && Hits(metadata, pairs[..i]).Err?
    ensures Hits(metadata, pairs) == Hits(metadata, pairs[..i])
    decreases |pairs|
  {
    if i < |pairs| {
      var k := |pairs| - 1;
      assert pairs[..k][..i] == pairs[..i];
      HitsErrSticks(metadata, pairs[..k], i);
    } else {
      assert pairs[..i] == pairs;
    }
  }

  /**
   * `retrieve` succeeds exactly when every row is a valid Python index, and then
   * hit `j` is the record at that index with pair `j`'s score.
   */
  lemma {:induction false} HitsExact<S>(metadata: seq<ChunkRecord>, pairs: seq<Hit<S>>)
    ensures var r := Hits(metadata, pairs);
      (r.Ok? <==> forall j | 0 <= j < |pairs| :: -|metadata| <= pairs[j].idx < |metadata|)
      && (r.Err? ==> r.error.IndexError?)
      && (r.Ok? ==>
            (|r.value| == |pairs|
             && forall j | 0 <= j < |pairs| ::
                  PyIndex(|metadata|, pairs[j].idx).Some?
                  && r.value[j] == Scored(metadata[PyIndex(|metadata|, pairs[j].idx).value], pairs[j].score)))
    decreases |pairs|
  {
    if pairs != [] {
      var k := |pairs| - 1;
      var front := pairs[..k];
      HitsExact(metadata, front);
      assert forall j | 0 <= j < k :: front[j] == pairs[j];
      if Hits(metadata, front).Err? {
        var j :| 0 <= j < |front| && !(-|metadata| <= front[j].idx < |metadata|);
        assert pairs[j] == front[j];
      }
    }
  }

  /**
   * The search pads missing neighbours with row -1, and Python reads `metadata[-1]`:
   * a padding pair becomes a hit on the last record instead of being dropped.
   */
  lemma PaddingGivesLastRecord<S>(metadata: seq<ChunkRecord>, pairs: seq<Hit<S>>, j: nat)
    requires metadata != [] && j < |pairs| && pairs[j].idx == -1
    requires forall i | 0 <= i < |pairs| :: -|metadata| <= pairs[i].idx < |metadata|
    ensures var r := Hits(metadata, pairs);
      r.Ok? && j < |r.value| && r.value[j] == Scored(metadata[|metadata| - 1], pairs[j].score)
  {
    HitsExact(metadata, pairs);
  }

  // ---------------------------------------------------------------------------
  // build_context

  const Delimiter: string := "\n\n----\n\n"

  /** `f"[Section {h['section_id']} | pages {h['page_start']}-{h['page_end']}]"` */
  function HitHeader(rec: ChunkRecord): string {
    "[Section " + rec.sectionId + " | pages " + IntToDecimal(rec.pageStart) + "-"
      + IntToDecimal(rec.pageEnd) + "]"
  }

  /** One part of the context: the hit's header, a newline, its body. */
  function Part(rec: ChunkRecord, body: string): string {
    HitHeader(rec) + "\n" + body
  }

  /** The parts of the context, reading each hit's body under `key`; a missing key raises. */
  function ContextParts<S>(hits: seq<Scored<S>>, key: string): Result<seq<string>, ChatError>
    decreases |hits|
  {
    if hits == [] then Ok([])
    else
      var h := hits[|hits| - 1];
      match ContextParts(hits[..|hits| - 1], key)
      case Err(e) => Err(e)
      case Ok(ps) =>
        match Lookup(h.record, key)
        case None => Err(KeyError(key))
        case Some(v) => Ok(ps + [Part(h.record, Render(v))])
  }

  /** The context string for a given body key: parts joined by the `----` delimiter. */
  function Context<S>(hits: seq<Scored<S>>, key: string): Result<string, ChatError> {
    match ContextParts(hits, key)
    case Err(e) => Err(e)
    case Ok(ps) => Ok(JoinWith(Delimiter, ps))
  }

  /** The loop of `build_context`, reading each hit's body under `key`. */
  method ContextFor<S>(hits: seq<Scored<S>>, key: string) returns (r: Result<string, ChatError>)
    ensures r == Context(hits, key)
  {
    var parts: seq<string> := [];
    for i := 0 to |hits|
      invariant ContextParts(hits[..i], key) == Ok(parts)
    {
      assert hits[..i + 1][..i] == hits[..i];
      var h := hits[i];
      var header := HitHeader(h.record);
      var body := Lookup(h.record, key);
      if body.None? {
        ContextErrSticks(hits, key, i + 1);
        return Err(KeyError(key));
      }
      parts := parts + [header + "\n" + Render(body.value)];
    }
    assert hits[..|hits|] == hits;
    return Ok(JoinWith(Delimiter, parts));
  }

  /** `build_context` as written: the body is read under `"content"`, a key no record has. */
  method BuildContext<S>(hits: seq<Scored<S>>) returns (r: Result<string, ChatError>)
    ensures r == Context(hits, "content")
    ensures hits == [] ==> r == Ok("")
    ensures hits != [] ==> r == Err(KeyError("content"))
  {
    r := ContextFor(hits, "content");
    ContentKeyFails(hits);
  }

  /**
   * `build_context` reading the body under `"text"`, where the builder stores it: it
   * never fails, and its parts are the hits' headers and texts, in hit order.
   */
  method BuildContextByText<S>(hits: seq<Scored<S>>) returns (r: string)
    ensures Context(hits, "text") == Ok(r)
    ensures r == JoinWith(Delimiter, TextParts(hits))
  {
    var c := ContextFor(hits, "text");
    TextKeyContext(hits);
    r := c.value;
  }

  lemma {:induction false} ContextErrSticks<S>(hits: seq<Scored<S>>, key: string, i: nat)
    requires i <= |hits| && ContextParts(hits[..i], key).Err?
    ensures ContextParts(hits, key) == ContextParts(hits[..i], key)
    decreases |hits|
  {
    if i < |hits| {
      var k := |hits| - 1;
      assert hits[..k][..i] == hits[..i];
      ContextErrSticks(hits[..k], key, i);
    } else {
      assert hits[..i] == hits;
    }
  }

  /**
   * As written, the context fails with `KeyError('content')` on every non-empty hit
   * list, because the records store the chunk under `"text"`.
   */
  lemma {:induction false} ContentKeyFails<S>(hits: seq<Scored<S>>)
    ensures hits == [] ==> Context(hits, "content") == Ok("")
    ensures hits != [] ==> Context(hits, "content") == Err(KeyError("content"))
    decreases |hits|
  {
    if hits != [] {
      var k := |hits| - 1;
      TextKey(hits[k].record);
      if k > 0 {
        ContentKeyFails(hits[..k]);
      } else {
        assert hits[..k] == [];
        assert ContextParts(hits[..k], "content") == Ok([]);
      }
      assert ContextParts(hits, "content") == Err(KeyError("content"));
    }
  }

  /** The parts the context was meant to have: header, newline, chunk text, per hit in order. */
  function TextParts<S>(hits: seq<Scored<S>>): (r: seq<string>)
    ensures |r| == |hits|
    decreases |hits|
  {
    if hits == [] then []
    else
      var h := hits[|hits| - 1];
      TextParts(hits[..|hits| - 1]) + [Part(h.record, h.record.text)]
  }

  /** Reading the body under `"text"`, the context never fails and has one part per hit, in order. */
  lemma {:induction false} TextKeyContext<S>(hits: seq<Scored<S>>)
    ensures ContextParts(hits, "text") == Ok(TextParts(hits))
    ensures Context(hits, "text") == Ok(JoinWith(Delimiter, TextParts(hits)))
    decreases |hits|
  {
    if hits != [] {
      TextKeyContext(hits[..|hits| - 1]);
      TextKey(hits[|hits| - 1].record);
    }
  }

  lemma {:induction false} TextPartsAt<S>(hits: seq<Scored<S>>, i: nat)
    requires i < |hits|
    ensures TextParts(hits)[i] == Part(hits[i].record, hits[i].record.text)
    decreases |hits|
  {
    var k := |hits| - 1;
    if i < k {
      TextPartsAt(hits[..k], i);
      assert hits[..k][i] == hits[i];
    }
  }

  // ---------------------------------------------------------------------------
  // used_secs: sorted(set of section ids)

  /** Python's `<` on strings: code point by code point, a proper prefix first. */
  predicate StrLess(a: string, b: string)
    decreases |a|
  {
    if a == [] then b != []
    else if b == [] then false
    else if a[0] != b[0] then a[0] < b[0]
    else StrLess(a[1..], b[1..])
  }

  lemma {:induction false} StrLessIrreflexive(a: string)
    ensures !StrLess(a, a)
    decreases |a|
  {
    if a != [] {
      StrLessIrreflexive(a[1..]);
    }
  }

  lemma {:induction false} StrLessTransitive(a: string, b: string, c: string)
    requires StrLess(a, b) && StrLess(b, c)
    ensures StrLess(a, c)
    decreases |a|
  {
    if a != [] && b != [] && c != [] && a[0] == b[0] && b[0] == c[0] {
      StrLessTransitive(a[1..], b[1..], c[1..]);
    }
  }

  lemma {:induction false} StrLessTotal(a: string, b: string)
    requires a != b
    ensures StrLess(a, b) || StrLess(b, a)
    decreases |a|
  {
    if a != [] && b != [] && a[0] == b[0] {
      assert a == [a[0]] + a[1..] && b == [b[0]] + b[1..];
      StrLessTotal(a[1..], b[1..]);
    }
  }

  /** Each element is below the next: sorted, and (by `StrictlySorted`) without repeats. */
  predicate Increasing(s: seq<string>) {
    forall i | 0 <= i < |s| - 1 :: StrLess(s[i], s[i + 1])
  }

  /** Inserts `x` into an increasing list unless it is already there. */
  function InsertId(x: string, s: seq<string>): (r: seq<string>)
    ensures r != [] && (r[0] == x || (s != [] && r[0] == s[0]))
    decreases |s|
  {
    if s == [] then [x]
    else if x == s[0] then s
    else if StrLess(x, s[0]) then [x] + s
    else [s[0]] + InsertId(x, s[1..])
  }

  lemma {:induction false} InsertIdFacts(x: string, s: seq<string>)
    requires Increasing(s)
    ensures Increasing(InsertId(x, s))
    ensures forall y :: y in InsertId(x, s) <==> y == x || y in s
    decreases |s|
  {
    if s != [] && x != s[0] && !StrLess(x, s[0]) {
      var t := s[1..];
      assert Increasing(t) by {
        forall i | 0 <= i < |t| - 1 ensures StrLess(t[i], t[i + 1]) {
          assert t[i] == s[i + 1] && t[i + 1] == s[i + 2];
        }
      }
      InsertIdFacts(x, t);
      StrLessTotal(x, s[0]);
      var r := InsertId(x, s);
      var rt := InsertId(x, t);
      assert r == [s[0]] + rt;
      forall i | 0 <= i < |r| - 1 ensures StrLess(r[i], r[i + 1]) {
        if i == 0 {
          assert r[1] == rt[0];
          if rt[0] != x {
            assert t != [] && rt[0] == t[0] == s[1];
          }
        } else {
          assert r[i] == rt[i - 1] && r[i + 1] == rt[i];
        }
      }
      assert s == [s[0]] + t;
    }
  }

  /** `sorted({h["section_id"] for h in hits})` */
  function UsedSections<S>(hits: seq<Scored<S>>): seq<string>
    decreases |hits|
  {
    if hits == [] then []
    else InsertId(hits[|hits| - 1].record.sectionId, UsedSections(hits[..|hits| - 1]))
  }

  /** The debug list is increasing and holds exactly the section ids of the hits. */
  lemma {:induction false} UsedSectionsExact<S>(hits: seq<Scored<S>>)
    ensures Increasing(UsedSections(hits))
    ensures forall y :: y in UsedSections(hits) <==> exists i :: 0 <= i < |hits| && hits[i].record.sectionId == y
    decreases |hits|
  {
    if hits != [] {
      var k := |hits| - 1;
      var front := hits[..k];
      UsedSectionsExact(front);
      InsertIdFacts(hits[k].record.sectionId, UsedSections(front));
      forall y ensures y in UsedSections(hits) <==> exists i :: 0 <= i < |hits| && hits[i].record.sectionId == y {
        if y in UsedSections(front) {
          var i :| 0 <= i < |front| && front[i].record.sectionId == y;
          assert hits[i] == front[i];
        }
        if exists i :: 0 <= i < |hits| && hits[i].record.sectionId == y {
          var i :| 0 <= i < |hits| && hits[i].record.sectionId == y;
          if i < k {
            assert front[i] == hits[i];
          }
        }
      }
    }
  }

  /** An increasing list is strictly sorted throughout, so no id appears twice. */
  lemma {:induction false} StrictlySorted(s: seq<string>)
    requires Increasing(s)
    ensures forall i, j | 0 <= i < j < |s| :: StrLess(s[i], s[j]) && s[i] != s[j]
    decreases |s|
  {
    if s != [] {
      var t := s[1..];
      assert Increasing(t) by {
        forall i | 0 <= i < |t| - 1 ensures StrLess(t[i], t[i + 1]) {
          assert t[i] == s[i + 1] && t[i + 1] == s[i + 2];
        }
      }
      StrictlySorted(t);
      forall i, j | 0 <= i < j < |s| ensures StrLess(s[i], s[j]) && s[i] != s[j] {
        if i == 0 {
          if j > 1 {
            assert t[0] == s[1] && t[j - 1] == s[j];
            StrLessTransitive(s[0], s[1], s[j]);
          }
        } else {
          assert t[i - 1] == s[i] && t[j - 1] == s[j];
        }
        StrLessIrreflexive(s[i]);
      }
    }
  }

  // ---------------------------------------------------------------------------
  // main: the input loop

  /** Each question is searched with `k=6`. */
  const TopK: nat := 6

  /** One answered question: what is printed for it. */
  datatype Turn = Turn(question: string, answer: string, usedSections: string)

  /** How the console ends: `[bye]` (end of input, interrupt, `exit`/`quit`) or an exception. */
  datatype End = Bye | Crash(error: ChatError)

  datatype Session = Session(turns: seq<Turn>, end: End)

  /** `q.lower() in {"exit", "quit"}` */
  predicate IsExit(q: string) {
    Lower(q) == "exit" || Lower(q) == "quit"
  }

  function Extend(turns: seq<Turn>, s: Session): Session {
    Session(turns + s.turns, s.end)
  }

  /**
   * The console run on the input `lines` (the end of the sequence is end of input):
   * blank lines are skipped, `exit`/`quit` stops, every other line is answered;
   * `search(q, TopK)` is the question's search result and `ask(q, context)` the
   * local model's reply.
   */
  function ChatRun<S>(lines: seq<string>, metadata: seq<ChunkRecord>,
                      search: (string, nat) -> seq<Hit<S>>, ask: (string, string) -> string): Session
    decreases |lines|
  {
    if lines == [] then Session([], Bye)
    else
      var q := Strip(lines[0]);
      if q == [] then ChatRun(lines[1..], metadata, search, ask)
      else if IsExit(q) then Session([], Bye)
      else
        match Hits(metadata, search(q, TopK))
        case Err(e) => Session([], Crash(e))
        case Ok(hits) =>
          match Context(hits, "content")
          case Err(e) => Session([], Crash(e))
          case Ok(context) =>
            var t := Turn(q, ask(q, context), JoinWith(", ", UsedSections(hits)));
            Extend([t], ChatRun(lines[1..], metadata, search, ask))
  }

  /** The `while True` loop of `main`. */
  method ChatLoop<S>(lines: seq<string>, metadata: seq<ChunkRecord>,
                     search: (string, nat) -> seq<Hit<S>>, ask: (string, string) -> string)
    returns (turns: seq<Turn>, end: End)
    ensures Session(turns, end) == ChatRun(lines, metadata, search, ask)
  {
    turns := [];
    var i := 0;
    while true
      invariant 0 <= i <= |lines|
      invariant ChatRun(lines, metadata, search, ask) == Extend(turns, ChatRun(lines[i..], metadata, search, ask))
      decreases |lines| - i
    {
      if i == |lines| {
        end := Bye;
        break;
      }
      assert lines[i..][1..] == lines[i + 1..];
      var q := Strip(lines[i]);
      i := i + 1;
      if q == [] {
        continue;
      }
      if IsExit(q) {
        end := Bye;
        break;
      }
      var hits := Retrieve(metadata, search(q, TopK));
      if hits.Err? {
        end := Crash(hits.error);
        break;
      }
      var context := BuildContext(hits.value);
      if context.Err? {
        end := Crash(context.error);
        break;
      }
      var answer := ask(q, context.value);
      var usedSecs := UsedSections(hits.value);
      var t := Turn(q, answer, JoinWith(", ", usedSecs));
      assert turns + ([t] + ChatRun(lines[i..], metadata, search, ask).turns)
        == (turns + [t]) + ChatRun(lines[i..], metadata, search, ask).turns;
      turns := turns + [t];
    }
  }

  /** Every answered question is a stripped, non-blank line that is not `exit` or `quit`. */
  lemma {:induction false} TurnsAreQuestions<S>(lines: seq<string>, metadata: seq<ChunkRecord>,
                                                search: (string, nat) -> seq<Hit<S>>, ask: (string, string) -> string)
    ensures forall t | t in ChatRun(lines, metadata, search, ask).turns ::
      t.question != [] && Trimmed(t.question) && !IsExit(t.question)
    decreases |lines|
  {
    if lines != [] {
      TurnsAreQuestions(lines[1..], metadata, search, ask);
      StripResultTrimmed(lines[0]);
    }
  }

  /** A blank line changes nothing and reaches neither the search nor the model. */
  lemma BlankLineSkipped<S>(l: string, rest: seq<string>, metadata: seq<ChunkRecord>,
                            search: (string, nat) -> seq<Hit<S>>, ask: (string, string) -> string)
    requires AllSpace(l)
    ensures ChatRun([l] + rest, metadata, search, ask) == ChatRun(rest, metadata, search, ask)
  {
    StripEmptyIff(l);
    assert ([l] + rest)[1..] == rest;
  }

  /** `exit` or `quit`, in any letter case and with surrounding blanks, ends the console at once. */
  lemma ExitStops<S>(l: string, rest: seq<string>, metadata: seq<ChunkRecord>,
                     search: (string, nat) -> seq<Hit<S>>, ask: (string, string) -> string)
    requires IsExit(Strip(l))
    ensures ChatRun([l] + rest, metadata, search, ask) == Session([], Bye)
  {
  }

  /**
   * As written, no question is ever answered once the search returns anything: the
   * hits either raise `IndexError` or reach `build_context`, which raises `KeyError`.
   */
  lemma {:induction false} AsWrittenNeverAnswers<S>(lines: seq<string>, metadata: seq<ChunkRecord>,
                                                    search: (string, nat) -> seq<Hit<S>>,
                                                    ask: (string, string) -> string)
    requires forall q :: search(q, TopK) != []
    ensures ChatRun(lines, metadata, search, ask).turns == []
    ensures var e := ChatRun(lines, metadata, search, ask).end;
      e == Bye || e == Crash(KeyError("content")) || (e.Crash? && e.error.IndexError?)
    decreases |lines|
  {
    if lines != [] {
      var q := Strip(lines[0]);
      if q == [] {
        AsWrittenNeverAnswers(lines[1..], metadata, search, ask);
      } else if !IsExit(q) {
        var pairs := search(q, TopK);
        var r := Hits(metadata, pairs);
        HitsExact(metadata, pairs);
        if r.Ok? {
          ContentKeyFails(r.value);
          assert r.value != [];
        }
      }
    }
  }
}
