/**
 * The retrieval post-processing and prompt assembly of the question-answering
 * pipeline. The nearest-neighbour search is an input (its `(score, row)` pairs,
 * best first) and the chat model is a function parameter.
 */
module RagPipeline {
  import opened Results
  import opened PyStr
  import opened Metadata

  /** One `(score, idx)` pair of the search; `idx` is -1 where the index had too few rows. */
  datatype Hit<S> = Hit(score: S, idx: int)

  // ---------------------------------------------------------------------------
  // retrieve_top_sections

  predicate InRange(idx: int, n: nat) {
    0 <= idx < n
  }

  /** The kept results: in-range rows, copied out of `entries` with their scores, in rank order. */
  function TopSections<S>(entries: seq<ChunkRecord>, pairs: seq<Hit<S>>): seq<Scored<S>>
    decreases |pairs|
  {
    if pairs == [] then []
    else
      var p := pairs[|pairs| - 1];
      TopSections(entries, pairs[..|pairs| - 1])
        + (if InRange(p.idx, |entries|) then [Scored(entries[p.idx], p.score)] else [])
  }

  /** The loop of `retrieve_top_sections`, after the search. */
  method RetrieveTopSections<S>(entries: seq<ChunkRecord>, pairs: seq<Hit<S>>)
    returns (results: seq<Scored<S>>)
    ensures results == TopSections(entries, pairs)
  {
    results := [];
    for i := 0 to |pairs|
      invariant results == TopSections(entries, pairs[..i])
    {
      assert pairs[..i + 1][..i] == pairs[..i];
      var score, idx := pairs[i].score, pairs[i].idx;
      if idx < 0 || idx >= |entries| {
        continue;
      }
      var entry := entries[idx];
      results := results + [Scored(entry, score)];
    }
    assert pairs[..|pairs|] == pairs;
  }

  /** The positions of the pairs whose row is in range, in order. */
  function KeptPositions<S>(n: nat, pairs: seq<Hit<S>>): seq<nat>
    decreases |pairs|
  {
    if pairs == [] then []
    else
      var k := |pairs| - 1;
      KeptPositions(n, pairs[..k]) + (if InRange(pairs[k].idx, n) then [k] else [])
  }

  /**
   * The kept positions are positions of in-range pairs, strictly increasing, and every
   * in-range pair's position is among them.
   */
  lemma {:induction false} KeptPositionsExact<S>(n: nat, pairs: seq<Hit<S>>)
    ensures forall i | 0 <= i < |KeptPositions(n, pairs)| :: KeptPositions(n, pairs)[i] < |pairs|
    ensures forall i | 0 <= i < |KeptPositions(n, pairs)| ::
      InRange(pairs[KeptPositions(n, pairs)[i]].idx, n)
    ensures forall i, j | 0 <= i < j < |KeptPositions(n, pairs)| ::
      KeptPositions(n, pairs)[i] < KeptPositions(n, pairs)[j]
    ensures forall j | 0 <= j < |pairs| :: InRange(pairs[j].idx, n) ==> j in KeptPositions(n, pairs)
    decreases |pairs|
  {
    if pairs != [] {
      var k := |pairs| - 1;
      var front := pairs[..k];
      KeptPositionsExact(n, front);
      var ks0 := KeptPositions(n, front);
      var ks := KeptPositions(n, pairs);
      assert ks == ks0 + (if InRange(pairs[k].idx, n) then [k] else []);
      forall i | 0 <= i < |ks0| ensures ks[i] == ks0[i] && ks0[i] < k && pairs[ks0[i]] == front[ks0[i]] {
      }
      forall j | 0 <= j < |pairs| && InRange(pairs[j].idx, n) ensures j in ks {
        if j < k {
          assert front[j] == pairs[j];
          assert j in ks0;
        } else {
          assert ks[|ks| - 1] == k;
        }
      }
    }
  }

  /** Result `i` is the entry at the row of the pair at kept position `i`, with that pair's score. */
  lemma {:induction false} TopSectionsAt<S>(entries: seq<ChunkRecord>, pairs: seq<Hit<S>>)
    ensures |TopSections(entries, pairs)| == |KeptPositions(|entries|, pairs)|
    ensures forall i | 0 <= i < |KeptPositions(|entries|, pairs)| ::
      KeptPositions(|entries|, pairs)[i] < |pairs|
      && InRange(pairs[KeptPositions(|entries|, pairs)[i]].idx, |entries|)
      && TopSections(entries, pairs)[i]
         == Scored(entries[pairs[KeptPositions(|entries|, pairs)[i]].idx],
                   pairs[KeptPositions(|entries|, pairs)[i]].score)
    decreases |pairs|
  {
    KeptPositionsExact(|entries|, pairs);
    if pairs != [] {
      var k := |pairs| - 1;
      var front := pairs[..k];
      TopSectionsAt(entries, front);
      KeptPositionsExact(|entries|, front);
      var ks0 := KeptPositions(|entries|, front);
      var ks := KeptPositions(|entries|, pairs);
      var r0 := TopSections(entries, front);
      var r := TopSections(entries, pairs);
      var last := pairs[k];
      assert ks == ks0 + (if InRange(last.idx, |entries|) then [k] else []);
      assert r == r0 + (if InRange(last.idx, |entries|) then [Scored(entries[last.idx], last.score)] else []);
      forall i | 0 <= i < |ks0| ensures ks[i] == ks0[i] && r[i] == r0[i] && ks0[i] < k && pairs[ks0[i]] == front[ks0[i]] {
      }
    }
  }

  /**
   * Result `i` is the pair at kept position `i`: the entry of its row and its score.
   * The kept positions are strictly increasing (rank order is preserved) and are
   * exactly the positions whose row is in range.
   */
  lemma TopSectionsExact<S>(entries: seq<ChunkRecord>, pairs: seq<Hit<S>>)
    ensures var ks := KeptPositions(|entries|, pairs);
      var r := TopSections(entries, pairs);
      |r| == |ks|
      && (forall i | 0 <= i < |ks| ::
            ks[i] < |pairs| && InRange(pairs[ks[i]].idx, |entries|)
            && r[i] == Scored(entries[pairs[ks[i]].idx], pairs[ks[i]].score))
      && (forall i, j | 0 <= i < j < |ks| :: ks[i] < ks[j])
      && (forall j | 0 <= j < |pairs| :: InRange(pairs[j].idx, |entries|) ==> j in ks)
  {
    KeptPositionsExact(|entries|, pairs);
    TopSectionsAt(entries, pairs);
  }

  /** No more results than pairs (and so no more than the `k` the search was asked for). */
  lemma {:induction false} TopSectionsBound<S>(entries: seq<ChunkRecord>, pairs: seq<Hit<S>>, k: nat)
    requires |pairs| <= k
    ensures |TopSections(entries, pairs)| <= |pairs| <= k
    decreases |pairs|
  {
    if pairs != [] {
      TopSectionsBound(entries, pairs[..|pairs| - 1], k);
    }
  }

  /** When every row is in range, every pair gives a result, position for position. */
  lemma {:induction false} TopSectionsAllInRange<S>(entries: seq<ChunkRecord>, pairs: seq<Hit<S>>)
    requires forall j | 0 <= j < |pairs| :: 0 <= pairs[j].idx < |entries|
    ensures var r := TopSections(entries, pairs);
      |r| == |pairs|
      && forall j | 0 <= j < |pairs| :: r[j] == Scored(entries[pairs[j].idx], pairs[j].score)
    decreases |pairs|
  {
    if pairs != [] {
      var k := |pairs| - 1;
      var front := pairs[..k];
      assert forall j | 0 <= j < |front| :: front[j] == pairs[j];
      TopSectionsAllInRange(entries, front);
      var r0 := TopSections(entries, front);
      var r := TopSections(entries, pairs);
      assert r == r0 + [Scored(entries[pairs[k].idx], pairs[k].score)];
      forall j | 0 <= j < |pairs| ensures r[j] == Scored(entries[pairs[j].idx], pairs[j].score) {
        if j < k {
          assert r[j] == r0[j];
        }
      }
    }
  }

  // ---------------------------------------------------------------------------
  // build_context_block

  /** `f"[Section {sid}, pages {p_start}–{p_end}]"`, with an en dash. */
  function Header(rec: ChunkRecord): string {
    "[Section " + rec.sectionId + ", pages " + IntToDecimal(rec.pageStart) + "\U{2013}"
      + IntToDecimal(rec.pageEnd) + "]"
  }

  /** One item of the block: its header, a newline, its stripped text. */
  function Segment<S>(s: Scored<S>): string {
    Header(s.record) + "\n" + Strip(s.record.text)
  }

  /** The formatted items, one per retrieved item, in input order. */
  function Segments<S>(sections: seq<Scored<S>>): (r: seq<string>)
    ensures |r| == |sections|
  {
    seq(|sections|, i requires 0 <= i < |sections| => Segment(sections[i]))
  }

  /** The context block: the segments, in input order, separated by blank lines. */
  function ContextBlock<S>(sections: seq<Scored<S>>): string {
    JoinWith("\n\n", Segments(sections))
  }

  method BuildContextBlock<S>(sections: seq<Scored<S>>) returns (block: string)
    ensures block == ContextBlock(sections)
  {
    var parts: seq<string> := [];
    for i := 0 to |sections|
      invariant |parts| == i
      invariant forall j | 0 <= j < i :: parts[j] == Segment(sections[j])
    {
      var s := sections[i];
      var header := Header(s.record);
      var part := header + "\n" + Strip(s.record.text);
      parts := parts + [part];
    }
    assert parts == Segments(sections);
    block := JoinWith("\n\n", parts);
  }

  /** No items, empty block; one item, its segment alone. */
  lemma ContextBlockSmall<S>(sections: seq<Scored<S>>)
    ensures sections == [] ==> ContextBlock(sections) == ""
    ensures |sections| == 1 ==> ContextBlock(sections) == Segment(sections[0])
  {
  }

  /** One more item adds a blank line and its segment at the end of the block. */
  lemma ContextBlockAppend<S>(sections: seq<Scored<S>>, s: Scored<S>)
    requires sections != []
    ensures ContextBlock(sections + [s]) == ContextBlock(sections) + "\n\n" + Segment(s)
  {
    var all := sections + [s];
    assert Segments(all) == Segments(sections) + [Segment(s)];
    JoinAppend("\n\n", Segments(sections), [Segment(s)]);
  }

  // ---------------------------------------------------------------------------
  // answer_question

  /** One `sources` entry. */
  datatype Source<S> = Source(sectionId: string, pageStart: int, pageEnd: int, score: S)

  /** The `sources` list: the id, page range and score of each retrieved item, in order. */
  function Sources<S>(sections: seq<Scored<S>>): (r: seq<Source<S>>)
    ensures |r| == |sections|
  {
    seq(|sections|, i requires 0 <= i < |sections| =>
      Source(sections[i].record.sectionId, sections[i].record.pageStart,
             sections[i].record.pageEnd, sections[i].score))
  }

  const SystemPrompt: string :=
    "You are an assistant for NJDOT's Construction & Materials division. "
    + "You answer questions strictly using the 2019 Standard Specifications "
    + "for Road and Bridge Construction. "
    + "Always:\n"
    + "1) Answer in clear, concise language.\n"
    + "2) Explicitly cite the relevant spec section IDs and page ranges.\n"
    + "3) If the answer is not clearly supported by the specs, say you are unsure "
    + "and suggest where a human should look.\n"

  /** The user message: the question, then the context block, then the instruction. */
  function UserContent(question: string, context: string): string {
    "User question:\n" + question + "\n\n"
      + "Relevant spec sections and chunks:\n" + context + "\n\n"
      + "Using ONLY the information above, answer the question and cite specific sections/pages "
      + "from the 2019 Standard Specifications."
  }

  datatype Message = Message(role: string, content: string)

  function Messages(question: string, context: string): seq<Message> {
    [Message("system", SystemPrompt), Message("user", UserContent(question, context))]
  }

  /** The chat model's failure (an HTTP error or a missing configuration). */
  datatype ChatError = ChatError(reason: string)

  /** The returned dictionary: the answer, the sources, and the debug part `{retrieved, k}`. */
  datatype Answer<S> = Answer(answer: string, sources: seq<Source<S>>, retrieved: seq<Scored<S>>, k: int)

  /**
   * `answer_question`: retrieve, build the context block, ask the chat model, and
   * assemble the result. `pairs` is the search's answer for the question and `k`;
   * a failure of the chat model propagates and no result is built.
   */
  method AnswerQuestion<S>(question: string, k: int, entries: seq<ChunkRecord>, pairs: seq<Hit<S>>,
                           chat: seq<Message> -> Result<string, ChatError>)
    returns (r: Result<Answer<S>, ChatError>)
    ensures var top := TopSections(entries, pairs);
      var reply := chat(Messages(question, ContextBlock(top)));
      (r.Err? <==> reply.Err?)
      && (r.Err? ==> r.error == reply.error)
      && (r.Ok? ==> r.value == Answer(reply.value, Sources(top), top, k))
  {
    var sections := RetrieveTopSections(entries, pairs);
    var context := BuildContextBlock(sections);
    var messages := [Message("system", SystemPrompt), Message("user", UserContent(question, context))];
    var answer :- chat(messages);
    var sources := Sources(sections);
    return Ok(Answer(answer, sources, sections, k));
  }

  /**
   * The sources of an answer follow the retrieved results one for one and carry
   * exactly the section id, page range and score of the chunk each came from.
   */
  lemma SourcesOfTop<S>(entries: seq<ChunkRecord>, pairs: seq<Hit<S>>, i: nat)
    requires i < |TopSections(entries, pairs)|
    ensures var ks := KeptPositions(|entries|, pairs);
      i < |ks| && ks[i] < |pairs|
      && var p := pairs[ks[i]];
      InRange(p.idx, |entries|)
      && Sources(TopSections(entries, pairs))[i]
         == Source(entries[p.idx].sectionId, entries[p.idx].pageStart, entries[p.idx].pageEnd, p.score)
  {
    TopSectionsExact(entries, pairs);
  }
}
