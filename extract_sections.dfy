/**
 * Section segmentation (the loop and final flush of `main` in src/extract_sections.py).
 *
 * The three heading patterns are not interpreted here: each page carries the matches
 * each pattern found on it, as (offset, captured code) pairs in the order `finditer`
 * reports them. The loop pools them, sorts them by offset, and runs a one-cursor state
 * machine over the page stream.
 */
module ExtractSections {
  import opened Results

  /** One heading match: its character offset in the page text and the captured code. */
  datatype Heading = Heading(start: nat, code: string)

  /** A page record, with the matches of the patterns H1, H2 and H3 on its text. */
  datatype Page = Page(number: int, text: string, h1: seq<Heading>, h2: seq<Heading>, h3: seq<Heading>)

  /** An emitted section record. */
  datatype Section = Section(sectionId: string, pageStart: int, pageEnd: int, text: string)

  /** The open section: a record that has no `page_end` yet. */
  datatype OpenSection = OpenSection(sectionId: string, pageStart: int, text: string)

  /** The loop's state: the sections emitted so far and the open section, if any. */
  datatype Cursor = Cursor(sections: seq<Section>, current: Option<OpenSection>)

  // ---------------------------------------------------------------------------
  // Pooling and ordering the heading matches of one page

  predicate SortedByStart(ms: seq<Heading>) {
    forall i, j | 0 <= i < j < |ms| :: ms[i].start <= ms[j].start
  }

  /** Inserts `m` before the first element that does not start before it (keeps equal starts in order). */
  function InsertByStart(m: Heading, ms: seq<Heading>): (r: seq<Heading>)
    requires SortedByStart(ms)
    ensures SortedByStart(r)
    ensures multiset(r) == multiset(ms) + multiset{m}
    decreases |ms|
  {
    if ms == [] || m.start <= ms[0].start then
      SortedCons(m, ms);
      [m] + ms
    else
      SortedTail(ms);
      var rest := InsertByStart(m, ms[1..]);
      assert ms == [ms[0]] + ms[1..];
      InsertAfterFirst(m, ms, rest);
      [ms[0]] + rest
  }

  lemma SortedCons(m: Heading, ms: seq<Heading>)
    requires SortedByStart(ms) && (ms == [] || m.start <= ms[0].start)
    ensures SortedByStart([m] + ms)
  {
    var r := [m] + ms;
    forall i, j | 0 <= i < j < |r| ensures r[i].start <= r[j].start {
      assert r[j] == ms[j - 1];
      if i > 0 {
        assert r[i] == ms[i - 1];
      }
    }
  }

  lemma InsertAfterFirst(m: Heading, ms: seq<Heading>, rest: seq<Heading>)
    requires ms != [] && SortedByStart(ms) && ms[0].start < m.start
    requires SortedByStart(rest) && multiset(rest) == multiset(ms[1..]) + multiset{m}
    ensures SortedByStart([ms[0]] + rest)
  {
    forall k | 0 <= k < |rest| ensures ms[0].start <= rest[k].start {
      assert rest[k] in multiset(rest);
      if rest[k] != m {
        assert rest[k] in multiset(ms[1..]);
        var j :| 0 <= j < |ms[1..]| && ms[1..][j] == rest[k];
        assert ms[j + 1] == rest[k];
      }
    }
    var r := [ms[0]] + rest;
    forall i, j | 0 <= i < j < |r| ensures r[i].start <= r[j].start {
      if i == 0 {
        assert r[j] == rest[j - 1];
      } else {
        assert r[i] == rest[i - 1] && r[j] == rest[j - 1];
      }
    }
  }

  /** `sorted(ms, key=lambda m: m.start())`, a stable insertion sort. */
  function SortByStart(ms: seq<Heading>): (r: seq<Heading>)
    ensures SortedByStart(r)
    ensures multiset(r) == multiset(ms)
    decreases |ms|
  {
    if ms == [] then []
    else
      assert ms == [ms[0]] + ms[1..];
      InsertByStart(ms[0], SortByStart(ms[1..]))
  }

  /** The matches at offset `v`, in their order in `ms`. */
  function AtOffset(ms: seq<Heading>, v: nat): seq<Heading>
    decreases |ms|
  {
    if ms == [] then []
    else (if ms[0].start == v then [ms[0]] else []) + AtOffset(ms[1..], v)
  }

  lemma AtOffsetCons(x: Heading, ms: seq<Heading>, v: nat)
    ensures AtOffset([x] + ms, v) == (if x.start == v then [x] else []) + AtOffset(ms, v)
  {
    assert ([x] + ms)[1..] == ms;
  }

  lemma SortedTail(ms: seq<Heading>)
    requires ms != [] && SortedByStart(ms)
    ensures SortedByStart(ms[1..])
  {
    forall i, j | 0 <= i < j < |ms| - 1 ensures ms[1..][i].start <= ms[1..][j].start {
      assert ms[1..][i] == ms[i + 1] && ms[1..][j] == ms[j + 1];
    }
  }

  lemma {:induction false} InsertAtOffset(m: Heading, ms: seq<Heading>, v: nat)
    requires SortedByStart(ms)
    ensures AtOffset(InsertByStart(m, ms), v)
      == (if m.start == v then [m] else []) + AtOffset(ms, v)
    decreases |ms|
  {
    if ms == [] || m.start <= ms[0].start {
      AtOffsetCons(m, ms, v);
    } else {
      SortedTail(ms);
      var rest := InsertByStart(m, ms[1..]);
      InsertAtOffset(m, ms[1..], v);
      AtOffsetCons(ms[0], rest, v);
      AtOffsetCons(ms[0], ms[1..], v);
      assert [ms[0]] + ms[1..] == ms;
    }
  }

  /**
   * The sort is stable: the matches at any one offset keep their pooled order (H3 before
   * H2 before H1, and each pattern's matches in `finditer` order).
   */
  lemma {:induction false} SortStable(ms: seq<Heading>, v: nat)
    ensures AtOffset(SortByStart(ms), v) == AtOffset(ms, v)
    decreases |ms|
  {
    if ms != [] {
      SortStable(ms[1..], v);
      InsertAtOffset(ms[0], SortByStart(ms[1..]), v);
    }
  }

  /** The pooled matches of a page (H3, then H2, then H1), ordered by offset. */
  function Headings(p: Page): (r: seq<Heading>)
    ensures SortedByStart(r)
    ensures multiset(r) == multiset(p.h3 + p.h2 + p.h1)
    ensures |r| == |p.h1| + |p.h2| + |p.h3|
  {
    var r := SortByStart(p.h3 + p.h2 + p.h1);
    assert |multiset(r)| == |r|;
    r
  }

  // ---------------------------------------------------------------------------
  // The state machine, one step at a time

  /** `current["page_end"] = page`: the open section becomes a record. */
  function Close(o: OpenSection, page: int): Section {
    Section(o.sectionId, o.pageStart, page, o.text)
  }

  /** The sections a heading on `page` closes: the open one, if any. */
  function Closed(current: Option<OpenSection>, page: int): seq<Section> {
    if current.Some? then [Close(current.value, page)] else []
  }

  /** One heading: close the open section at `page`, open a new one with empty text. */
  function OnHeading(c: Cursor, h: Heading, page: int): Cursor {
    Cursor(c.sections + Closed(c.current, page), Some(OpenSection(h.code, page, "")))
  }

  function OnHeadings(c: Cursor, hs: seq<Heading>, page: int): Cursor
    decreases |hs|
  {
    if hs == [] then c
    else OnHeading(OnHeadings(c, hs[..|hs| - 1], page), hs[|hs| - 1], page)
  }

  /** `current["text"] += " " + text`, when a section is open. */
  function OnText(c: Cursor, text: string): Cursor {
    if c.current.Some? then
      Cursor(c.sections, Some(c.current.value.(text := c.current.value.text + " " + text)))
    else c
  }

  function OnPage(c: Cursor, p: Page): Cursor {
    OnText(OnHeadings(c, Headings(p), p.number), p.text)
  }

  function Feed(c: Cursor, pages: seq<Page>): Cursor
    decreases |pages|
  {
    if pages == [] then c
    else OnPage(Feed(c, pages[..|pages| - 1]), pages[|pages| - 1])
  }

  const Start := Cursor([], None)

  /** The sections of the whole stream, after the final flush at the last page's number. */
  function Segmentation(pages: seq<Page>): seq<Section> {
    if pages == [] then []
    else
      var c := Feed(Start, pages);
      c.sections + Closed(c.current, pages[|pages| - 1].number)
  }

  /** The number of heading matches on all pages. */
  function HeadingCount(pages: seq<Page>): nat
    decreases |pages|
  {
    if pages == [] then 0
    else
      var p := pages[|pages| - 1];
      HeadingCount(pages[..|pages| - 1]) + |p.h1| + |p.h2| + |p.h3|
  }

  // ---------------------------------------------------------------------------
  // The loop of `main`

  /**
   * The inner loop over one page's ordered matches: each heading closes the open
   * section at `page` and opens a new one with empty text.
   */
  method OpenHeadings(sections0: seq<Section>, current0: Option<OpenSection>, matches: seq<Heading>, page: int)
    returns (sections: seq<Section>, current: Option<OpenSection>)
    ensures Cursor(sections, current) == OnHeadings(Cursor(sections0, current0), matches, page)
  {
    sections, current := sections0, current0;
    for j := 0 to |matches|
      invariant Cursor(sections, current) == OnHeadings(Cursor(sections0, current0), matches[..j], page)
    {
      assert matches[..j + 1][..j] == matches[..j];
      var secId := matches[j].code;
      if current.Some? {
        sections := sections + [Close(current.value, page)];
      }
      current := Some(OpenSection(secId, page, ""));
    }
    assert matches[..|matches|] == matches;
  }

  /**
   * The segmentation loop: for each page, every pooled heading closes the open section
   * at this page and opens a new one; then the page text is appended to the open
   * section. At the end the open section is closed at the last page's number.
   */
  method Segment(pages: seq<Page>) returns (sections: seq<Section>)
    ensures sections == Segmentation(pages)
    ensures |sections| == HeadingCount(pages)
  {
    sections := [];
    var current: Option<OpenSection> := None;
    for i := 0 to |pages|
      invariant Cursor(sections, current) == Feed(Start, pages[..i])
    {
      assert pages[..i + 1][..i] == pages[..i];
      var page, text := pages[i].number, pages[i].text;
      var matches := Headings(pages[i]);
      if matches != [] {
        sections, current := OpenHeadings(sections, current, matches, page);
      }
      if current.Some? {
        current := Some(current.value.(text := current.value.text + " " + text));
      }
    }
    assert pages[..|pages|] == pages;
    if current.Some? {
      sections := sections + [Close(current.value, pages[|pages| - 1].number)];
    }
    SectionCount(pages);
  }

  // ---------------------------------------------------------------------------
  // Properties of the segmentation

  /** `Closed` yields one record exactly when a section is open. */
  function OpenCount(c: Cursor): nat {
    if c.current.Some? then 1 else 0
  }

  lemma {:induction false} OnHeadingsCount(c: Cursor, hs: seq<Heading>, page: int)
    ensures var c' := OnHeadings(c, hs, page);
      |c'.sections| + OpenCount(c') == |c.sections| + OpenCount(c) + |hs|
      && (c'.current.Some? <==> c.current.Some? || hs != [])
    decreases |hs|
  {
    if hs != [] {
      OnHeadingsCount(c, hs[..|hs| - 1], page);
    }
  }

  lemma {:induction false} FeedCount(pages: seq<Page>)
    ensures var c := Feed(Start, pages);
      |c.sections| + OpenCount(c) == HeadingCount(pages)
      && (c.current.Some? <==> HeadingCount(pages) > 0)
    decreases |pages|
  {
    if pages != [] {
      var p := pages[|pages| - 1];
      FeedCount(pages[..|pages| - 1]);
      OnHeadingsCount(Feed(Start, pages[..|pages| - 1]), Headings(p), p.number);
    }
  }

  /** Every heading match yields exactly one section. */
  lemma SectionCount(pages: seq<Page>)
    ensures |Segmentation(pages)| == HeadingCount(pages)
  {
    FeedCount(pages);
  }

  /** With no heading at all there is no section; otherwise the last one ends at the last page. */
  lemma FinalFlush(pages: seq<Page>)
    ensures HeadingCount(pages) == 0 ==> Segmentation(pages) == []
    ensures HeadingCount(pages) > 0 ==>
      var s := Segmentation(pages); s != [] && s[|s| - 1].pageEnd == pages[|pages| - 1].number
  {
    FeedCount(pages);
  }

  /** Sections opened on one page, one per heading except the last, all with empty text. */
  function Blanks(hs: seq<Heading>, page: int): (r: seq<Section>)
    ensures |r| == |hs|
  {
    seq(|hs|, j requires 0 <= j < |hs| => Section(hs[j].code, page, page, ""))
  }

  /**
   * The headings of one page close the open section at that page; every section they
   * open except the last is emitted at once with empty text and `page_start == page_end
   * == page`; the last one stays open with empty text.
   */
  lemma {:induction false} OnHeadingsShape(c: Cursor, hs: seq<Heading>, page: int)
    requires hs != []
    ensures OnHeadings(c, hs, page) ==
      Cursor(c.sections + Closed(c.current, page) + Blanks(hs[..|hs| - 1], page),
             Some(OpenSection(hs[|hs| - 1].code, page, "")))
    decreases |hs|
  {
    var init := hs[..|hs| - 1];
    if init == [] {
      assert Blanks(init, page) == [];
      assert OnHeadings(c, init, page) == c;
    } else {
      OnHeadingsShape(c, init, page);
      assert init[..|init| - 1] == hs[..|hs| - 2];
      var last := init[|init| - 1];
      assert Blanks(init, page) == Blanks(init[..|init| - 1], page) + [Section(last.code, page, page, "")];
    }
  }

  /**
   * A page with headings: the open section is closed at the page, every section opened
   * on it but the last is emitted with empty text, and the last one stays open holding
   * exactly `" " + text`.
   */
  lemma HeadingPage(c: Cursor, p: Page)
    requires Headings(p) != []
    ensures var hs := Headings(p);
      OnPage(c, p) ==
        Cursor(c.sections + Closed(c.current, p.number) + Blanks(hs[..|hs| - 1], p.number),
               Some(OpenSection(hs[|hs| - 1].code, p.number, " " + p.text)))
  {
    OnHeadingsShape(c, Headings(p), p.number);
    assert "" + " " + p.text == " " + p.text;
  }

  predicate NoHeadings(p: Page) {
    p.h1 == [] && p.h2 == [] && p.h3 == []
  }

  /** `" " + text` for every page, in order. */
  function Absorbed(pages: seq<Page>): string
    decreases |pages|
  {
    if pages == [] then ""
    else Absorbed(pages[..|pages| - 1]) + " " + pages[|pages| - 1].text
  }

  /**
   * Pages without headings emit nothing: each appends `" " + text` to the open section,
   * and when no section is open they are discarded.
   */
  lemma {:induction false} BodyPages(c: Cursor, pages: seq<Page>)
    requires forall i | 0 <= i < |pages| :: NoHeadings(pages[i])
    ensures Feed(c, pages).sections == c.sections
    ensures c.current.None? ==> Feed(c, pages).current.None?
    ensures c.current.Some? ==>
      Feed(c, pages).current == Some(c.current.value.(text := c.current.value.text + Absorbed(pages)))
    decreases |pages|
  {
    if pages != [] {
      var init := pages[..|pages| - 1];
      var p := pages[|pages| - 1];
      BodyPages(c, init);
      assert Headings(p) == [];
      var before := Feed(c, init);
      assert OnHeadings(before, Headings(p), p.number) == before;
      assert Feed(c, pages) == OnText(before, p.text);
      if c.current.Some? {
        var o := c.current.value;
        assert before.current == Some(o.(text := o.text + Absorbed(init)));
        assert o.text + Absorbed(init) + " " + p.text == o.text + (Absorbed(init) + " " + p.text);
        assert Absorbed(pages) == Absorbed(init) + " " + p.text;
      }
    } else if c.current.Some? {
      assert c.current.value.text + "" == c.current.value.text;
    }
  }

  lemma {:induction false} FeedAppend(c: Cursor, a: seq<Page>, b: seq<Page>)
    ensures Feed(c, a + b) == Feed(Feed(c, a), b)
    decreases |b|
  {
    if b == [] {
      assert a + b == a;
    } else {
      assert (a + b)[..|a + b| - 1] == a + b[..|b| - 1];
      assert (a + b)[|a + b| - 1] == b[|b| - 1];
      FeedAppend(c, a, b[..|b| - 1]);
    }
  }

  /** Pages before the first heading leave the output unchanged. */
  lemma PreambleDiscarded(pre: seq<Page>, rest: seq<Page>)
    requires forall i | 0 <= i < |pre| :: NoHeadings(pre[i])
    requires rest != []
    ensures Segmentation(pre + rest) == Segmentation(rest)
  {
    BodyPages(Start, pre);
    FeedAppend(Start, pre, rest);
    assert (pre + rest)[|pre + rest| - 1] == rest[|rest| - 1];
  }

  predicate NonDecreasing(pages: seq<Page>) {
    forall i, j | 0 <= i < j < |pages| :: pages[i].number <= pages[j].number
  }

  /** Page ranges stay within [lo, hi], start before end. */
  predicate Bounded(c: Cursor, lo: int, hi: int) {
    && (forall s | s in c.sections :: lo <= s.pageStart <= s.pageEnd <= hi)
    && (c.current.Some? ==> lo <= c.current.value.pageStart <= hi)
  }

  lemma {:induction false} OnHeadingsBounded(c: Cursor, hs: seq<Heading>, lo: int, hi: int, page: int)
    requires Bounded(c, lo, hi) && hi <= page && lo <= page
    ensures Bounded(OnHeadings(c, hs, page), lo, page)
    decreases |hs|
  {
    if hs == [] {
      assert Bounded(c, lo, page);
    } else {
      OnHeadingsBounded(c, hs[..|hs| - 1], lo, hi, page);
    }
  }

  lemma {:induction false} FeedBounded(pages: seq<Page>)
    requires pages != [] && NonDecreasing(pages)
    ensures Bounded(Feed(Start, pages), pages[0].number, pages[|pages| - 1].number)
    decreases |pages|
  {
    var init := pages[..|pages| - 1];
    var p := pages[|pages| - 1];
    var lo := pages[0].number;
    if init == [] {
      assert Feed(Start, init) == Start;
      assert Bounded(Start, lo, lo);
      OnHeadingsBounded(Start, Headings(p), lo, lo, p.number);
    } else {
      FeedBounded(init);
      OnHeadingsBounded(Feed(Start, init), Headings(p), lo, init[|init| - 1].number, p.number);
    }
  }

  /** Over pages in ascending order, every section starts no later than it ends, within the stream's range. */
  lemma PageRanges(pages: seq<Page>)
    requires NonDecreasing(pages)
    ensures forall s | s in Segmentation(pages) ::
      pages[0].number <= s.pageStart <= s.pageEnd <= pages[|pages| - 1].number
  {
    if pages != [] {
      FeedBounded(pages);
    }
  }
}
