/**
 * Page cleaning (`clean_page_text` in src/parse_pdf.py): drop the running header and
 * footer lines, strip the remaining lines, drop the empty ones, join them with single
 * spaces and collapse whitespace runs.
 */
module ParsePdf {
  import opened PyStr

  /** The running header and footer, matched case-insensitively anywhere in a line. */
  const HeaderPattern := "2019 STANDARD SPECIFICATIONS"
  const FooterPattern := "NEW JERSEY DEPARTMENT OF TRANSPORTATION"

  predicate IsHeaderOrFooter(line: string) {
    ContainsFold(line, HeaderPattern) || ContainsFold(line, FooterPattern)
  }

  /** No two whitespace characters in a row. */
  predicate NoSpaceRun(s: string) {
    forall i | 0 <= i < |s| - 1 :: !(IsSpace(s[i]) && IsSpace(s[i + 1]))
  }

  /**
   * `re.sub(r"\s{2,}", " ", s)`: every maximal run of two or more whitespace characters
   * becomes one space; a lone whitespace character is kept as it is.
   */
  function CollapseWhitespace(s: string): string
    decreases |s|
  {
    if s == [] then []
    else if !IsSpace(s[0]) then
      var w := Word(s);
      w + CollapseWhitespace(s[|w|..])
    else
      var sp := SpaceRun(s);
      (if |sp| >= 2 then " " else sp) + CollapseWhitespace(s[|sp|..])
  }

  /**
   * The collapsed text is empty exactly when the input is, starts and ends with
   * whitespace exactly when the input does, has no two whitespace characters in a row,
   * and holds no character that is not in the input, apart from the single space.
   */
  lemma {:induction false} CollapseWhitespaceFacts(s: string)
    ensures CollapseFacts(s, CollapseWhitespace(s))
    decreases |s|
  {
    if s == [] {
    } else if !IsSpace(s[0]) {
      var w := Word(s);
      CollapseWhitespaceFacts(s[|w|..]);
      CollapseWordCase(s, w, s[|w|..], CollapseWhitespace(s[|w|..]));
    } else {
      var sp := SpaceRun(s);
      CollapseWhitespaceFacts(s[|sp|..]);
      CollapseSpaceCase(s, sp, if |sp| >= 2 then " " else sp, s[|sp|..], CollapseWhitespace(s[|sp|..]));
    }
  }

  /** The facts `CollapseWhitespace` promises, for a result `t` of input `rest`. */
  predicate CollapseFacts(rest: string, t: string) {
    && (t == [] <==> rest == [])
    && (rest != [] ==> (IsSpace(t[0]) <==> IsSpace(rest[0])))
    && (rest != [] ==> (IsSpace(t[|t| - 1]) <==> IsSpace(rest[|rest| - 1])))
    && NoSpaceRun(t)
    && (forall c | c in t :: c in rest || c == ' ')
  }

  lemma CollapseWordCase(s: string, w: string, rest: string, t: string)
    requires s != [] && !IsSpace(s[0]) && w == Word(s) && rest == s[|w|..]
    requires rest == [] || IsSpace(rest[0])
    requires CollapseFacts(rest, t)
    ensures CollapseFacts(s, w + t)
  {
    assert s == w + rest;
    CollapseWordJoin(w, t);
    CollapseLast(s, w, rest, t);
    CharsFrom(s, w, rest, t, ' ');
  }

  lemma CollapseSpaceCase(s: string, sp: string, lead: string, rest: string, t: string)
    requires s != [] && IsSpace(s[0]) && sp == SpaceRun(s) && rest == s[|sp|..]
    requires lead == if |sp| >= 2 then " " else sp
    requires rest == [] || !IsSpace(rest[0])
    requires CollapseFacts(rest, t)
    ensures CollapseFacts(s, lead + t)
  {
    assert s == sp + rest;
    assert |lead| == 1 && IsSpace(lead[0]);
    CollapseSpaceJoin(lead, t);
    CollapseLast(s, lead, rest, t);
    if |sp| >= 2 {
      CharsFrom(s, " ", rest, t, ' ');
    } else {
      assert lead <= s;
      CharsFrom(s, lead, rest, t, ' ');
    }
  }

  /** The last character of `head + t` is whitespace exactly when the last of `s` is. */
  lemma CollapseLast(s: string, head: string, rest: string, t: string)
    requires s != [] && head != [] && |rest| <= |s|
    requires rest == s[|s| - |rest|..]
    requires t == [] <==> rest == []
    requires rest != [] ==> (IsSpace(t[|t| - 1]) <==> IsSpace(rest[|rest| - 1]))
    requires rest == [] ==> (IsSpace(head[|head| - 1]) <==> IsSpace(s[|s| - 1]))
    ensures IsSpace((head + t)[|head + t| - 1]) <==> IsSpace(s[|s| - 1])
  {
    if rest != [] {
      assert s[|s| - 1] == rest[|rest| - 1];
      assert (head + t)[|head + t| - 1] == t[|t| - 1];
    } else {
      assert (head + t)[|head + t| - 1] == head[|head| - 1];
    }
  }

  lemma CharsFrom(s: string, head: string, rest: string, t: string, extra: char)
    requires forall c | c in head :: c in s || c == extra
    requires forall c | c in rest :: c in s
    requires forall c | c in t :: c in rest || c == extra
    ensures forall c | c in head + t :: c in s || c == extra
  {
  }

  lemma CollapseWordJoin(w: string, t: string)
    requires w != [] && forall i | 0 <= i < |w| :: !IsSpace(w[i])
    requires NoSpaceRun(t)
    ensures NoSpaceRun(w + t)
  {
    var r := w + t;
    forall i | 0 <= i < |r| - 1 ensures !(IsSpace(r[i]) && IsSpace(r[i + 1])) {
      if i < |w| {
        assert r[i] == w[i];
      } else {
        assert r[i] == t[i - |w|] && r[i + 1] == t[i + 1 - |w|];
      }
    }
  }

  lemma CollapseSpaceJoin(lead: string, t: string)
    requires |lead| == 1
    requires NoSpaceRun(t) && (t == [] || !IsSpace(t[0]))
    ensures NoSpaceRun(lead + t)
  {
    var r := lead + t;
    forall i | 0 <= i < |r| - 1 ensures !(IsSpace(r[i]) && IsSpace(r[i + 1])) {
      if i == 0 {
        assert r[1] == t[0];
      } else {
        assert r[i] == t[i - 1] && r[i + 1] == t[i];
      }
    }
  }

  /** The lines the filtering loop does not skip: those that are neither header nor footer. */
  function BodyLines(lines: seq<string>): seq<string>
    decreases |lines|
  {
    if lines == [] then []
    else
      var last := lines[|lines| - 1];
      BodyLines(lines[..|lines| - 1]) + (if IsHeaderOrFooter(last) then [] else [last])
  }

  /** The body lines are exactly the lines that are neither header nor footer. */
  lemma {:induction false} BodyLinesMembers(lines: seq<string>)
    ensures forall l | l in BodyLines(lines) :: l in lines && !IsHeaderOrFooter(l)
    ensures forall i | 0 <= i < |lines| && !IsHeaderOrFooter(lines[i]) :: lines[i] in BodyLines(lines)
    decreases |lines|
  {
    if lines != [] {
      var init := lines[..|lines| - 1];
      var last := lines[|lines| - 1];
      assert lines == init + [last];
      BodyLinesMembers(init);
      forall i | 0 <= i < |lines| && !IsHeaderOrFooter(lines[i]) ensures lines[i] in BodyLines(lines) {
        if i < |init| { assert lines[i] == init[i]; }
      }
    }
  }

  function StripAll(lines: seq<string>): (r: seq<string>)
    ensures |r| == |lines|
  {
    seq(|lines|, i requires 0 <= i < |lines| => Strip(lines[i]))
  }

  /** `l for l in lines if l`: the non-empty lines, in order. */
  function NonEmpty(lines: seq<string>): seq<string>
    decreases |lines|
  {
    if lines == [] then []
    else if lines[0] == [] then NonEmpty(lines[1..])
    else [lines[0]] + NonEmpty(lines[1..])
  }

  /** The filter keeps the non-empty lines and only those. */
  lemma {:induction false} NonEmptyMembers(lines: seq<string>)
    ensures forall l | l in NonEmpty(lines) :: l in lines && l != []
    ensures NonEmpty(lines) == [] <==> forall i | 0 <= i < |lines| :: lines[i] == []
    decreases |lines|
  {
    if lines != [] {
      NonEmptyMembers(lines[1..]);
      if NonEmpty(lines) == [] {
        forall i | 0 <= i < |lines| ensures lines[i] == [] {
          if i > 0 { assert lines[i] == lines[1..][i - 1]; }
        }
      }
    }
  }

  /** What `clean_page_text` returns for the lines `splitlines` produced. */
  function CleanLines(lines: seq<string>): string {
    CollapseWhitespace(JoinWith(" ", NonEmpty(StripAll(BodyLines(lines)))))
  }

  function CleanedText(txt: string): string {
    CleanLines(SplitLines(txt))
  }

  /**
   * `clean_page_text`: the filtering loop over `txt.splitlines()` appends the stripped
   * lines that are neither header nor footer; the non-empty ones are then joined with
   * a space and whitespace runs are collapsed.
   */
  method CleanPageText(txt: string) returns (r: string)
    ensures r == CleanedText(txt)
    ensures Trimmed(r) && NoLineBreak(r) && NoSpaceRun(r)
  {
    var all := SplitLines(txt);
    var lines: seq<string> := [];
    for i := 0 to |all|
      invariant lines == StripAll(BodyLines(all[..i]))
    {
      assert all[..i + 1] == all[..i] + [all[i]];
      assert all[..i + 1][..i] == all[..i];
      if IsHeaderOrFooter(all[i]) {
        continue;
      }
      lines := lines + [Strip(all[i])];
    }
    assert all[..|all|] == all;
    var joined := JoinWith(" ", NonEmpty(lines));
    r := CollapseWhitespace(joined);
    CleanShape(all);
  }

  // ---------------------------------------------------------------------------
  // Properties of the cleaned text

  /** The cleaned text has no surrounding whitespace, no line break and no whitespace run. */
  lemma CleanShape(lines: seq<string>)
    requires forall i | 0 <= i < |lines| :: NoLineBreak(lines[i])
    ensures var r := CleanLines(lines); Trimmed(r) && NoLineBreak(r) && NoSpaceRun(r)
  {
    var kept := Kept(lines);
    KeptShape(lines);
    JoinTrimmed(kept);
    JoinNoLineBreak(kept);
    CollapseWhitespaceFacts(JoinWith(" ", kept));
    CollapseNoLineBreak(JoinWith(" ", kept));
  }

  /** The lines that reach the join. */
  function Kept(lines: seq<string>): seq<string> {
    NonEmpty(StripAll(BodyLines(lines)))
  }

  /** Each line that reaches the join is non-empty, trimmed and free of line breaks. */
  lemma KeptShape(lines: seq<string>)
    requires forall i | 0 <= i < |lines| :: NoLineBreak(lines[i])
    ensures forall i | 0 <= i < |Kept(lines)| :: Kept(lines)[i] != [] && Trimmed(Kept(lines)[i])
    ensures forall i | 0 <= i < |Kept(lines)| :: NoLineBreak(Kept(lines)[i])
  {
    var body := BodyLines(lines);
    var stripped := StripAll(body);
    var kept := NonEmpty(stripped);
    NonEmptyMembers(stripped);
    BodyLinesMembers(lines);
    forall i | 0 <= i < |kept| ensures kept[i] != [] && Trimmed(kept[i]) && NoLineBreak(kept[i]) {
      KeptLineShape(lines, body, stripped, kept[i]);
    }
  }

  lemma KeptLineShape(lines: seq<string>, body: seq<string>, stripped: seq<string>, l: string)
    requires forall i | 0 <= i < |lines| :: NoLineBreak(lines[i])
    requires forall x | x in body :: x in lines
    requires stripped == StripAll(body)
    requires l in stripped && l != []
    ensures Trimmed(l) && NoLineBreak(l)
  {
    var j :| 0 <= j < |stripped| && stripped[j] == l;
    assert body[j] in body;
    var k :| 0 <= k < |lines| && lines[k] == body[j];
    StripResultTrimmed(body[j]);
    StripNoLineBreak(body[j]);
  }

  lemma StripNoLineBreak(l: string)
    requires NoLineBreak(l)
    ensures NoLineBreak(Strip(l))
  {
    var r := Strip(l);
    StripFrom(l);
    forall k | 0 <= k < |r| ensures !IsLineBreak(r[k]) {
      assert r[k] in r;
    }
  }

  lemma JoinNoLineBreak(parts: seq<string>)
    requires forall i | 0 <= i < |parts| :: NoLineBreak(parts[i])
    ensures NoLineBreak(JoinWith(" ", parts))
  {
    var joined := JoinWith(" ", parts);
    forall k | 0 <= k < |joined| ensures !IsLineBreak(joined[k]) {
      JoinChars(" ", parts, k);
      if joined[k] !in " " {
        var i :| 0 <= i < |parts| && joined[k] in parts[i];
      }
    }
  }

  lemma CollapseNoLineBreak(s: string)
    requires NoLineBreak(s)
    ensures NoLineBreak(CollapseWhitespace(s))
  {
    var r := CollapseWhitespace(s);
    CollapseWhitespaceFacts(s);
    forall k | 0 <= k < |r| ensures !IsLineBreak(r[k]) {
      assert r[k] in r;
    }
  }

  lemma {:induction false} BodyLinesAppend(a: seq<string>, b: seq<string>)
    ensures BodyLines(a + b) == BodyLines(a) + BodyLines(b)
    decreases |b|
  {
    if b == [] {
      assert a + b == a;
    } else {
      var b' := b[..|b| - 1];
      assert (a + b)[..|a + b| - 1] == a + b';
      assert (a + b)[|a + b| - 1] == b[|b| - 1];
      BodyLinesAppend(a, b');
    }
  }

  /** A header or footer line contributes nothing, wherever it stands. */
  lemma HeaderLineDropped(a: seq<string>, h: string, b: seq<string>)
    requires IsHeaderOrFooter(h)
    ensures CleanLines(a + [h] + b) == CleanLines(a + b)
  {
    BodyLinesAppend(a + [h], b);
    BodyLinesAppend(a, [h]);
    BodyLinesAppend(a, b);
    assert [h][..0] == [];
    assert BodyLines([h]) == [];
    assert BodyLines(a) + [] == BodyLines(a);
  }

  /** The cleaned text is empty exactly when every line is a header, a footer or blank. */
  lemma CleanEmptyIff(lines: seq<string>)
    ensures CleanLines(lines) == [] <==>
      forall i | 0 <= i < |lines| :: IsHeaderOrFooter(lines[i]) || AllSpace(lines[i])
  {
    var body := BodyLines(lines);
    var stripped := StripAll(body);
    var kept := NonEmpty(stripped);
    NonEmptyMembers(stripped);
    BodyLinesMembers(lines);
    StripAllTrimmed(body);
    KeptTrimmed(stripped);
    JoinTrimmed(kept);
    CollapseWhitespaceFacts(JoinWith(" ", kept));
    assert CleanLines(lines) == [] <==> kept == [];
    if forall i | 0 <= i < |lines| :: IsHeaderOrFooter(lines[i]) || AllSpace(lines[i]) {
      forall i | 0 <= i < |stripped| ensures stripped[i] == [] {
        assert body[i] in body;
        StripEmptyIff(body[i]);
      }
    }
    if kept == [] {
      forall i | 0 <= i < |lines| ensures IsHeaderOrFooter(lines[i]) || AllSpace(lines[i]) {
        if !IsHeaderOrFooter(lines[i]) {
          var j :| 0 <= j < |body| && body[j] == lines[i];
          assert stripped[j] == [];
          StripEmptyIff(body[j]);
        }
      }
    }
  }

  lemma StripAllTrimmed(body: seq<string>)
    ensures forall i | 0 <= i < |StripAll(body)| :: Trimmed(StripAll(body)[i])
  {
    forall i | 0 <= i < |body| ensures Trimmed(StripAll(body)[i]) {
      StripResultTrimmed(body[i]);
    }
  }

  lemma KeptTrimmed(stripped: seq<string>)
    requires forall i | 0 <= i < |stripped| :: Trimmed(stripped[i])
    ensures forall i | 0 <= i < |NonEmpty(stripped)| :: NonEmpty(stripped)[i] != [] && Trimmed(NonEmpty(stripped)[i])
  {
    NonEmptyMembers(stripped);
    forall i | 0 <= i < |NonEmpty(stripped)| ensures NonEmpty(stripped)[i] != [] && Trimmed(NonEmpty(stripped)[i]) {
      assert NonEmpty(stripped)[i] in NonEmpty(stripped);
    }
  }

  lemma {:induction false} FlatSplitAppend(a: seq<string>, b: seq<string>)
    ensures FlatSplit(a + b) == FlatSplit(a) + FlatSplit(b)
    decreases |a|
  {
    if a != [] {
      assert (a + b)[1..] == a[1..] + b;
      FlatSplitAppend(a[1..], b);
    } else {
      assert a + b == b;
    }
  }

  lemma {:induction false} FlatSplitNonEmpty(ls: seq<string>)
    ensures FlatSplit(NonEmpty(ls)) == FlatSplit(ls)
    decreases |ls|
  {
    if ls != [] {
      FlatSplitNonEmpty(ls[1..]);
      if ls[0] == [] {
        assert Split(ls[0]) == [];
      }
    }
  }

  lemma {:induction false} FlatSplitStripAll(ls: seq<string>)
    ensures FlatSplit(StripAll(ls)) == FlatSplit(ls)
    decreases |ls|
  {
    if ls != [] {
      assert StripAll(ls)[1..] == StripAll(ls[1..]);
      SplitStrip(ls[0]);
      FlatSplitStripAll(ls[1..]);
    }
  }

  lemma {:induction false} SplitCollapse(s: string)
    ensures Split(CollapseWhitespace(s)) == Split(s)
    decreases |s|
  {
    if s == [] {
    } else if !IsSpace(s[0]) {
      var w := Word(s);
      SplitCollapse(s[|w|..]);
      CollapseWhitespaceFacts(s[|w|..]);
      SplitWordCase(s, w, s[|w|..], CollapseWhitespace(s[|w|..]));
    } else {
      var sp := SpaceRun(s);
      SplitCollapse(s[|sp|..]);
      SplitSpaceCase(s, sp, if |sp| >= 2 then " " else sp, s[|sp|..], CollapseWhitespace(s[|sp|..]));
    }
  }

  /** The word case of `SplitCollapse`: the word, then a text with the words of the rest. */
  lemma SplitWordCase(s: string, w: string, rest: string, t: string)
    requires s != [] && !IsSpace(s[0]) && w == Word(s) && rest == s[|w|..]
    requires t == [] || IsSpace(t[0])
    requires Split(t) == Split(rest)
    ensures Split(w + t) == Split(s)
  {
    assert s == w + rest;
    SplitAppend(w, t);
    SplitAppend(w, rest);
  }

  /** The whitespace case of `SplitCollapse`: a non-empty run adds no word. */
  lemma SplitSpaceCase(s: string, sp: string, lead: string, rest: string, t: string)
    requires s != [] && IsSpace(s[0]) && sp == SpaceRun(s) && rest == s[|sp|..]
    requires lead == if |sp| >= 2 then " " else sp
    requires Split(t) == Split(rest)
    ensures Split(lead + t) == Split(s)
  {
    assert s == sp + rest;
    AllSpaceSplit(sp);
    AllSpaceSplit(lead);
    SplitAppend(sp, rest);
    SplitAppend(lead, t);
  }

  /**
   * Cleaning keeps every word of every line that is not a header or footer, in order,
   * and no other word: the words of the result are the words of those lines.
   */
  lemma CleanKeepsWords(lines: seq<string>)
    ensures Split(CleanLines(lines)) == FlatSplit(BodyLines(lines))
  {
    var body := BodyLines(lines);
    var joined := JoinWith(" ", NonEmpty(StripAll(body)));
    SplitCollapse(joined);
    SplitJoin(NonEmpty(StripAll(body)));
    FlatSplitNonEmpty(StripAll(body));
    FlatSplitStripAll(body);
  }

  /** A page made only of header, footer and blank lines cleans to the empty string. */
  lemma OnlyHeadersGiveEmpty(txt: string)
    requires forall l | l in SplitLines(txt) :: IsHeaderOrFooter(l) || AllSpace(l)
    ensures CleanedText(txt) == ""
  {
    var lines := SplitLines(txt);
    assert forall i | 0 <= i < |lines| :: lines[i] in lines;
    CleanEmptyIff(lines);
  }
}
