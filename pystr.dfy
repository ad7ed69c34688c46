/**
 * The few Python `str` operations the pipeline is built on, stated on `seq<char>`:
 * `str.isspace`, `strip`, `split()` (no argument), `splitlines`, `sep.join`,
 * ASCII case folding as used by a case-insensitive search, and `str(int)`.
 */
module PyStr {

  /** Python's `str.isspace` for one character: the Unicode whitespace set. */
  predicate IsSpace(c: char) {
    ('\t' <= c <= '\r') || ('\U{1C}' <= c <= ' ') || c == '\U{85}' || c == '\U{A0}'
    || c == '\U{1680}' || ('\U{2000}' <= c <= '\U{200A}') || c == '\U{2028}' || c == '\U{2029}'
    || c == '\U{202F}' || c == '\U{205F}' || c == '\U{3000}'
  }

  /** The characters at which `str.splitlines` ends a line ("\r\n" counts once). */
  predicate IsLineBreak(c: char) {
    c == '\n' || c == '\U{B}' || c == '\U{C}' || c == '\r' || c == '\U{1C}' || c == '\U{1D}'
    || c == '\U{1E}' || c == '\U{85}' || c == '\U{2028}' || c == '\U{2029}'
  }

  predicate NoLineBreak(s: string) {
    forall i | 0 <= i < |s| :: !IsLineBreak(s[i])
  }

  predicate AllSpace(s: string) {
    forall i | 0 <= i < |s| :: IsSpace(s[i])
  }

  /** A word of `str.split()`: non-empty, no whitespace character. */
  predicate IsToken(t: string) {
    t != [] && forall i | 0 <= i < |t| :: !IsSpace(t[i])
  }

  /** No leading and no trailing whitespace. */
  predicate Trimmed(s: string) {
    s == [] || (!IsSpace(s[0]) && !IsSpace(s[|s| - 1]))
  }

  /** The longest prefix of `s` without whitespace. */
  function Word(s: string): (w: string)
    ensures w <= s
    ensures forall i | 0 <= i < |w| :: !IsSpace(w[i])
    ensures |w| == |s| || IsSpace(s[|w|])
  {
    if s == [] || IsSpace(s[0]) then [] else [s[0]] + Word(s[1..])
  }

  /** The longest prefix of `s` made of whitespace only. */
  function SpaceRun(s: string): (r: string)
    ensures r <= s && AllSpace(r)
    ensures |r| == |s| || !IsSpace(s[|r|])
  {
    if s == [] || !IsSpace(s[0]) then [] else [s[0]] + SpaceRun(s[1..])
  }

  /** The longest prefix of `s` without a line break. */
  function LineHead(s: string): (l: string)
    ensures l <= s && NoLineBreak(l)
    ensures |l| == |s| || IsLineBreak(s[|l|])
  {
    if s == [] || IsLineBreak(s[0]) then [] else [s[0]] + LineHead(s[1..])
  }

  /** `s.lstrip()` */
  function StripLeft(s: string): string
    decreases |s|
  {
    if s != [] && IsSpace(s[0]) then StripLeft(s[1..]) else s
  }

  /** `s.lstrip()` drops a leading run of whitespace and keeps the rest. */
  lemma {:induction false} StripLeftFacts(s: string)
    ensures var r := StripLeft(s);
      |r| <= |s| && r == s[|s| - |r|..] && AllSpace(s[..|s| - |r|])
      && (r == [] || !IsSpace(r[0]))
    decreases |s|
  {
    if s != [] && IsSpace(s[0]) {
      StripLeftFacts(s[1..]);
      var r := StripLeft(s);
      var d := |s| - |r|;
      assert s[1..][..|s[1..]| - |r|] == s[1..d];
      assert s[..d] == [s[0]] + s[1..d];
    }
  }

  /** `s.rstrip()` */
  function StripRight(s: string): string
    decreases |s|
  {
    if s != [] && IsSpace(s[|s| - 1]) then StripRight(s[..|s| - 1]) else s
  }

  /** `s.rstrip()` drops a trailing run of whitespace and keeps the rest. */
  lemma {:induction false} StripRightFacts(s: string)
    ensures var r := StripRight(s);
      r <= s && AllSpace(s[|r|..]) && (r == [] || !IsSpace(r[|r| - 1]))
    decreases |s|
  {
    if s != [] && IsSpace(s[|s| - 1]) {
      var t := s[..|s| - 1];
      StripRightFacts(t);
      var r := StripRight(s);
      assert s[|r|..] == t[|r|..] + [s[|s| - 1]];
      AllSpaceAppend(t[|r|..], [s[|s| - 1]]);
    }
  }

  /** `s.strip()` */
  function Strip(s: string): string {
    StripRight(StripLeft(s))
  }

  /** `s.strip()` has no surrounding whitespace. */
  lemma StripResultTrimmed(s: string)
    ensures Trimmed(Strip(s))
  {
    var l := StripLeft(s);
    StripLeftFacts(s);
    StripRightFacts(l);
  }

  /** Every character of `s.strip()` comes from `s`. */
  lemma StripFrom(s: string)
    ensures forall c | c in Strip(s) :: c in s
  {
    StripChars(s, StripLeft(s), StripRight(StripLeft(s)));
  }

  /** `s.strip()` is empty exactly when `s` is all whitespace. */
  lemma StripEmptyIff(s: string)
    ensures Strip(s) == [] <==> AllSpace(s)
  {
    StripChars(s, StripLeft(s), StripRight(StripLeft(s)));
  }

  lemma StripChars(s: string, l: string, r: string)
    requires l == StripLeft(s) && r == StripRight(l)
    ensures forall c | c in r :: c in s
    ensures r == [] <==> AllSpace(s)
  {
    StripLeftFacts(s);
    StripRightFacts(l);
    StripCharsFrom(s, l, r);
    if r == [] {
      StripEmpty(s, l);
    } else {
      StripNonEmpty(s, l, r);
    }
  }

  lemma StripCharsFrom(s: string, l: string, r: string)
    requires l == StripLeft(s) && r <= l
    ensures forall c | c in r :: c in s
  {
    StripLeftFacts(s);
    var d := |s| - |l|;
    assert s == s[..d] + l;
    forall c | c in r ensures c in s {
      assert c in l;
    }
  }

  lemma StripEmpty(s: string, l: string)
    requires l == StripLeft(s) && StripRight(l) == []
    ensures AllSpace(s)
  {
    StripLeftFacts(s);
    StripRightFacts(l);
    var d := |s| - |l|;
    assert s == s[..d] + l;
    assert l[|StripRight(l)|..] == l;
    AllSpaceAppend(s[..d], l);
  }

  lemma StripNonEmpty(s: string, l: string, r: string)
    requires l == StripLeft(s) && r == StripRight(l) && r != []
    ensures !AllSpace(s)
  {
    StripLeftFacts(s);
    StripRightFacts(l);
    var d := |s| - |l|;
    assert r[0] == l[0] == s[d];
  }

  lemma AllSpaceAppend(a: string, b: string)
    requires AllSpace(a) && AllSpace(b)
    ensures AllSpace(a + b)
  {
    forall i | 0 <= i < |a + b| ensures IsSpace((a + b)[i]) {
      if i < |a| { assert (a + b)[i] == a[i]; } else { assert (a + b)[i] == b[i - |a|]; }
    }
  }

  /** `s.split()` with no argument: the maximal runs of non-whitespace characters, in order. */
  function Split(s: string): (ts: seq<string>)
    ensures forall i | 0 <= i < |ts| :: IsToken(ts[i])
    decreases |s|
  {
    if s == [] then []
    else if IsSpace(s[0]) then Split(s[1..])
    else var w := Word(s); [w] + Split(s[|w|..])
  }

  /** `sep.join(parts)` */
  function JoinWith(sep: string, parts: seq<string>): string
    decreases |parts|
  {
    if |parts| == 0 then []
    else if |parts| == 1 then parts[0]
    else parts[0] + sep + JoinWith(sep, parts[1..])
  }

  /** `s.splitlines()`: the lines of `s` without their line breaks; no empty last line after a final break. */
  function SplitLines(s: string): (lines: seq<string>)
    ensures forall i | 0 <= i < |lines| :: NoLineBreak(lines[i])
    decreases |s|
  {
    if s == [] then []
    else
      var l := LineHead(s);
      if |l| == |s| then [l]
      else
        var k := if s[|l|] == '\r' && |l| + 1 < |s| && s[|l| + 1] == '\n' then |l| + 2 else |l| + 1;
        [l] + SplitLines(s[k..])
  }

  /** The tokens of every string of `ls`, in order. */
  function FlatSplit(ls: seq<string>): seq<string>
    decreases |ls|
  {
    if ls == [] then [] else Split(ls[0]) + FlatSplit(ls[1..])
  }

  /** ASCII lower-casing of one character. */
  function LowerAscii(c: char): char {
    if 'A' <= c <= 'Z' then (c as int + 32) as char else c
  }

  /** ASCII lower-casing of a string. */
  function Lower(s: string): (r: string)
    ensures |r| == |s| && forall i | 0 <= i < |s| :: r[i] == LowerAscii(s[i])
  {
    seq(|s|, i requires 0 <= i < |s| => LowerAscii(s[i]))
  }

  /** `s` begins with `pat`, letters compared without regard to ASCII case. */
  predicate StartsWithFold(s: string, pat: string)
    decreases |pat|
  {
    pat == [] || (s != [] && LowerAscii(s[0]) == LowerAscii(pat[0]) && StartsWithFold(s[1..], pat[1..]))
  }

  /** A case-insensitive substring search: `pat` begins at some position of `s`. */
  predicate ContainsFold(s: string, pat: string)
    decreases |s|
  {
    StartsWithFold(s, pat) || (s != [] && ContainsFold(s[1..], pat))
  }

  function DigitChar(d: nat): char
    requires d < 10
  {
    "0123456789"[d]
  }

  function NatToDecimal(n: nat): (r: string)
    ensures r != []
    decreases n
  {
    if n < 10 then [DigitChar(n)] else NatToDecimal(n / 10) + [DigitChar(n % 10)]
  }

  /** `str(i)` for an int. */
  function IntToDecimal(i: int): string {
    if i < 0 then "-" + NatToDecimal(-i) else NatToDecimal(i)
  }

  // ---------------------------------------------------------------------------
  // Lemmas about split, strip and join

  lemma AllSpaceSplit(s: string)
    requires AllSpace(s)
    ensures Split(s) == []
    decreases |s|
  {
    if s != [] {
      AllSpaceSplit(s[1..]);
    }
  }

  lemma {:induction false} WordAppend(x: string, y: string)
    requires |Word(x)| < |x| || y == [] || IsSpace(y[0])
    ensures Word(x + y) == Word(x)
    decreases |x|
  {
    if x == [] {
      assert x + y == y;
    } else if IsSpace(x[0]) {
    } else {
      assert (x + y)[1..] == x[1..] + y;
      WordAppend(x[1..], y);
    }
  }

  /** `split()` distributes over a concatenation that meets at whitespace. */
  lemma {:induction false} SplitAppend(x: string, y: string)
    requires x == [] || y == [] || IsSpace(x[|x| - 1]) || IsSpace(y[0])
    ensures Split(x + y) == Split(x) + Split(y)
    decreases |x|
  {
    if x == [] {
      assert x + y == y;
    } else if IsSpace(x[0]) {
      assert (x + y)[0] == x[0];
      assert (x + y)[1..] == x[1..] + y;
      SplitAppend(x[1..], y);
    } else {
      SplitAppendWord(x, y);
    }
  }

  lemma {:induction false} SplitAppendWord(x: string, y: string)
    requires x != [] && !IsSpace(x[0])
    requires y == [] || IsSpace(x[|x| - 1]) || IsSpace(y[0])
    ensures Split(x + y) == Split(x) + Split(y)
    decreases |x|, 0
  {
    var w := Word(x);
    if |w| < |x| {
      WordAppend(x, y);
      SplitAfterWord(x, y, w);
      SplitAppend(x[|w|..], y);
    } else {
      assert w == x && !IsSpace(w[|w| - 1]);
      WordAppend(x, y);
      SplitWholeWord(x, y);
    }
  }

  /** Splitting `x + y` where `x` begins with the word `w` that also begins `x + y`. */
  lemma SplitAfterWord(x: string, y: string, w: string)
    requires x != [] && !IsSpace(x[0]) && w == Word(x) && |w| < |x| && Word(x + y) == w
    ensures Split(x) == [w] + Split(x[|w|..])
    ensures Split(x + y) == [w] + Split(x[|w|..] + y)
  {
    assert (x + y)[0] == x[0];
    assert (x + y)[|w|..] == x[|w|..] + y;
  }

  /** Splitting `x + y` where all of `x` is the word that also begins `x + y`. */
  lemma SplitWholeWord(x: string, y: string)
    requires x != [] && !IsSpace(x[0]) && Word(x) == x && Word(x + y) == x
    ensures Split(x + y) == Split(x) + Split(y)
  {
    assert (x + y)[0] == x[0];
    assert (x + y)[|x|..] == y;
    assert x[|x|..] == [];
    assert Split(x) == [x] + Split([]);
  }

  lemma {:induction false} SplitStripLeft(s: string)
    ensures Split(StripLeft(s)) == Split(s)
    decreases |s|
  {
    if s != [] && IsSpace(s[0]) {
      SplitStripLeft(s[1..]);
    }
  }

  /** Stripping does not change the words of a string. */
  lemma SplitStrip(s: string)
    ensures Split(Strip(s)) == Split(s)
  {
    var l := StripLeft(s);
    var r := StripRight(l);
    StripRightFacts(l);
    SplitStripLeft(s);
    assert l == r + l[|r|..];
    AllSpaceSplit(l[|r|..]);
    SplitAppend(r, l[|r|..]);
  }

  /** Joining with a space and splitting again gives the words of all the parts. */
  lemma {:induction false} SplitJoin(ls: seq<string>)
    ensures Split(JoinWith(" ", ls)) == FlatSplit(ls)
    decreases |ls|
  {
    if |ls| == 0 {
    } else if |ls| == 1 {
      assert FlatSplit(ls[1..]) == [];
    } else {
      var rest := JoinWith(" ", ls[1..]);
      assert JoinWith(" ", ls) == ls[0] + (" " + rest);
      SplitAppend(ls[0], " " + rest);
      assert (" " + rest)[1..] == rest;
      SplitJoin(ls[1..]);
    }
  }

  /** A token is its own split. */
  lemma SplitToken(t: string)
    requires IsToken(t)
    ensures Split(t) == [t]
  {
    assert Word(t) == t;
    assert t[|t|..] == [];
  }

  lemma {:induction false} FlatSplitTokens(ts: seq<string>)
    requires forall i | 0 <= i < |ts| :: IsToken(ts[i])
    ensures FlatSplit(ts) == ts
    decreases |ts|
  {
    if ts != [] {
      SplitToken(ts[0]);
      FlatSplitTokens(ts[1..]);
    }
  }

  /** `split()` undoes `" ".join` on a list of tokens. */
  lemma SplitJoinTokens(ts: seq<string>)
    requires forall i | 0 <= i < |ts| :: IsToken(ts[i])
    ensures Split(JoinWith(" ", ts)) == ts
  {
    SplitJoin(ts);
    FlatSplitTokens(ts);
  }

  lemma {:induction false} JoinTokensTrimmed(ts: seq<string>)
    requires ts != [] && forall i | 0 <= i < |ts| :: IsToken(ts[i])
    ensures var j := JoinWith(" ", ts); j != [] && !IsSpace(j[0]) && !IsSpace(j[|j| - 1])
    decreases |ts|
  {
    if |ts| > 1 {
      JoinTokensTrimmed(ts[1..]);
      assert JoinWith(" ", ts) == ts[0] + " " + JoinWith(" ", ts[1..]);
    }
  }

  /** A string with no surrounding whitespace is its own strip. */
  lemma StripTrimmed(s: string)
    requires Trimmed(s)
    ensures Strip(s) == s
  {
  }

  /** Joining non-empty, trimmed parts with a space gives a trimmed string. */
  lemma {:induction false} JoinTrimmed(ls: seq<string>)
    requires forall i | 0 <= i < |ls| :: ls[i] != [] && Trimmed(ls[i])
    ensures Trimmed(JoinWith(" ", ls))
    ensures ls != [] ==> JoinWith(" ", ls) != []
    decreases |ls|
  {
    if |ls| > 1 {
      JoinTrimmed(ls[1..]);
      var rest := JoinWith(" ", ls[1..]);
      assert JoinWith(" ", ls) == ls[0] + " " + rest;
    }
  }

  /** Every character of a join comes from a part or from the separator. */
  lemma {:induction false} JoinChars(sep: string, ls: seq<string>, k: nat)
    requires k < |JoinWith(sep, ls)|
    ensures JoinWith(sep, ls)[k] in sep || exists i :: 0 <= i < |ls| && JoinWith(sep, ls)[k] in ls[i]
    decreases |ls|
  {
    if |ls| == 1 {
      assert JoinWith(sep, ls)[k] in ls[0];
    } else if |ls| > 1 {
      var rest := JoinWith(sep, ls[1..]);
      assert JoinWith(sep, ls) == ls[0] + sep + rest;
      if k < |ls[0]| {
        assert JoinWith(sep, ls)[k] in ls[0];
      } else if k < |ls[0]| + |sep| {
        assert JoinWith(sep, ls)[k] == sep[k - |ls[0]|];
      } else {
        assert JoinWith(sep, ls)[k] == rest[k - |ls[0]| - |sep|];
        JoinChars(sep, ls[1..], k - |ls[0]| - |sep|);
        if JoinWith(sep, ls)[k] !in sep {
          var i :| 0 <= i < |ls[1..]| && rest[k - |ls[0]| - |sep|] in ls[1..][i];
          assert ls[1..][i] == ls[i + 1];
        }
      }
    }
  }

  /** `sep.join(a + b)` is the join of `a`, the separator, and the join of `b`. */
  lemma {:induction false} JoinAppend(sep: string, a: seq<string>, b: seq<string>)
    requires a != [] && b != []
    ensures JoinWith(sep, a + b) == JoinWith(sep, a) + sep + JoinWith(sep, b)
    decreases |a|
  {
    if |a| == 1 {
      assert (a + b)[1..] == b;
    } else {
      assert (a + b)[1..] == a[1..] + b;
      JoinAppend(sep, a[1..], b);
    }
  }
}
