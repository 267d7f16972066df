/** The two chord regexes of the system, re-expressed as ordered-alternative scanners.

    Both are `\b` + root `[A-G]` + optional accidental `(?:#|b)?` + optional quality from an
    ordered alternation. They differ in the quality list and in the check after the match:
    the page's `CHORD_RE` ends in the lookahead `(?![#\w])`, the extractor's `CHORD_PATTERN`
    in `\b`. The scanner tries the alternatives in the regex engine's backtracking order:
    accidental present before absent, and for each, the listed qualities in order before the
    empty quality; the first combination that passes the trailing check wins, otherwise the
    scan moves on by one character. */
module ChordScan {
  import opened Wrappers
  import opened Text

  predicate IsRoot(c: char) {
    'A' <= c <= 'G'
  }

  predicate IsAccidental(c: char) {
    c == '#' || c == 'b'
  }

  predicate IsQualityChar(c: char) {
    ('a' <= c <= 'z') || ('0' <= c <= '9')
  }

  /** What every listed quality looks like: a non-empty run of lower-case letters and digits
      that does not start with the flat sign `b`. */
  predicate QualityShape(q: string) {
    |q| > 0 && q[0] != 'b' && forall c :: c in q ==> IsQualityChar(c)
  }

  /** An ordered list of quality alternatives. */
  type QualityList = qs: seq<string> | forall q :: q in qs ==> QualityShape(q)

  const Thirds: QualityList := ["maj7", "maj", "min7", "min", "m7", "m"]
  const Altered: QualityList := ["dim7", "dim", "aug"]
  const Suspended: QualityList := ["sus2", "sus4"]
  const Added: QualityList := ["add9", "add11", "add13", "add"]
  const Extensions: QualityList := ["6", "7", "9", "11", "13"]

  /** The alternation of `CHORD_RE` on the song page. */
  const PageQualities: QualityList :=
    Thirds + Altered + Suspended + ["sus"] + Added + Extensions + ["5"]

  /** The alternation of `CHORD_PATTERN` in the extractor: no bare `sus`, no `5`. */
  const ExtractorQualities: QualityList :=
    Thirds + Altered + Suspended + Added + Extensions

  /** The check after the match: the lookahead `(?![#\w])` or a word boundary `\b`. */
  datatype TrailingRule = Lookahead | WordBoundary

  datatype Dialect = Dialect(qualities: QualityList, trailing: TrailingRule)

  /** `CHORD_RE` of the song page. */
  const Page := Dialect(PageQualities, Lookahead)

  /** `CHORD_PATTERN` of the chord extractor. */
  const Extractor := Dialect(ExtractorQualities, WordBoundary)

  /** The check after the match: `(?![#\w])` on the page, `\b` in the extractor. */
  predicate Trailing(d: Dialect, s: string, e: nat) {
    match d.trailing
    case Lookahead => e >= |s| || (s[e] != '#' && !IsWordChar(s[e]))
    case WordBoundary => Boundary(s, e)
  }

  /** `t` is an optional quality: empty or one of the listed alternatives. */
  predicate OptQuality(d: Dialect, t: string) {
    t == "" || t in d.qualities
  }

  /** The chord grammar: root, optional accidental, optional quality. */
  predicate IsChordSymbol(d: Dialect, t: string) {
    && |t| >= 1
    && IsRoot(t[0])
    && (OptQuality(d, t[1..]) || (|t| >= 2 && IsAccidental(t[1]) && OptQuality(d, t[2..])))
  }

  /** The regex matches `s[i..e]` when started at `i`, for some choice of alternatives. */
  predicate Accepts(d: Dialect, s: string, i: nat, e: nat) {
    i < e <= |s| && Boundary(s, i) && IsChordSymbol(d, s[i..e]) && Trailing(d, s, e)
  }

  /** `s[j..e]` is the empty quality or one of `d.qualities[k..]`. */
  predicate Tried(d: Dialect, s: string, j: nat, k: nat, e: nat)
    requires k <= |d.qualities|
  {
    j <= e <= |s| && (e == j || s[j..e] in d.qualities[k..])
  }

  /** Two qualities that both pass the trailing check at the same place end at the same place:
      the shorter would be followed by a letter or digit of the longer. */
  lemma OneQualityEnd(d: Dialect, s: string, j: nat, e1: nat, e2: nat)
    requires j < e1 <= e2 <= |s|
    requires QualityShape(s[j..e1]) && QualityShape(s[j..e2])
    requires Trailing(d, s, e1)
    ensures e1 == e2
  {
    if e1 < e2 {
      SliceHolds(s, j, e1, e2);
    }
  }

  /** The characters at both sides of position `m` inside `s[j..e]` belong to that slice. */
  lemma SliceHolds(s: string, j: nat, m: nat, e: nat)
    requires j < m < e <= |s|
    ensures s[m - 1] in s[j..e] && s[m] in s[j..e]
    ensures s[m - 1] in s[j..m]
  {
    assert s[m] == s[j..e][m - j];
    assert s[m - 1] == s[j..e][m - 1 - j];
    assert s[m - 1] == s[j..m][m - 1 - j];
  }

  /** Tries `d.qualities[k..]` in order after position `j`, then the empty quality, and
      returns the end of the first that passes the trailing check. */
  function TryQualities(d: Dialect, s: string, j: nat, k: nat): (r: Option<nat>)
    requires j <= |s| && k <= |d.qualities|
    ensures r.Some? ==> Tried(d, s, j, k, r.value) && Trailing(d, s, r.value)
    ensures r.None? ==> forall e: nat :: Tried(d, s, j, k, e) ==> !Trailing(d, s, e)
    ensures r.Some? ==> forall e: nat :: Tried(d, s, j, k, e) && Trailing(d, s, e) ==> e <= r.value
    decreases |d.qualities| - k
  {
    var qs := d.qualities;
    if k == |qs| then
      if Trailing(d, s, j) then Some(j) else None
    else
      var q := qs[k];
      TriedStep(d, s, j, k);
      if j + |q| <= |s| && s[j..j + |q|] == q && Trailing(d, s, j + |q|) then
        FirstPassingQualityIsLongest(d, s, j, k);
        Some(j + |q|)
      else
        TryQualities(d, s, j, k + 1)
  }

  /** The ends tried from alternative `k` on: those of alternative `k`, then the rest. */
  lemma TriedStep(d: Dialect, s: string, j: nat, k: nat)
    requires j <= |s| && k < |d.qualities|
    ensures forall e: nat :: Tried(d, s, j, k, e) <==>
      (Tried(d, s, j, k + 1, e) || (j + |d.qualities[k]| == e <= |s| && s[j..e] == d.qualities[k]))
  {
    var qs := d.qualities;
    assert qs[k..] == [qs[k]] + qs[k + 1..];
  }

  /** Once a listed quality passes, no later alternative can pass with a longer end. */
  lemma FirstPassingQualityIsLongest(d: Dialect, s: string, j: nat, k: nat)
    requires k < |d.qualities|
    requires var q := d.qualities[k]; j + |q| <= |s| && s[j..j + |q|] == q && Trailing(d, s, j + |q|)
    ensures forall e: nat :: Tried(d, s, j, k, e) && Trailing(d, s, e) ==> e <= j + |d.qualities[k]|
  {
    var qs := d.qualities;
    var q := qs[k];
    assert q in qs;
    forall e: nat | Tried(d, s, j, k, e) && Trailing(d, s, e) && e > j + |q|
      ensures false
    {
      assert s[j..e] in qs by {
        assert s[j..e] in qs[k..];
      }
      OneQualityEnd(d, s, j, j + |q|, e);
    }
  }

  /** One attempt of the regex at position `i`. */
  function MatchAt(d: Dialect, s: string, i: nat): (r: Option<nat>)
    ensures r.Some? ==> Accepts(d, s, i, r.value)
    ensures r.None? ==> forall e: nat :: !Accepts(d, s, i, e)
    ensures r.Some? ==> forall e: nat :: Accepts(d, s, i, e) ==> e <= r.value
  {
    if !(i < |s| && IsRoot(s[i]) && Boundary(s, i)) then
      None
    else
      AcceptsSplit(d, s, i);
      if i + 1 < |s| && IsAccidental(s[i + 1]) && TryQualities(d, s, i + 2, 0).Some? then
        NoQualityStartsWithAccidental(d, s, i + 1);
        TryQualities(d, s, i + 2, 0)
      else
        TryQualities(d, s, i + 1, 0)
  }

  /** How an accepted end decomposes into the two accidental choices. */
  lemma AcceptsSplit(d: Dialect, s: string, i: nat)
    requires i < |s| && IsRoot(s[i]) && Boundary(s, i)
    ensures forall e: nat :: Accepts(d, s, i, e) <==>
      && Trailing(d, s, e)
      && (|| Tried(d, s, i + 1, 0, e)
          || (i + 1 < |s| && IsAccidental(s[i + 1]) && Tried(d, s, i + 2, 0, e)))
  {
    var qs := d.qualities;
    assert qs[0..] == qs;
    forall e | i < e <= |s|
      ensures s[i..e][1..] == s[i + 1..e]
      ensures e >= i + 2 ==> s[i..e][2..] == s[i + 2..e]
      ensures s[i..e][0] == s[i]
      ensures e >= i + 2 ==> s[i..e][1] == s[i + 1]
    {
    }
    if i + 1 < |s| && IsAccidental(s[i + 1]) {
      NoQualityStartsWithAccidental(d, s, i + 1);
    }
  }

  /** No listed quality starts with `#` or `b`, so after an accidental only the empty
      quality can follow the root. */
  lemma NoQualityStartsWithAccidental(d: Dialect, s: string, j: nat)
    requires j < |s| && IsAccidental(s[j])
    ensures forall e: nat :: Tried(d, s, j, 0, e) ==> e == j
  {
    var qs := d.qualities;
    assert qs[0..] == qs;
    forall e: nat | Tried(d, s, j, 0, e) ensures e == j {
      if e != j {
        FirstOfSlice(s, j, e);
      }
    }
  }

  lemma FirstOfSlice(s: string, j: nat, e: nat)
    requires j < e <= |s|
    ensures s[j..e][0] == s[j] && s[j] in s[j..e]
  {
  }

  /** A recognised chord: its offset and its text. */
  datatype Token = Token(start: nat, text: string) {
    function End(): nat {
      start + |text|
    }
  }

  /** Where the gap before token `k` begins: the scan start, or the previous token's end. */
  function GapStart(toks: seq<Token>, i: nat, k: nat): nat
    requires k <= |toks|
  {
    if k == 0 then i else toks[k - 1].End()
  }

  /** A matcher for the scan loop: `m(p)` is the end of the match attempted at `p`, if any,
      and a match is never empty. */
  ghost predicate Advances(s: string, m: nat -> Option<nat>) {
    forall p: nat :: m(p).Some? ==> p < m(p).value <= |s|
  }

  /** The loop of a global regex scan from position `i`, as JavaScript's global match and
      `exec` loop and Python's `findall` run it: where the matcher succeeds the token is taken
      and the scan resumes after it; elsewhere it moves on by one. Since every match is
      non-empty, there are never more tokens than characters left to scan. */
  function ScanWith(s: string, i: nat, m: nat -> Option<nat>): (r: seq<Token>)
    requires Advances(s, m)
    ensures i <= |s| ==> |r| <= |s| - i
    decreases |s| - i
  {
    if i >= |s| then
      []
    else
      match m(i)
      case None => ScanWith(s, i + 1, m)
      case Some(e) => [Token(i, s[i..e])] + ScanWith(s, e, m)
  }

  /** Every token is the matcher's result at its own offset and carries the text it covers. */
  lemma {:induction false} ScanWithTokens(s: string, i: nat, m: nat -> Option<nat>)
    requires Advances(s, m)
    ensures forall t :: t in ScanWith(s, i, m) ==>
      && i <= t.start
      && m(t.start) == Some(t.End())
      && t.End() <= |s|
      && t.text == s[t.start..t.End()]
    decreases |s| - i
  {
    if i < |s| {
      if m(i).None? {
        ScanWithTokens(s, i + 1, m);
      } else {
        ScanWithTokens(s, m(i).value, m);
      }
    }
  }

  /** Each token starts at or after the end of the one before it (or at or after `i`). */
  predicate Ordered(toks: seq<Token>, i: nat) {
    forall k :: 0 <= k < |toks| ==> GapStart(toks, i, k) <= toks[k].start
  }

  /** The matcher finds nothing at any position in `[lo, hi)`. */
  ghost predicate Silent(m: nat -> Option<nat>, lo: nat, hi: nat) {
    forall p: nat :: lo <= p < hi ==> m(p).None?
  }

  /** The matcher finds nothing in the gap in front of any token. */
  ghost predicate GapsSilent(toks: seq<Token>, i: nat, m: nat -> Option<nat>) {
    forall k :: 0 <= k < |toks| ==> Silent(m, GapStart(toks, i, k), toks[k].start)
  }

  /** The matcher finds nothing at or after `lo`. */
  ghost predicate SilentFrom(m: nat -> Option<nat>, lo: nat) {
    forall p: nat :: lo <= p ==> m(p).None?
  }

  lemma {:induction false} ScanWithOrdered(s: string, i: nat, m: nat -> Option<nat>)
    requires Advances(s, m)
    ensures Ordered(ScanWith(s, i, m), i)
    decreases |s| - i
  {
    if i < |s| {
      if m(i).None? {
        var toks := ScanWith(s, i + 1, m);
        assert ScanWith(s, i, m) == toks;
        ScanWithTokens(s, i + 1, m);
        ScanWithOrdered(s, i + 1, m);
        forall k | 0 <= k < |toks|
          ensures GapStart(toks, i, k) <= toks[k].start
        {
          assert toks[k] in toks;
          if k > 0 {
            assert GapStart(toks, i, k) == GapStart(toks, i + 1, k);
          }
        }
      } else {
        var e := m(i).value;
        var rest := ScanWith(s, e, m);
        ScanWithTokens(s, e, m);
        ScanWithOrdered(s, e, m);
        var toks := [Token(i, s[i..e])] + rest;
        assert forall k :: 0 < k < |toks| ==> toks[k] == rest[k - 1] && toks[k] in rest;
        assert forall k :: 0 < k <= |toks| ==> GapStart(toks, i, k) == GapStart(rest, e, k - 1);
      }
    }
  }

  /** No match starts in the gap in front of a token. */
  lemma {:induction false} ScanWithLeftmost(s: string, i: nat, m: nat -> Option<nat>)
    requires Advances(s, m)
    ensures GapsSilent(ScanWith(s, i, m), i, m)
    decreases |s| - i
  {
    if i < |s| {
      if m(i).None? {
        var toks := ScanWith(s, i + 1, m);
        assert ScanWith(s, i, m) == toks;
        ScanWithLeftmost(s, i + 1, m);
        forall k | 0 <= k < |toks|
          ensures Silent(m, GapStart(toks, i, k), toks[k].start)
        {
          if k > 0 {
            assert GapStart(toks, i, k) == GapStart(toks, i + 1, k);
          } else {
            assert Silent(m, i + 1, toks[k].start);
          }
        }
      } else {
        var e := m(i).value;
        var rest := ScanWith(s, e, m);
        ScanWithLeftmost(s, e, m);
        var toks := [Token(i, s[i..e])] + rest;
        forall k | 0 <= k < |toks|
          ensures Silent(m, GapStart(toks, i, k), toks[k].start)
        {
          if k > 0 {
            assert GapStart(toks, i, k) == GapStart(rest, e, k - 1) && toks[k] == rest[k - 1];
          }
        }
      }
    }
  }

  /** No match starts after the last token. */
  lemma {:induction false} ScanWithExhaustive(s: string, i: nat, m: nat -> Option<nat>)
    requires Advances(s, m)
    ensures SilentFrom(m, GapStart(ScanWith(s, i, m), i, |ScanWith(s, i, m)|))
    decreases |s| - i
  {
    if i < |s| {
      var toks := ScanWith(s, i, m);
      if m(i).None? {
        ScanWithExhaustive(s, i + 1, m);
        assert |toks| > 0 ==> GapStart(toks, i, |toks|) == GapStart(toks, i + 1, |toks|);
      } else {
        var e := m(i).value;
        ScanWithExhaustive(s, e, m);
        var rest := ScanWith(s, e, m);
        assert GapStart(toks, i, |toks|) == GapStart(rest, e, |rest|);
      }
    }
  }

  /** The regex attempt of dialect `d` on `s`, as a matcher for the scan loop. */
  function Matcher(d: Dialect, s: string): (m: nat -> Option<nat>)
    ensures Advances(s, m)
    ensures forall p: nat :: m(p) == MatchAt(d, s, p)
  {
    p => MatchAt(d, s, p)
  }

  /** The global scan of dialect `d` from position `i`. */
  function Scan(d: Dialect, s: string, i: nat): seq<Token> {
    ScanWith(s, i, Matcher(d, s))
  }

  /** No chord symbol is accepted at any position in `[lo, hi)`. */
  ghost predicate NoMatchIn(d: Dialect, s: string, lo: nat, hi: nat) {
    forall p: nat, e: nat :: lo <= p < hi ==> !Accepts(d, s, p, e)
  }

  /** Every token of the global scan is the regex's match at its offset: an accepted chord
      symbol, the longest one there, carrying exactly the text it covers. */
  lemma ScanTokens(d: Dialect, s: string, i: nat)
    ensures forall t :: t in Scan(d, s, i) ==>
      && i <= t.start && t.End() <= |s| && t.text == s[t.start..t.End()]
      && Accepts(d, s, t.start, t.End())
      && forall e: nat :: Accepts(d, s, t.start, e) ==> e <= t.End()
  {
    var m := Matcher(d, s);
    ScanWithTokens(s, i, m);
    forall t | t in Scan(d, s, i)
      ensures Accepts(d, s, t.start, t.End())
      ensures forall e: nat :: Accepts(d, s, t.start, e) ==> e <= t.End()
    {
      assert MatchAt(d, s, t.start) == m(t.start);
    }
  }

  /** The tokens are non-overlapping and in increasing order of offset. */
  lemma ScanOrdered(d: Dialect, s: string, i: nat)
    ensures Ordered(Scan(d, s, i), i)
  {
    ScanWithOrdered(s, i, Matcher(d, s));
  }

  /** A stretch where the matcher finds nothing holds no accepted chord symbol. */
  lemma SilentMeansNoMatch(d: Dialect, s: string, lo: nat, hi: nat)
    requires Silent(Matcher(d, s), lo, hi)
    ensures NoMatchIn(d, s, lo, hi)
  {
    forall p: nat, e: nat | lo <= p < hi
      ensures !Accepts(d, s, p, e)
    {
      assert Matcher(d, s)(p).None?;
      assert MatchAt(d, s, p).None?;
    }
  }

  /** The scan misses nothing: no chord symbol is accepted in the gap before a token, nor
      after the last token. */
  lemma ScanComplete(d: Dialect, s: string, i: nat)
    ensures forall k :: 0 <= k < |Scan(d, s, i)| ==>
      NoMatchIn(d, s, GapStart(Scan(d, s, i), i, k), Scan(d, s, i)[k].start)
    ensures NoMatchIn(d, s, GapStart(Scan(d, s, i), i, |Scan(d, s, i)|), |s| + 1)
  {
    var m := Matcher(d, s);
    var toks := Scan(d, s, i);
    ScanWithLeftmost(s, i, m);
    ScanWithExhaustive(s, i, m);
    forall k | 0 <= k < |toks|
      ensures NoMatchIn(d, s, GapStart(toks, i, k), toks[k].start)
    {
      SilentMeansNoMatch(d, s, GapStart(toks, i, k), toks[k].start);
    }
    SilentMeansNoMatch(d, s, GapStart(toks, i, |toks|), |s| + 1);
  }

  /** The texts of a scan's tokens, in order. */
  function TokenTexts(toks: seq<Token>): seq<string> {
    if |toks| == 0 then [] else [toks[0].text] + TokenTexts(toks[1..])
  }

  lemma {:induction false} TokenTextsMembers(toks: seq<Token>)
    ensures |TokenTexts(toks)| == |toks|
    ensures forall c :: c in TokenTexts(toks) <==> exists t :: t in toks && t.text == c
  {
    if |toks| > 0 {
      TokenTextsMembers(toks[1..]);
      assert forall t :: t in toks <==> t == toks[0] || t in toks[1..];
    }
  }

  /** The scan of a whole string, as the regex's global search returns it: the tokens are in
      order without overlap; each lies in the text, is an accepted chord symbol and is the
      longest one at its offset; and no chord symbol starts in a gap or after the last token. */
  function Tokenize(d: Dialect, s: string): (r: seq<Token>)
    ensures Ordered(r, 0)
    ensures forall t :: t in r ==>
      && t.End() <= |s| && t.text == s[t.start..t.End()]
      && Accepts(d, s, t.start, t.End())
      && forall e: nat :: Accepts(d, s, t.start, e) ==> e <= t.End()
    ensures forall k :: 0 <= k < |r| ==> NoMatchIn(d, s, GapStart(r, 0, k), r[k].start)
    ensures NoMatchIn(d, s, GapStart(r, 0, |r|), |s| + 1)
  {
    ScanTokens(d, s, 0);
    ScanOrdered(d, s, 0);
    ScanComplete(d, s, 0);
    Scan(d, s, 0)
  }

  /** Every character of a chord symbol after the root is `#` or a word character, and
      none of them is a root letter. */
  lemma SymbolChars(d: Dialect, t: string)
    requires IsChordSymbol(d, t)
    ensures forall k :: 0 <= k < |t| ==> t[k] == '#' || IsWordChar(t[k])
    ensures forall k :: 1 <= k < |t| ==> !IsRoot(t[k])
    ensures forall k :: 2 <= k < |t| ==> IsQualityChar(t[k])
  {
    forall k | 1 <= k < |t|
      ensures (t[k] == '#' || IsWordChar(t[k])) && !IsRoot(t[k])
      ensures k >= 2 ==> IsQualityChar(t[k])
    {
      if OptQuality(d, t[1..]) && |t[1..]| > 0 {
        assert t[k] == t[1..][k - 1];
        assert t[k] in t[1..];
      } else if k >= 2 {
        assert t[k] == t[2..][k - 2];
        assert t[k] in t[2..];
      }
    }
  }

  /** Inside an accepted match, every character after the root is `#` or a word character. */
  lemma SymbolCharAt(d: Dialect, s: string, i: nat, m: nat, e: nat)
    requires i < m < e <= |s| && IsChordSymbol(d, s[i..e])
    ensures s[m] == '#' || IsWordChar(s[m])
    ensures m >= i + 2 ==> IsQualityChar(s[m])
  {
    SymbolChars(d, s[i..e]);
    assert s[m] == s[i..e][m - i];
  }

  /** With a lookahead `(?![#\w])`, at most one end is accepted at each position, so the
      order of the alternatives cannot change what is matched. */
  lemma LookaheadMatchIsUnique(d: Dialect, s: string, i: nat, e1: nat, e2: nat)
    requires d.trailing == Lookahead
    requires Accepts(d, s, i, e1) && Accepts(d, s, i, e2)
    ensures e1 == e2
  {
    if e1 < e2 {
      SymbolCharAt(d, s, i, e1, e2);
    } else if e2 < e1 {
      SymbolCharAt(d, s, i, e2, e1);
    }
  }

  /** A sharp chord without quality, followed by the end or by a character that is neither
      `#` nor a word character, is one page token including its `#`. */
  lemma LookaheadKeepsBareSharp(d: Dialect, s: string, i: nat)
    requires d.trailing == Lookahead
    requires i + 1 < |s| && IsRoot(s[i]) && Boundary(s, i) && s[i + 1] == '#'
    requires i + 2 == |s| || (s[i + 2] != '#' && !IsWordChar(s[i + 2]))
    ensures MatchAt(d, s, i) == Some(i + 2)
  {
    assert s[i..i + 2][1] == '#' && s[i..i + 2][2..] == "";
    assert Accepts(d, s, i, i + 2);
    var r := MatchAt(d, s, i);
    LookaheadMatchIsUnique(d, s, i, r.value, i + 2);
  }

  /** The same text under a trailing `\b`: after `#` the boundary fails, the engine drops the
      accidental, and only the root letter is matched. */
  lemma BoundaryDropsBareSharp(d: Dialect, s: string, i: nat)
    requires d.trailing == WordBoundary
    requires i + 1 < |s| && IsRoot(s[i]) && Boundary(s, i) && s[i + 1] == '#'
    requires i + 2 == |s| || !IsWordChar(s[i + 2])
    ensures MatchAt(d, s, i) == Some(i + 1)
  {
    assert s[i..i + 1][1..] == "";
    assert Accepts(d, s, i, i + 1);
    var r := MatchAt(d, s, i);
    if r.value > i + 2 {
      SymbolCharAt(d, s, i, i + 2, r.value);
    }
  }
}
