/** The song page: which lines of a chord sheet are chord lines, how a chord line is cut into
    plain runs and chord spans, the rows of the chords-and-lyrics panel, and the chord chips. */
module SongPage {
  import opened Wrappers
  import opened Text
  import opened ChordScan
  import opened UserChords

  // ---- Lengths as JavaScript counts them ----

  /** The number of UTF-16 code units of a character: two above the Basic Multilingual Plane. */
  function CodeUnits(c: char): nat {
    if c as int > 0xFFFF then 2 else 1
  }

  /** The length, in UTF-16 code units, of the text with its white space removed. It is zero
      exactly when the text is all white space, and at most two units per character. */
  function NonSpaceUnits(s: string): (n: nat)
    ensures n <= 2 * |s|
    ensures n == 0 <==> forall k :: 0 <= k < |s| ==> IsJsSpace(s[k])
  {
    if |s| == 0 then 0
    else (if IsJsSpace(s[0]) then 0 else CodeUnits(s[0])) + NonSpaceUnits(s[1..])
  }

  lemma {:induction false} NonSpaceUnitsAppend(a: string, b: string)
    ensures NonSpaceUnits(a + b) == NonSpaceUnits(a) + NonSpaceUnits(b)
  {
    if |a| == 0 {
      assert a + b == b;
    } else {
      assert (a + b)[1..] == a[1..] + b;
      NonSpaceUnitsAppend(a[1..], b);
    }
  }

  /** A string of printable ASCII characters other than the space counts one unit each. */
  lemma {:induction false} SolidAsciiUnits(t: string)
    requires forall k :: 0 <= k < |t| ==> '!' <= t[k] <= '~'
    ensures NonSpaceUnits(t) == |t|
  {
    if |t| > 0 {
      SolidAsciiUnits(t[1..]);
    }
  }

  /** The total length of the matched chord texts. */
  function ChordChars(toks: seq<Token>): nat {
    if |toks| == 0 then 0 else |toks[0].text| + ChordChars(toks[1..])
  }

  /** The chords found from position `i` on never outnumber, in characters, the characters of
      `s[i..]` that are not white space: tokens are disjoint and hold no white space. */
  lemma {:induction false} ChordCharsBounded(d: Dialect, s: string, i: nat)
    requires i <= |s|
    ensures ChordChars(Scan(d, s, i)) <= NonSpaceUnits(s[i..])
    decreases |s| - i
  {
    if i < |s| {
      assert Matcher(d, s)(i) == MatchAt(d, s, i);
      assert s[i..] == s[i..i + 1] + s[i + 1..];
      NonSpaceUnitsAppend(s[i..i + 1], s[i + 1..]);
      match MatchAt(d, s, i)
      case None =>
        ChordCharsBounded(d, s, i + 1);
      case Some(e) =>
        assert Scan(d, s, i) == [Token(i, s[i..e])] + Scan(d, s, e);
        MatchUnits(d, s, i, e);
        ChordCharsBounded(d, s, e);
    }
  }

  /** A match counts one unit per character, and the units of the rest of the text follow. */
  lemma MatchUnits(d: Dialect, s: string, i: nat, e: nat)
    requires MatchAt(d, s, i) == Some(e)
    ensures i < e <= |s|
    ensures NonSpaceUnits(s[i..]) == (e - i) + NonSpaceUnits(s[e..])
  {
    var t := s[i..e];
    assert s[i..] == t + s[e..];
    NonSpaceUnitsAppend(t, s[e..]);
    SymbolChars(d, t);
    SolidAsciiUnits(t);
  }

  // ---- isChordLine ----

  /** Whether a line of the sheet is a chord line: after trimming it is not empty, the chord
      pattern matches in it, and the matched chord texts make up more than half of its
      characters that are not white space. `chordChars / nonSpace > 0.5` is the exact
      comparison `2 * chordChars > nonSpace` for lengths below 2^52. */
  function IsChordLine(line: string): (b: bool)
    ensures var t := Trim(line, IsJsSpace);
      b <==> 2 * ChordChars(Tokenize(Page, t)) > NonSpaceUnits(t)
  {
    var t := Trim(line, IsJsSpace);
    ChordCharsBounded(Page, t, 0);
    assert t[0..] == t;
    if t == "" then
      false
    else
      var toks := Tokenize(Page, t);
      if |toks| == 0 then
        false
      else
        var chordChars := ChordChars(toks);
        var nonSpace := NonSpaceUnits(t);
        nonSpace > 0 && 2 * chordChars > nonSpace
  }

  /** A blank line, or one in which no chord is matched, is never a chord line. */
  lemma ChordLineNeedsChords(line: string)
    requires Trim(line, IsJsSpace) == "" || Tokenize(Page, Trim(line, IsJsSpace)) == []
    ensures !IsChordLine(line)
  {
  }

  /** No chord is matched where no root letter `A`-`G` occurs. */
  lemma {:induction false} NoRootNoChords(d: Dialect, s: string, i: nat)
    requires forall k :: 0 <= k < |s| ==> !IsRoot(s[k])
    ensures Scan(d, s, i) == []
    decreases |s| - i
  {
    if i < |s| {
      assert Matcher(d, s)(i) == MatchAt(d, s, i);
      NoRootNoChords(d, s, i + 1);
    }
  }

  /** So a lyric line without any of the capitals `A`-`G` is always shown as a lyric line. */
  lemma LyricWithoutRootLetters(line: string)
    requires forall k :: 0 <= k < |line| ==> !IsRoot(line[k])
    ensures !IsChordLine(line)
  {
    var t := Trim(line, IsJsSpace);
    forall k | 0 <= k < |t|
      ensures !IsRoot(t[k])
    {
      TrimChars(line, IsJsSpace, t[k]);
    }
    NoRootNoChords(Page, t, 0);
  }

  // ---- renderChordLine ----

  /** A part of a rendered chord line: a run of plain text, or a chord span marked known or
      missing. */
  datatype Segment = Plain(text: string) | Chord(text: string, known: bool)

  /** The text the parts show, in order. */
  function Concat(segs: seq<Segment>): string {
    if |segs| == 0 then "" else segs[0].text + Concat(segs[1..])
  }

  /** The texts of the chord spans, in order. */
  function ChordTexts(segs: seq<Segment>): seq<string> {
    if |segs| == 0 then []
    else (if segs[0].Chord? then [segs[0].text] else []) + ChordTexts(segs[1..])
  }

  /** Every token lies inside `line`, carries the text it covers and is a page chord symbol. */
  predicate InLine(toks: seq<Token>, line: string) {
    forall k :: 0 <= k < |toks| ==>
      toks[k].End() <= |line| && toks[k].text == line[toks[k].start..toks[k].End()]
      && IsChordSymbol(Page, toks[k].text)
  }

  /** Where each chord span starts in the shown text, the first part standing at `offset`. */
  function ChordStartsFrom(segs: seq<Segment>, offset: nat): seq<nat> {
    if |segs| == 0 then []
    else (if segs[0].Chord? then [offset] else []) + ChordStartsFrom(segs[1..], offset + |segs[0].text|)
  }

  /** Where each chord span starts in the line the parts show. */
  function ChordStarts(segs: seq<Segment>): seq<nat> {
    ChordStartsFrom(segs, 0)
  }

  /** The offsets of a scan's tokens, in order. */
  function TokenStarts(toks: seq<Token>): seq<nat> {
    if |toks| == 0 then [] else [toks[0].start] + TokenStarts(toks[1..])
  }

  lemma ChordStartsCons(x: Segment, rest: seq<Segment>, offset: nat)
    ensures ChordStartsFrom([x] + rest, offset) ==
      (if x.Chord? then [offset] else []) + ChordStartsFrom(rest, offset + |x.text|)
  {
    assert ([x] + rest)[1..] == rest;
  }

  lemma ConcatCons(x: Segment, rest: seq<Segment>)
    ensures Concat([x] + rest) == x.text + Concat(rest)
  {
    assert ([x] + rest)[1..] == rest;
  }

  lemma ChordTextsCons(x: Segment, rest: seq<Segment>)
    ensures ChordTexts([x] + rest) == (if x.Chord? then [x.text] else []) + ChordTexts(rest)
  {
    assert ([x] + rest)[1..] == rest;
  }

  /** Dropping the first token leaves an ordered scan that starts after it. */
  lemma OrderedTail(toks: seq<Token>, last: nat)
    requires |toks| > 0 && Ordered(toks, last)
    ensures Ordered(toks[1..], toks[0].End())
  {
    var tail := toks[1..];
    forall k | 0 <= k < |tail|
      ensures GapStart(tail, toks[0].End(), k) <= tail[k].start
    {
      assert GapStart(toks, last, k + 1) <= toks[k + 1].start;
    }
  }

  /** What every rendered chord line guarantees about its parts: a plain run is never empty,
      two plain runs never touch, and a span is a page chord symbol marked known exactly when
      its text is in `known`. */
  predicate WellFormedParts(r: seq<Segment>, known: set<string>) {
    && (forall j :: 0 <= j < |r| && r[j].Plain? ==> r[j].text != "")
    && (forall j :: 0 <= j < |r| && r[j].Chord? ==>
         (r[j].known <==> r[j].text in known) && IsChordSymbol(Page, r[j].text))
    && (forall j :: 0 <= j < |r| - 1 ==> r[j].Chord? || r[j + 1].Chord?)
  }

  lemma PartsCons(x: Segment, rest: seq<Segment>, known: set<string>)
    requires WellFormedParts(rest, known)
    requires x.Plain? ==> x.text != "" && (|rest| == 0 || rest[0].Chord?)
    requires x.Chord? ==> (x.known <==> x.text in known) && IsChordSymbol(Page, x.text)
    ensures WellFormedParts([x] + rest, known)
  {
    var r := [x] + rest;
    assert forall j :: 0 < j < |r| ==> r[j] == rest[j - 1];
  }

  /** The parts from `last` on, as the `exec` loop builds them: the text before each match
      (when there is any), the match as a span, and after the last match the rest. */
  function Pieces(line: string, toks: seq<Token>, last: nat, known: set<string>): (r: seq<Segment>)
    requires last <= |line| && Ordered(toks, last) && InLine(toks, line)
    ensures WellFormedParts(r, known)
    decreases |toks|
  {
    if |toks| == 0 then
      if last < |line| then
        PartsCons(Plain(line[last..]), [], known);
        [Plain(line[last..])]
      else
        []
    else
      var t := toks[0];
      OrderedTail(toks, last);
      var rest := Pieces(line, toks[1..], t.End(), known);
      var span := Chord(t.text, t.text in known);
      PartsCons(span, rest, known);
      if t.start > last then
        PartsCons(Plain(line[last..t.start]), [span] + rest, known);
        [Plain(line[last..t.start])] + ([span] + rest)
      else
        [span] + rest
  }

  lemma SuffixSplit(s: string, a: nat, b: nat)
    requires a <= b <= |s|
    ensures s[a..] == s[a..b] + s[b..]
  {
  }

  /** The parts put back together are the line from `last` on. */
  lemma {:induction false} PiecesCoverLine(line: string, toks: seq<Token>, last: nat, known: set<string>)
    requires last <= |line| && Ordered(toks, last) && InLine(toks, line)
    ensures Concat(Pieces(line, toks, last, known)) == line[last..]
    decreases |toks|
  {
    if |toks| == 0 {
      if last < |line| {
        ConcatCons(Plain(line[last..]), []);
      }
    } else {
      var t := toks[0];
      assert last <= t.start && t.End() <= |line| && t.text == line[t.start..t.End()] by {
        assert GapStart(toks, last, 0) == last;
      }
      OrderedTail(toks, last);
      var rest := Pieces(line, toks[1..], t.End(), known);
      PiecesCoverLine(line, toks[1..], t.End(), known);
      var span := Chord(t.text, t.text in known);
      ConcatCons(span, rest);
      SuffixSplit(line, t.start, t.End());
      if t.start > last {
        ConcatCons(Plain(line[last..t.start]), [span] + rest);
        SuffixSplit(line, last, t.start);
      }
    }
  }

  /** The spans of the parts are the tokens' texts, in order. */
  lemma {:induction false} PiecesSpans(line: string, toks: seq<Token>, last: nat, known: set<string>)
    requires last <= |line| && Ordered(toks, last) && InLine(toks, line)
    ensures ChordTexts(Pieces(line, toks, last, known)) == TokenTexts(toks)
    decreases |toks|
  {
    if |toks| > 0 {
      var t := toks[0];
      OrderedTail(toks, last);
      var rest := Pieces(line, toks[1..], t.End(), known);
      PiecesSpans(line, toks[1..], t.End(), known);
      var span := Chord(t.text, t.text in known);
      ChordTextsCons(span, rest);
      assert TokenTexts(toks) == [t.text] + TokenTexts(toks[1..]);
      if t.start > last {
        ChordTextsCons(Plain(line[last..t.start]), [span] + rest);
      }
    }
  }

  /** A span at `start` after the parts `rest`, with a plain run in front of it from `last`. */
  lemma SpanStarts(last: nat, start: nat, gap: string, span: Segment, rest: seq<Segment>, tail: seq<nat>)
    requires span.Chord? && last + |gap| == start
    requires ChordStartsFrom(rest, start + |span.text|) == tail
    ensures ChordStartsFrom([span] + rest, start) == [start] + tail
    ensures ChordStartsFrom([Plain(gap)] + ([span] + rest), last) == [start] + tail
  {
    ChordStartsCons(span, rest, start);
    ChordStartsCons(Plain(gap), [span] + rest, last);
  }

  /** Each span stands where its token was matched: counting from `last`, the offsets of the
      spans are the tokens' offsets. */
  lemma {:induction false} PiecesStarts(line: string, toks: seq<Token>, last: nat, known: set<string>)
    requires last <= |line| && Ordered(toks, last) && InLine(toks, line)
    ensures ChordStartsFrom(Pieces(line, toks, last, known), last) == TokenStarts(toks)
    decreases |toks|
  {
    if |toks| > 0 {
      var t := toks[0];
      assert last <= t.start && t.End() <= |line| by {
        assert GapStart(toks, last, 0) == last;
      }
      OrderedTail(toks, last);
      var rest := Pieces(line, toks[1..], t.End(), known);
      PiecesStarts(line, toks[1..], t.End(), known);
      var span := Chord(t.text, t.text in known);
      assert TokenStarts(toks) == [t.start] + TokenStarts(toks[1..]);
      var gap := line[last..t.start];
      SpanStarts(last, t.start, gap, span, rest, TokenStarts(toks[1..]));
      if t.start > last {
        assert Pieces(line, toks, last, known) == [Plain(gap)] + ([span] + rest);
      } else {
        assert Pieces(line, toks, last, known) == [span] + rest;
      }
    }
  }

  /** The scan of a line meets what the parts builder needs. */
  lemma TokensInLine(line: string)
    ensures Ordered(Tokenize(Page, line), 0) && InLine(Tokenize(Page, line), line)
  {
    var toks := Tokenize(Page, line);
    ScanTokens(Page, line, 0);
    ScanOrdered(Page, line, 0);
    forall k | 0 <= k < |toks|
      ensures toks[k].End() <= |line| && toks[k].text == line[toks[k].start..toks[k].End()]
      ensures IsChordSymbol(Page, toks[k].text)
    {
      assert toks[k] in toks;
    }
  }

  /** A chord line cut into plain runs and chord spans. The parts put back together are the
      line; a plain run is never empty and two never touch; the spans are the page pattern's
      matches in order, each standing at the offset where it was matched and marked known
      exactly when its text is one of the user's chords. */
  function RenderChordLine(line: string, known: set<string>): (r: seq<Segment>)
    ensures Concat(r) == line
    ensures ChordTexts(r) == TokenTexts(Tokenize(Page, line))
    ensures ChordStarts(r) == TokenStarts(Tokenize(Page, line))
    ensures WellFormedParts(r, known)
  {
    TokensInLine(line);
    PiecesCoverLine(line, Tokenize(Page, line), 0, known);
    PiecesSpans(line, Tokenize(Page, line), 0, known);
    PiecesStarts(line, Tokenize(Page, line), 0, known);
    assert line[0..] == line;
    Pieces(line, Tokenize(Page, line), 0, known)
  }

  // ---- ChordsAndLyrics ----

  /** A row of the chords-and-lyrics panel. */
  datatype Row = ChordRow(parts: seq<Segment>) | LyricRow(shown: string)

  /** What the panel shows. */
  datatype Panel = NoLyrics | Rows(rows: seq<Row>)

  /** The no-break space that keeps an empty lyric line visible. */
  const NoBreakSpace: string := "\U{A0}"

  /** What the row of a line shows: a chord line is a chord row of its rendered parts (which,
      by the contract of `RenderChordLine`, put back together are the line and mark exactly
      the user's chords known); any other line is a lyric row showing the line, or a no-break
      space for an empty line. */
  predicate RowShows(row: Row, line: string, known: set<string>) {
    && (row.ChordRow? <==> IsChordLine(line))
    && (row.ChordRow? ==> row.parts == RenderChordLine(line, known))
    && (row.LyricRow? ==> row.shown == (if line == "" then NoBreakSpace else line))
  }

  /** The row for one line of the sheet. */
  function RowFor(line: string, known: set<string>): (row: Row)
    ensures RowShows(row, line, known)
  {
    if IsChordLine(line) then ChordRow(RenderChordLine(line, known))
    else LyricRow(if line == "" then NoBreakSpace else line)
  }

  /** The chords-and-lyrics panel: a missing or empty text gives the placeholder; otherwise one
      row per line of the text split at line feeds. A chord line becomes its rendered parts,
      with the user's chords marked known; any other line is shown as it is, an empty one as a
      no-break space. */
  function ChordsAndLyrics(text: Option<string>, known: set<string>): (p: Panel)
    ensures p.NoLyrics? <==> text.None? || text.value == ""
    ensures p.Rows? ==> |p.rows| == |Split(text.value, '\n')| == Occurrences(text.value, '\n') + 1
    ensures p.Rows? ==> var lines := Split(text.value, '\n');
      forall j :: 0 <= j < |p.rows| ==> RowShows(p.rows[j], lines[j], known)
  {
    if text.None? || text.value == "" then
      NoLyrics
    else
      var lines := Split(text.value, '\n');
      SplitCount(text.value, '\n');
      Rows(seq(|lines|, j requires 0 <= j < |lines| => RowFor(lines[j], known)))
  }

  /** The lines the rows are made from, joined with `\n`, are the text: no text is lost or
      invented by the split. */
  lemma PanelCoversText(text: string)
    ensures Join(Split(text, '\n'), "\n") == text
  {
    JoinSplit(text, '\n');
  }

  // ---- Chips and the stored chord list ----

  /** A chip of the "Chords Used" row. */
  datatype Chip = Chip(text: string, known: bool)

  /** The "Chords Used" chips: one per listed chord, in order, marked known exactly when the
      chord is one of the user's; a song without a chord list has no chips. */
  function Chips(chordList: Option<seq<string>>, known: set<string>): (r: seq<Chip>)
    ensures |r| == |chordList.GetOr([])|
    ensures forall k :: 0 <= k < |r| ==>
      r[k].text == chordList.GetOr([])[k] && (r[k].known <==> r[k].text in known)
  {
    var list := chordList.GetOr([]);
    seq(|list|, k requires 0 <= k < |list| => Chip(list[k], list[k] in known))
  }

  /** The user's chords as the song page reads them back from storage: an absent entry reads
      as the empty string, then the comma list is parsed as on the search page. */
  function StoredKnownChords(stored: Option<string>): (u: set<string>)
    ensures stored.None? ==> u == {}
    ensures forall c :: c in u <==>
      c != "" && exists p :: p in Split(stored.GetOr(""), ',') && Trim(p, IsJsSpace) == c
  {
    EmptyListNoChords(IsJsSpace);
    ChordSet(stored.GetOr(""), IsJsSpace)
  }
}
