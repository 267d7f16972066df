/** The backend's chord extractor: tags are blanked out, slash chords are split, the chord
    pattern (trailing `\b`, no `5`, no bare `sus`) is matched, and the matches are
    deduplicated keeping the first occurrence of each. */
module ChordExtractor {
  import opened Wrappers
  import opened Text
  import opened ChordScan
  import opened PyValues

  // ---- TAG_PATTERN: `<[^>]+>` replaced by a space ----

  /** `<[^>]+>` matches `s[i..e]`: `<`, at least one character other than `>`, then `>`. */
  predicate TagAt(s: string, i: nat, e: nat) {
    i + 3 <= e <= |s| && s[i] == '<' && s[e - 1] == '>' && forall k :: i < k < e - 1 ==> s[k] != '>'
  }

  /** The first `>` at or after `k`, or `|s|` when there is none. */
  function CloseFrom(s: string, k: nat): (n: nat)
    requires k <= |s|
    ensures k <= n <= |s|
    ensures forall m :: k <= m < n ==> s[m] != '>'
    ensures n < |s| ==> s[n] == '>'
    decreases |s| - k
  {
    if k == |s| || s[k] == '>' then k else CloseFrom(s, k + 1)
  }

  /** Where the tag at `i` ends, if there is one: `[^>]+` runs up to the next `>`, which must
      exist and must not be the very next character. */
  function TagEnd(s: string, i: nat): (r: Option<nat>)
    ensures r.Some? ==> TagAt(s, i, r.value)
  {
    if i < |s| && s[i] == '<' then
      var c := CloseFrom(s, i + 1);
      if i + 1 < c < |s| then Some(c + 1) else None
    else
      None
  }

  /** Tag removal from position `i` on: scanning left to right, a tag that starts at the
      current position is replaced by one space and the scan resumes after it; any other
      character is kept. */
  function StripFrom(s: string, i: nat): string
    decreases |s| - i
  {
    if i >= |s| then
      ""
    else
      match TagEnd(s, i)
      case Some(e) => " " + StripFrom(s, e)
      case None => [s[i]] + StripFrom(s, i + 1)
  }

  /** Tag removal over the whole text. No tag is left in the result. */
  function StripTags(s: string): (r: string)
    ensures forall i: nat, e: nat :: !TagAt(r, i, e)
  {
    StripLeavesNoOpenTag(s, 0);
    NoOpenTagHasNoTag(StripFrom(s, 0));
    StripFrom(s, 0)
  }

  /** No `>` at or after position `j`. */
  predicate NoCloseFrom(r: string, j: nat) {
    forall m :: j <= m < |r| ==> r[m] != '>'
  }

  /** Every `<` is followed at once by `>`, or by no `>` at all: no tag can start anywhere. */
  predicate NoOpenTag(r: string) {
    forall k :: 0 <= k < |r| && r[k] == '<' ==> (k + 1 < |r| && r[k + 1] == '>') || NoCloseFrom(r, k + 1)
  }

  lemma NoOpenTagHasNoTag(r: string)
    requires NoOpenTag(r)
    ensures forall i: nat, e: nat :: !TagAt(r, i, e)
  {
    forall i: nat, e: nat
      ensures !TagAt(r, i, e)
    {
      if i + 3 <= e <= |r| && r[i] == '<' && r[e - 1] == '>' {
        assert r[i + 1] == '>';
      }
    }
  }

  lemma ConsNoOpenTag(c: char, rest: string)
    requires NoOpenTag(rest)
    requires c == '<' ==> (|rest| > 0 && rest[0] == '>') || NoCloseFrom(rest, 0)
    ensures NoOpenTag([c] + rest)
  {
    var r := [c] + rest;
    forall k | 0 < k < |r| && r[k] == '<'
      ensures (k + 1 < |r| && r[k + 1] == '>') || NoCloseFrom(r, k + 1)
    {
      assert r[k] == rest[k - 1];
      assert forall m :: k + 1 <= m < |r| ==> r[m] == rest[m - 1];
    }
  }

  /** Where the input holds no `>` any more, neither does the output. */
  lemma {:induction false} StripKeepsNoClose(s: string, i: nat)
    requires NoCloseFrom(s, i)
    ensures NoCloseFrom(StripFrom(s, i), 0)
    decreases |s| - i
  {
    if i < |s| {
      StripKeepsNoClose(s, i + 1);
      var rest := StripFrom(s, i + 1);
      assert forall m :: 1 <= m < |[s[i]] + rest| ==> ([s[i]] + rest)[m] == rest[m - 1];
    }
  }

  /** Stripping leaves no tag behind: every `<` it keeps could not start one in the input,
      and it cannot start one in the output either. */
  lemma {:induction false} StripLeavesNoOpenTag(s: string, i: nat)
    ensures NoOpenTag(StripFrom(s, i))
    decreases |s| - i
  {
    if i < |s| {
      match TagEnd(s, i)
      case Some(e) =>
        StripLeavesNoOpenTag(s, e);
        ConsNoOpenTag(' ', StripFrom(s, e));
      case None =>
        StripLeavesNoOpenTag(s, i + 1);
        var rest := StripFrom(s, i + 1);
        if s[i] == '<' && i + 1 < |s| {
          if CloseFrom(s, i + 1) == i + 1 {
            assert s[i + 1] == '>';
            assert TagEnd(s, i + 1).None?;
          } else {
            StripKeepsNoClose(s, i + 1);
          }
        }
        ConsNoOpenTag(s[i], rest);
    }
  }

  /** Text without tags passes through unchanged. */
  lemma {:induction false} StripTagFree(s: string, i: nat)
    requires i <= |s|
    requires forall j: nat, e: nat :: !TagAt(s, j, e)
    ensures StripFrom(s, i) == s[i..]
    decreases |s| - i
  {
    if i < |s| {
      StripTagFree(s, i + 1);
      assert s[i..] == [s[i]] + s[i + 1..];
    }
  }

  /** So stripping twice is stripping once. */
  lemma StripIdempotent(s: string)
    ensures StripTags(StripTags(s)) == StripTags(s)
  {
    StripTagFree(StripTags(s), 0);
  }

  /** The tag at a position, when there is one, is the one `TagEnd` finds: `[^>]+` cannot
      stop before the first `>`, nor run past it. */
  lemma TagEndUnique(s: string, i: nat, e: nat)
    requires TagAt(s, i, e)
    ensures TagEnd(s, i) == Some(e)
  {
    var c := CloseFrom(s, i + 1);
    assert s[e - 1] == '>';
  }

  /** A tag is a tag wherever the text around it starts. */
  lemma TagAtShift(x: string, b: string, j: nat, e: nat)
    ensures TagAt(x + b, |x| + j, |x| + e) <==> TagAt(b, j, e)
  {
    var s := x + b;
    if TagAt(b, j, e) {
      forall k | |x| + j < k < |x| + e - 1
        ensures s[k] != '>'
      {
        assert s[k] == b[k - |x|];
      }
    }
    if TagAt(s, |x| + j, |x| + e) {
      forall k | j < k < e - 1
        ensures b[k] != '>'
      {
        assert s[|x| + k] == b[k];
      }
    }
  }

  /** The tag found at a position does not depend on the text in front of it. */
  lemma TagEndShift(x: string, b: string, j: nat)
    ensures TagEnd(b, j).Some? ==> TagEnd(x + b, |x| + j) == Some(|x| + TagEnd(b, j).value)
    ensures TagEnd(x + b, |x| + j).Some? ==>
      TagEnd(x + b, |x| + j).value >= |x| && TagEnd(b, j) == Some(TagEnd(x + b, |x| + j).value - |x|)
  {
    if TagEnd(b, j).Some? {
      TagAtShift(x, b, j, TagEnd(b, j).value);
      TagEndUnique(x + b, |x| + j, |x| + TagEnd(b, j).value);
    }
    if TagEnd(x + b, |x| + j).Some? {
      var e := TagEnd(x + b, |x| + j).value;
      TagAtShift(x, b, j, e - |x|);
      TagEndUnique(b, j, e - |x|);
    }
  }

  /** One step of stripping at a tag, seen in `b` and in `x + b`. */
  lemma SuffixTagStep(x: string, b: string, j: nat, e: nat)
    requires j < |b| && TagEnd(b, j) == Some(e)
    ensures StripFrom(b, j) == " " + StripFrom(b, e)
    ensures StripFrom(x + b, |x| + j) == " " + StripFrom(x + b, |x| + e)
  {
    TagEndShift(x, b, j);
  }

  /** One step of stripping at a character that starts no tag, seen in `b` and in `x + b`. */
  lemma SuffixCharStep(x: string, b: string, j: nat)
    requires j < |b| && TagEnd(b, j).None?
    ensures StripFrom(b, j) == [b[j]] + StripFrom(b, j + 1)
    ensures StripFrom(x + b, |x| + j) == [b[j]] + StripFrom(x + b, |x| + j + 1)
  {
    TagEndShift(x, b, j);
    assert (x + b)[|x| + j] == b[j];
  }

  /** What stripping does to the end of a text does not depend on what comes before it. */
  lemma {:induction false} StripFromSuffix(x: string, b: string, j: nat)
    ensures StripFrom(x + b, |x| + j) == StripFrom(b, j)
    decreases |b| - j
  {
    if j < |b| {
      match TagEnd(b, j)
      case Some(e) =>
        SuffixTagStep(x, b, j, e);
        StripFromSuffix(x, b, e);
      case None =>
        SuffixCharStep(x, b, j);
        StripFromSuffix(x, b, j + 1);
    }
  }

  /** Text without `<` is copied as it is up to where it ends. */
  lemma {:induction false} StripPlainPrefix(a: string, rest: string, i: nat)
    requires '<' !in a && i <= |a|
    ensures StripFrom(a + rest, i) == a[i..] + StripFrom(a + rest, |a|)
    decreases |a| - i
  {
    if i < |a| {
      var s := a + rest;
      assert s[i] == a[i];
      StripPlainPrefix(a, rest, i + 1);
      assert a[i..] == [a[i]] + a[i + 1..];
    }
  }

  /** A tag where it stands is replaced by one space, and stripping resumes after it. */
  lemma StripAtTag(s: string, i: nat, e: nat)
    requires TagAt(s, i, e)
    ensures StripFrom(s, i) == " " + StripFrom(s, e)
  {
    assert TagEnd(s, i) == Some(e);
  }

  /** A bracketed body without `>` is a tag, wherever it stands. */
  lemma TagAtWrapped(a: string, body: string, b: string)
    requires body != "" && '>' !in body
    ensures TagAt(a + ("<" + body + ">") + b, |a|, |a| + |body| + 2)
  {
    var s := a + ("<" + body + ">") + b;
    var e := |a| + |body| + 2;
    assert s[|a|] == '<' && s[e - 1] == '>';
    forall k | |a| < k < e - 1
      ensures s[k] != '>'
    {
      assert s[k] == body[k - |a| - 1];
    }
  }

  /** A tag is replaced by exactly one space: the text in front of it (which opens no tag) is
      kept, the tag with everything between its brackets is gone, and the text after it is
      stripped in its own right. Text inside a tag therefore never reaches the chord scan. */
  lemma StripTagged(a: string, body: string, b: string)
    requires '<' !in a && body != "" && '>' !in body
    ensures StripTags(a + "<" + body + ">" + b) == a + " " + StripTags(b)
  {
    StripFromTagged(a, "<" + body + ">", body, b);
    assert a + "<" + body + ">" + b == a + ("<" + body + ">") + b;
  }

  lemma StripFromTagged(a: string, tag: string, body: string, b: string)
    requires '<' !in a && body != "" && '>' !in body && tag == "<" + body + ">"
    ensures StripFrom(a + tag + b, 0) == a + " " + StripFrom(b, 0)
  {
    var s := a + tag + b;
    TagAtWrapped(a, body, b);
    StripAtTag(s, |a|, |a| + |tag|);
    assert a + (tag + b) == s;
    StripPlainPrefix(a, tag + b, 0);
    StripFromSuffix(a + tag, b, 0);
    assert a[0..] == a;
  }



  // ---- SLASH_PATTERN: `X/Y` rewritten to `X Y` ----

  /** The length of `[A-G](?:#|b)?` at a root letter: the accidental is taken when present.
      Giving it back never helps, because the character after the root would then have to be
      `/` or the end of the pattern, and an accidental is neither. */
  function NoteLength(s: string, i: nat): nat {
    if i + 1 < |s| && IsAccidental(s[i + 1]) then 2 else 1
  }

  /** The slash chord matched at `i`, if any: the offset of its `/` and its end. */
  function SlashAt(s: string, i: nat): (r: Option<(nat, nat)>)
    ensures r.Some? ==> var (p, e) := r.value;
      i < p && p + 1 < e <= |s| && s[p] == '/' && IsRoot(s[i]) && IsRoot(s[p + 1])
  {
    if i < |s| && IsRoot(s[i]) then
      var p := i + NoteLength(s, i);
      if p + 1 < |s| && s[p] == '/' && IsRoot(s[p + 1]) then
        Some((p, p + 1 + NoteLength(s, p + 1)))
      else
        None
    else
      None
  }

  /** Whether the `/` at `k` belongs to a slash chord the pattern matches in `s[i..]`: the
      scan tries each offset from left to right and, after a match, resumes where the match
      ends, so matches never overlap. */
  predicate SlashMatched(s: string, i: nat, k: nat)
    ensures SlashMatched(s, i, k) ==> i < k < |s| && s[k] == '/'
    decreases |s| - i
  {
    if i >= |s| then
      false
    else
      match SlashAt(s, i)
      case Some((p, e)) => k == p || SlashMatched(s, e, k)
      case None => SlashMatched(s, i + 1, k)
  }

  /** The slash-chord rewrite. Replacing each match `X/Y` by its two groups with a space
      between them keeps the notes where they are and puts a space where the `/` was, so the
      result is the text with exactly the matched slashes turned into spaces. */
  function RewriteSlashes(s: string): (r: string)
    ensures |r| == |s|
    ensures forall k :: 0 <= k < |s| ==> (r[k] == ' ' <==> SlashMatched(s, 0, k) || s[k] == ' ')
  {
    seq(|s|, k requires 0 <= k < |s| => if SlashMatched(s, 0, k) then ' ' else s[k])
  }

  /** A slash or a space: the two characters the rewrite swaps. */
  predicate IsSeparator(c: char) {
    c == '/' || c == ' '
  }

  /** `t` is `s` with some separators changed into other separators. */
  predicate SameButSeparators(s: string, t: string) {
    |s| == |t| && forall k :: 0 <= k < |s| ==> s[k] == t[k] || (IsSeparator(s[k]) && IsSeparator(t[k]))
  }

  /** `b` is `a` with some slashes turned into spaces. */
  predicate SlashesToSpaces(a: string, b: string) {
    |a| == |b| && forall k :: 0 <= k < |a| ==> b[k] == a[k] || (a[k] == '/' && b[k] == ' ')
  }

  /** The rewrite changes nothing but slashes, each into a space. */
  lemma RewriteOnlySeparates(s: string)
    ensures SlashesToSpaces(s, RewriteSlashes(s))
  {
  }

  lemma RewriteIsSameButSeparators(s: string)
    ensures SameButSeparators(s, RewriteSlashes(s))
  {
    RewriteOnlySeparates(s);
  }

  /** A chained slash chord is only split once: the second note is consumed by the first
      match, so the next `/` has no root letter before it. */
  lemma ChainedSlashSplitsOnce()
    ensures RewriteSlashes("C/G/D") == "C G/D"
  {
    var s := "C/G/D";
    assert SlashAt(s, 0) == Some((1, 3));
    assert SlashAt(s, 3).None?;
    assert SlashAt(s, 4).None?;
    forall k: nat
      ensures SlashMatched(s, 0, k) <==> k == 1
    {
    }
    var r := RewriteSlashes(s);
    assert r[0] == 'C' && r[1] == ' ' && r[2] == 'G' && r[3] == '/' && r[4] == 'D';
  }

  /** A note of the slash pattern: a root letter, optionally followed by an accidental. */
  predicate IsNote(x: string) {
    (|x| == 1 && IsRoot(x[0])) || (|x| == 2 && IsRoot(x[0]) && IsAccidental(x[1]))
  }

  /** Whether a slash chord is matched at an offset, and where, does not depend on the text
      in front of it. */
  lemma SlashAtShift(x: string, b: string, j: nat)
    ensures SlashAt(x + b, |x| + j).Some? <==> SlashAt(b, j).Some?
    ensures SlashAt(b, j).Some? ==>
      SlashAt(x + b, |x| + j) == Some((|x| + SlashAt(b, j).value.0, |x| + SlashAt(b, j).value.1))
  {
    var s := x + b;
    forall k | j <= k < |b|
      ensures s[|x| + k] == b[k]
    {
    }
    if j < |b| {
      assert NoteLength(s, |x| + j) == NoteLength(b, j);
      var p := j + NoteLength(b, j);
      if p + 1 < |b| {
        assert NoteLength(s, |x| + p + 1) == NoteLength(b, p + 1);
      }
    }
  }

  /** Which slashes the scan from a later offset rewrites does not depend on the text in
      front: a slash of `b` is rewritten exactly when it is once `b` has `x` in front of it. */
  lemma {:induction false} SlashMatchedSuffix(x: string, b: string, j: nat, k: nat)
    ensures SlashMatched(b, j, k) <==> SlashMatched(x + b, |x| + j, |x| + k)
    decreases |b| - j
  {
    SlashAtShift(x, b, j);
    if j < |b| {
      match SlashAt(b, j)
      case Some((p, e)) =>
        SlashMatchedSuffix(x, b, e, k);
      case None =>
        SlashMatchedSuffix(x, b, j + 1, k);
    }
  }

  /** The suffix property read from the whole text: past `c`, the slashes rewritten in
      `c + b` are those rewritten in `b`, moved by `|c|`. */
  lemma SlashMatchedPast(c: string, b: string, k: nat)
    ensures |c| <= k ==> (SlashMatched(c + b, |c|, k) <==> SlashMatched(b, 0, k - |c|))
  {
    if |c| <= k {
      var m := k - |c|;
      SlashMatchedSuffix(c, b, 0, m);
      assert |c| + m == k && |c| + 0 == |c|;
    }
  }

  /** Over text without root letters the scan finds no slash chord. */
  lemma {:induction false} SlashMatchedPlainPrefix(a: string, rest: string, i: nat, k: nat)
    requires forall k :: 0 <= k < |a| ==> !IsRoot(a[k])
    requires i <= |a|
    ensures SlashMatched(a + rest, i, k) == SlashMatched(a + rest, |a|, k)
    decreases |a| - i
  {
    if i < |a| {
      assert (a + rest)[i] == a[i];
      assert SlashAt(a + rest, i).None?;
      SlashMatchedPlainPrefix(a, rest, i + 1, k);
    }
  }

  /** After text without root letters, the first slash chord of `t` is the first one
      matched, and the scan resumes after it. */
  lemma SlashMatchedAfterPlain(a: string, t: string, p: nat, e: nat, k: nat)
    requires forall k :: 0 <= k < |a| ==> !IsRoot(a[k])
    requires SlashAt(t, 0) == Some((p, e))
    ensures SlashMatched(a + t, 0, k) <==> k == |a| + p || SlashMatched(a + t, |a| + e, k)
  {
    SlashMatchedPlainPrefix(a, t, 0, k);
    SlashAtShift(a, t, 0);
  }

  /** A slash chord at the start of a text is matched whole: both notes and the `/`. */
  lemma SlashChordAtStart(x: string, y: string, b: string)
    requires IsNote(x) && IsNote(y)
    requires |y| == 1 && |b| > 0 ==> !IsAccidental(b[0])
    ensures SlashAt(x + "/" + y + b, 0) == Some((|x|, |x| + 1 + |y|))
  {
    var t := x + "/" + y + b;
    assert t[0] == x[0] && t[|x|] == '/' && t[|x| + 1] == y[0];
    assert NoteLength(t, 0) == |x|;
    assert NoteLength(t, |x| + 1) == |y|;
  }

  /** The text around a slash chord, read as prefix and rest or as prefix-and-chord and rest. */
  lemma RegroupSlashChord(a: string, x: string, y: string, b: string)
    ensures a + x + "/" + y + b == a + (x + "/" + y + b)
    ensures a + x + "/" + y + b == (a + (x + "/" + y)) + b
  {
  }

  /** The slashes rewritten in text without root letters, then a slash chord `x/y`, then the
      rest: the chord's own slash, and those of the rest, moved past the chord. */
  lemma SlashMatchedOfChord(a: string, x: string, y: string, b: string, k: nat)
    requires forall k :: 0 <= k < |a| ==> !IsRoot(a[k])
    requires IsNote(x) && IsNote(y)
    requires |y| == 1 && |b| > 0 ==> !IsAccidental(b[0])
    ensures var n := |a| + |x| + 1 + |y|;
      SlashMatched(a + x + "/" + y + b, 0, k) <==> k == |a| + |x| || (n <= k && SlashMatched(b, 0, k - n))
  {
    var c := x + "/" + y;
    RegroupSlashChord(a, x, y, b);
    SlashChordAtStart(x, y, b);
    SlashMatchedAfterPlain(a, x + "/" + y + b, |x|, |x| + 1 + |y|, k);
    SlashMatchedPast(a + c, b, k);
    assert |a + c| == |a| + (|x| + 1 + |y|);
  }

  /** Every slash chord `x/y` the rewrite meets becomes `x y`, and the rewrite carries on
      after it: text without root letters, then the chord, then the rest, rewrites to the
      text, the two notes with a space between them, and the rewritten rest. A one-letter
      second note must not be followed by an accidental, which the pattern would take into
      the note. */
  lemma RewriteSlashChord(a: string, x: string, y: string, b: string)
    requires forall k :: 0 <= k < |a| ==> !IsRoot(a[k])
    requires IsNote(x) && IsNote(y)
    requires |y| == 1 && |b| > 0 ==> !IsAccidental(b[0])
    ensures RewriteSlashes(a + x + "/" + y + b) == a + x + " " + y + RewriteSlashes(b)
  {
    var s := a + x + "/" + y + b;
    var want := a + x + " " + y + RewriteSlashes(b);
    var n := |a| + |x| + 1 + |y|;
    var r := RewriteSlashes(s);
    var rb := RewriteSlashes(b);
    forall k | 0 <= k < |s|
      ensures r[k] == want[k]
    {
      SlashMatchedOfChord(a, x, y, b, k);
      if n <= k {
        assert s[k] == b[k - n] && want[k] == rb[k - n];
      }
    }
  }

  /** The bare form: a slash chord alone is rewritten to its two notes with a space. */
  lemma RewriteBareSlashChord(x: string, y: string)
    requires IsNote(x) && IsNote(y)
    ensures RewriteSlashes(x + "/" + y) == x + " " + y
  {
    RewriteSlashChord("", x, y, "");
    assert "" + x + "/" + y + "" == x + "/" + y;
    assert "" + x + " " + y + RewriteSlashes("") == x + " " + y;
  }

  // ---- The scan does not see the difference between `/` and ` ` ----

  lemma SeparatorsKeepWordness(s: string, t: string)
    requires SameButSeparators(s, t)
    ensures forall k :: WordAt(s, k) == WordAt(t, k)
  {
  }

  /** A match in `s` is a match in `t`, with the same text. */
  lemma AcceptsIgnoresSeparators(d: Dialect, s: string, t: string, i: nat, e: nat)
    requires SameButSeparators(s, t) && Accepts(d, s, i, e)
    ensures Accepts(d, t, i, e) && s[i..e] == t[i..e]
  {
    SeparatorsKeepWordness(s, t);
    forall m | i <= m < e
      ensures s[m] == t[m]
    {
      if m == i {
        assert s[i..e][0] == s[i];
      } else {
        SymbolCharAt(d, s, i, m, e);
      }
    }
    assert s[i..e] == t[i..e];
  }

  lemma MatchIgnoresSeparators(d: Dialect, s: string, t: string, i: nat)
    requires SameButSeparators(s, t)
    ensures MatchAt(d, s, i) == MatchAt(d, t, i)
  {
    assert SameButSeparators(t, s);
    var a, b := MatchAt(d, s, i), MatchAt(d, t, i);
    if a.Some? {
      AcceptsIgnoresSeparators(d, s, t, i, a.value);
    }
    if b.Some? {
      AcceptsIgnoresSeparators(d, t, s, i, b.value);
    }
  }

  /** Scanning `s` or `t` gives the same tokens. */
  lemma {:induction false} ScanIgnoresSeparators(d: Dialect, s: string, t: string, i: nat)
    requires SameButSeparators(s, t)
    ensures Scan(d, s, i) == Scan(d, t, i)
    decreases |s| - i
  {
    if i < |s| {
      assert Matcher(d, s)(i) == MatchAt(d, s, i);
      assert Matcher(d, t)(i) == MatchAt(d, t, i);
      MatchIgnoresSeparators(d, s, t, i);
      match MatchAt(d, s, i)
      case None =>
        ScanIgnoresSeparators(d, s, t, i + 1);
      case Some(e) =>
        AcceptsIgnoresSeparators(d, s, t, i, e);
        ScanIgnoresSeparators(d, s, t, e);
    }
  }

  // ---- Order-preserving dedupe ----

  /** The loop over the matches with the `seen` set: an element is kept the first time it
      appears and not seen before. */
  function DedupeFrom(xs: seq<string>, seen: set<string>): (r: seq<string>)
    ensures NoDuplicates(r)
    ensures forall c :: c in r <==> c in xs && c !in seen
  {
    if |xs| == 0 then
      []
    else
      var rest := DedupeFrom(xs[1..], seen + {xs[0]});
      assert forall c :: c in xs <==> c == xs[0] || c in xs[1..];
      if xs[0] in seen then
        DedupeFrom(xs[1..], seen)
      else
        [xs[0]] + rest
  }

  function Dedupe(xs: seq<string>): seq<string> {
    DedupeFrom(xs, {})
  }

  /** The offset of the first occurrence of `c`. */
  function FirstIndex(xs: seq<string>, c: string): (k: nat)
    requires c in xs
    ensures k < |xs| && xs[k] == c && forall j :: 0 <= j < k ==> xs[j] != c
  {
    if xs[0] == c then 0 else 1 + FirstIndex(xs[1..], c)
  }

  /** The elements of `r`, all from `xs`, come in the order of their first occurrences there. */
  predicate InFirstOrder(r: seq<string>, xs: seq<string>)
    requires forall j :: 0 <= j < |r| ==> r[j] in xs
  {
    forall j, k :: 0 <= j < k < |r| ==> FirstIndex(xs, r[j]) < FirstIndex(xs, r[k])
  }

  lemma FirstIndexTail(xs: seq<string>, c: string)
    requires |xs| > 0 && c in xs[1..] && c != xs[0]
    ensures FirstIndex(xs, c) == 1 + FirstIndex(xs[1..], c)
  {
  }

  /** Order by first occurrence in the tail is order by first occurrence in the whole list,
      for elements other than the head. */
  lemma InFirstOrderTail(rest: seq<string>, xs: seq<string>)
    requires |xs| > 0
    requires forall j :: 0 <= j < |rest| ==> rest[j] in xs[1..] && rest[j] != xs[0]
    requires InFirstOrder(rest, xs[1..])
    ensures forall j :: 0 <= j < |rest| ==> rest[j] in xs
    ensures InFirstOrder(rest, xs)
    ensures forall j :: 0 <= j < |rest| ==> FirstIndex(xs, rest[j]) > 0
  {
    forall j | 0 <= j < |rest|
      ensures FirstIndex(xs, rest[j]) == 1 + FirstIndex(xs[1..], rest[j])
    {
      FirstIndexTail(xs, rest[j]);
    }
  }

  /** The kept elements come in the order of their first occurrences. */
  lemma {:induction false} DedupeKeepsFirstOrder(xs: seq<string>, seen: set<string>)
    ensures InFirstOrder(DedupeFrom(xs, seen), xs)
  {
    if |xs| > 0 {
      var x := xs[0];
      var seen' := if x in seen then seen else seen + {x};
      var rest := DedupeFrom(xs[1..], seen');
      DedupeKeepsFirstOrder(xs[1..], seen');
      assert forall j :: 0 <= j < |rest| ==> rest[j] in xs[1..] && rest[j] != x;
      InFirstOrderTail(rest, xs);
      if x !in seen {
        assert DedupeFrom(xs, seen) == [x] + rest;
        HeadComesFirst(xs, rest);
      } else {
        assert DedupeFrom(xs, seen) == rest;
      }
    }
  }

  /** The head of the list occurs first of all. */
  lemma HeadComesFirst(xs: seq<string>, rest: seq<string>)
    requires |xs| > 0
    requires forall j :: 0 <= j < |rest| ==> rest[j] in xs && rest[j] != xs[0]
    requires InFirstOrder(rest, xs)
    ensures InFirstOrder([xs[0]] + rest, xs)
  {
    var r := [xs[0]] + rest;
    forall j, k | 0 <= j < k < |r|
      ensures FirstIndex(xs, r[j]) < FirstIndex(xs, r[k])
    {
      assert r[k] == rest[k - 1];
      if j > 0 {
        assert r[j] == rest[j - 1];
      }
    }
  }

  // ---- extract_chords ----

  /** The text the chord pattern runs over: tags blanked, slash chords split. */
  function Clean(s: string): string {
    RewriteSlashes(StripTags(s))
  }

  /** The chord pattern's matches in the cleaned text, once each, in first-occurrence order:
      no repeats, nothing but matches, every match. */
  function ExtractFromText(s: string): (r: seq<string>)
    ensures NoDuplicates(r)
    ensures forall c :: c in r <==> c in TokenTexts(Tokenize(Extractor, Clean(s)))
  {
    Dedupe(TokenTexts(Tokenize(Extractor, Clean(s))))
  }

  /** Every extracted chord is a match of the chord pattern: an extractor chord symbol with a
      word boundary on both sides. */
  lemma ExtractedAreMatches(s: string)
    ensures forall c :: c in ExtractFromText(s) ==>
      exists t :: t in Tokenize(Extractor, Clean(s)) && t.text == c && Accepts(Extractor, Clean(s), t.start, t.End())
  {
    var toks := Tokenize(Extractor, Clean(s));
    ScanTokens(Extractor, Clean(s), 0);
    TokenTextsMembers(toks);
  }

  /** Splitting slash chords makes no difference to what is extracted: a `/` and a space are
      both non-word characters and neither is part of a chord symbol. */
  lemma SlashRewriteIsInvisible(s: string)
    ensures ExtractFromText(s) == Dedupe(TokenTexts(Tokenize(Extractor, StripTags(s))))
  {
    RewriteIsSameButSeparators(StripTags(s));
    ScanIgnoresSeparators(Extractor, StripTags(s), Clean(s), 0);
  }

  /** The chords of a song's lyrics value. `None` and any value that is neither a string nor a dict give no
      chords; a dict stands for its values joined with single spaces, and a value that is not a
      string raises; a string is cleaned, matched and deduplicated. */
  function ExtractChords(v: PyValue): (r: Result<seq<string>, PyError>)
    ensures !(v.PyStr? || v.PyDict?) ==> r == Success([])
    ensures v.PyStr? ==> r == Success(ExtractFromText(v.s))
    ensures v.PyDict? ==> (r.Success? <==> AllStrings(Values(v.items)))
    ensures v.PyDict? && r.Success? ==> r.value == ExtractFromText(Join(Strings(Values(v.items)), " "))
  {
    match v
    case PyDict(items) =>
      var text :- JoinValues(" ", Values(items));
      Success(ExtractFromText(text))
    case PyStr(s) => Success(ExtractFromText(s))
    case _ => Success([])
  }

  // ---- Where the page's pattern and this one disagree ----

  /** The page's pattern reads "D#" as one chord: its trailing `(?![#\w])` holds at the end. */
  lemma PageKeepsBareSharp()
    ensures TokenTexts(Tokenize(Page, "D#")) == ["D#"]
  {
    var s := "D#";
    LookaheadKeepsBareSharp(Page, s, 0);
    assert Matcher(Page, s)(0) == Some(2) && s[0..2] == "D#";
    assert Scan(Page, s, 0) == [Token(0, "D#")];
  }

  /** This pattern reads "D#" as "D": no chord ends after the `#`, and none starts at it. */
  lemma ExtractorSplitsBareSharp()
    ensures TokenTexts(Tokenize(Extractor, "D#")) == ["D"]
  {
    var s := "D#";
    assert Boundary(s, 0);
    BoundaryDropsBareSharp(Extractor, s, 0);
    assert MatchAt(Extractor, s, 1).None?;
    assert Matcher(Extractor, s)(1).None?;
    assert Scan(Extractor, s, 1) == [];
    assert Matcher(Extractor, s)(0) == Some(1) && s[0..1] == "D";
    assert Scan(Extractor, s, 0) == [Token(0, "D")];
  }

  /** "D#" has no tag and no slash, so cleaning leaves it alone. */
  lemma CleanLeavesBareSharp()
    ensures Clean("D#") == "D#"
  {
    var s := "D#";
    assert TagEnd(s, 0).None? && TagEnd(s, 1).None?;
    assert StripTags(s) == s;
    assert SlashAt(s, 0).None? && SlashAt(s, 1).None?;
  }

  /** A bare sharp chord: the song page's pattern, whose trailing `(?![#\w])` lets the `#`
      end the symbol, highlights `D#`, while this pattern's trailing `\b` cannot hold after
      `#` and extracts only `D`. */
  lemma SharpChordDivergence()
    ensures TokenTexts(Tokenize(Page, "D#")) == ["D#"]
    ensures ExtractFromText("D#") == ["D"]
  {
    PageKeepsBareSharp();
    CleanLeavesBareSharp();
    ExtractorSplitsBareSharp();
    assert DedupeFrom(["D"], {}) == ["D"] + DedupeFrom([], {"D"});
  }
}
