/** The search page: the user's chord set, the known/missing split of each result's chords,
    the badge, the cap on the result list and the guard that keeps a blank search from being
    sent. */
module Home {
  import opened Wrappers
  import opened Text
  import opened UserChords
  import SongPage

  // ---- The known/missing split ----

  /** `a` is a subsequence of `b`: `b` with some elements left out, order kept. */
  predicate IsSubseq<T(==)>(a: seq<T>, b: seq<T>)
    decreases |b|
  {
    |a| == 0 || (|b| > 0 && (if a[0] == b[0] then IsSubseq(a[1..], b[1..]) else IsSubseq(a, b[1..])))
  }

  /** The chords of `xs` whose membership in `u` is `inSet`, in order. */
  function Select(xs: seq<string>, u: set<string>, inSet: bool): (r: seq<string>)
    ensures IsSubseq(r, xs)
    ensures forall c :: multiset(r)[c] == if (c in u) == inSet then multiset(xs)[c] else 0
  {
    if |xs| == 0 then
      []
    else
      var rest := Select(xs[1..], u, inSet);
      assert xs == [xs[0]] + xs[1..];
      if (xs[0] in u) == inSet then [xs[0]] + rest else rest
  }

  /** The chords of a result the user already knows, in the result's order. */
  function Known(xs: seq<string>, u: set<string>): seq<string> {
    Select(xs, u, true)
  }

  /** The chords of a result the user does not know yet, in the result's order. */
  function Missing(xs: seq<string>, u: set<string>): seq<string> {
    Select(xs, u, false)
  }

  /** Every chord of the list lands in exactly one of the two, repeats included. */
  lemma Partition(xs: seq<string>, u: set<string>)
    ensures multiset(Known(xs, u)) + multiset(Missing(xs, u)) == multiset(xs)
    ensures |Known(xs, u)| + |Missing(xs, u)| == |xs|
  {
    var k, m := Known(xs, u), Missing(xs, u);
    assert forall c :: (multiset(k) + multiset(m))[c] == multiset(xs)[c];
    assert multiset(k) + multiset(m) == multiset(xs);
    assert |multiset(k) + multiset(m)| == |multiset(xs)|;
  }

  /** The chips the song page marks known are the chords the search page lists as known, and
      the chips it marks missing are the ones it lists as missing, in the same order. */
  lemma ChipsAgreeWithSplit(xs: seq<string>, u: set<string>)
    ensures ChipTexts(SongPage.Chips(Some(xs), u), true) == Known(xs, u)
    ensures ChipTexts(SongPage.Chips(Some(xs), u), false) == Missing(xs, u)
  {
    ChipsSelect(xs, u, true);
    ChipsSelect(xs, u, false);
  }

  /** The chips with a given mark are the chords whose membership matches that mark. */
  lemma {:induction false} ChipsSelect(xs: seq<string>, u: set<string>, marked: bool)
    ensures ChipTexts(SongPage.Chips(Some(xs), u), marked) == Select(xs, u, marked)
  {
    if |xs| > 0 {
      ChipsSelect(xs[1..], u, marked);
      assert SongPage.Chips(Some(xs), u)[1..] == SongPage.Chips(Some(xs[1..]), u);
    }
  }

  /** The texts of the chips whose mark is `marked`, in order. */
  function ChipTexts(chips: seq<SongPage.Chip>, marked: bool): seq<string> {
    if |chips| == 0 then []
    else (if chips[0].known == marked then [chips[0].text] else []) + ChipTexts(chips[1..], marked)
  }

  /** Every listed chord of a song gets exactly one chip, known or missing, repeats included;
      a song without a chord list gets none. */
  lemma ChipsOfSong(list: Option<seq<string>>, u: set<string>)
    ensures list.None? ==> SongPage.Chips(list, u) == []
    ensures var chips := SongPage.Chips(list, u);
      multiset(ChipTexts(chips, true)) + multiset(ChipTexts(chips, false)) == multiset(list.GetOr([]))
  {
    ChipsAgreeWithSplit(list.GetOr([]), u);
    Partition(list.GetOr([]), u);
    assert SongPage.Chips(list, u) == SongPage.Chips(Some(list.GetOr([])), u);
  }

  // ---- The badge ----

  predicate IsDigit(c: char) {
    '0' <= c <= '9'
  }

  function DigitChar(n: nat): char
    requires n < 10
  {
    ('0' as int + n) as char
  }

  /** A natural number in decimal, as JavaScript's template literal writes it. */
  function Decimal(n: nat): (s: string)
    ensures |s| > 0 && forall k :: 0 <= k < |s| ==> IsDigit(s[k])
    ensures s[0] == '0' ==> n == 0
  {
    if n < 10 then [DigitChar(n)] else Decimal(n / 10) + [DigitChar(n % 10)]
  }

  /** The value of a string of decimal digits. */
  function DecimalValue(s: string): nat
    requires forall k :: 0 <= k < |s| ==> IsDigit(s[k])
  {
    if |s| == 0 then 0
    else
      assert IsDigit(s[|s| - 1]);
      10 * DecimalValue(s[..|s| - 1]) + (s[|s| - 1] as int - '0' as int)
  }

  /** Reading the digits back gives the number. */
  lemma {:induction false} DecimalRoundTrip(n: nat)
    ensures DecimalValue(Decimal(n)) == n
  {
    if n >= 10 {
      var s := Decimal(n);
      assert s[..|s| - 1] == Decimal(n / 10);
      DecimalRoundTrip(n / 10);
    }
  }

  /** The badge of a result card. */
  datatype Badge = AllKnown | NewChords(text: string)

  /** "You know all chords" when nothing is missing; otherwise the number of missing chords
      and "new chord", with an "s" unless the number is one. */
  function BadgeFor(missing: seq<string>): (b: Badge)
    ensures b.AllKnown? <==> |missing| == 0
  {
    var n := |missing|;
    if n == 0 then AllKnown
    else NewChords(Decimal(n) + " new chord" + (if n != 1 then "s" else ""))
  }

  /** The number a badge text starts with. */
  function LeadingNumber(s: string): nat {
    var n := LeadingRun(s, IsDigit);
    DecimalValue(s[..n])
  }

  lemma {:induction false} LeadingRunOfDigits(a: string, b: string)
    requires forall k :: 0 <= k < |a| ==> IsDigit(a[k])
    requires |b| > 0 && !IsDigit(b[0])
    ensures LeadingRun(a + b, IsDigit) == |a|
  {
    if |a| > 0 {
      assert (a + b)[1..] == a[1..] + b;
      LeadingRunOfDigits(a[1..], b);
    } else {
      assert a + b == b;
    }
  }

  /** The badge reads back as the count of missing chords, and its last letter is an "s"
      exactly when that count is not one. */
  lemma BadgeReadsBack(missing: seq<string>)
    requires |missing| > 0
    ensures LeadingNumber(BadgeFor(missing).text) == |missing|
    ensures BadgeFor(missing).text[|BadgeFor(missing).text| - 1] == 's' <==> |missing| != 1
  {
    var n := |missing|;
    var digits := Decimal(n);
    var tail := " new chord" + (if n != 1 then "s" else "");
    assert BadgeFor(missing).text == digits + tail;
    LeadingRunOfDigits(digits, tail);
    assert (digits + tail)[..|digits|] == digits;
    DecimalRoundTrip(n);
  }

  // ---- The search ----

  /** How many results the page keeps. */
  const MaxResults: nat := 50

  /** The result list the page keeps: a missing reply reads as empty, and at most the first
      fifty results are kept. */
  function Cap<T>(data: Option<seq<T>>): (r: seq<T>)
    ensures |r| <= MaxResults
    ensures |r| == if |data.GetOr([])| < MaxResults then |data.GetOr([])| else MaxResults
    ensures r == data.GetOr([])[..|r|]
  {
    var xs := data.GetOr([]);
    if |xs| <= MaxResults then xs else xs[..MaxResults]
  }

  /** What the backend answered: a reply with a status flag and a JSON body that may be
      `null`, or no reply at all. */
  datatype Reply<T> = Reply(ok: bool, body: Option<seq<T>>) | Unreachable

  /** The query string the search sends. */
  datatype Query = Query(chords: string, artist: string, title: string)

  /** The search page's state. */
  datatype HomeState<T> = HomeState(
    input: string, artist: string, title: string,
    results: seq<T>, loading: bool, searched: bool)

  /** One search: the state after it and the request it sent. */
  datatype Search<T> = Search(state: HomeState<T>, request: Option<Query>)

  /** `fetchSongs`. A chord input that trims to nothing sends nothing and changes nothing.
      Otherwise the raw fields are sent; a good reply keeps at most fifty results, and a
      failed status or no reply leaves an empty list. The backend's answer is a parameter. */
  function FetchSongs<T>(st: HomeState<T>, reply: Reply<T>): (r: Search<T>)
    ensures Trim(st.input, IsJsSpace) == "" <==> r.request.None?
    ensures r.request.None? ==> r.state == st
    ensures r.request.Some? ==>
      && r.request.value == Query(st.input, st.artist, st.title)
      && r.state.searched && !r.state.loading
      && r.state.input == st.input && r.state.artist == st.artist && r.state.title == st.title
      && |r.state.results| <= MaxResults
      && (reply.Reply? && reply.ok ==> r.state.results == Cap(reply.body))
      && (!(reply.Reply? && reply.ok) ==> r.state.results == [])
  {
    if Trim(st.input, IsJsSpace) == "" then
      Search(st, None)
    else
      var results := if reply.Reply? && reply.ok then Cap(reply.body) else [];
      Search(st.(results := results, loading := false, searched := true),
             Some(Query(st.input, st.artist, st.title)))
  }
}
