/** The backend's recommender: the genre buckets, the chord list of a CSV row and the rule that
    keeps it, the prepared song table with its labels, the lookup by id, and the ranking of
    songs for the chords a user knows. */
module Recommender {
  import opened Wrappers
  import opened Text
  import opened PyValues
  import opened UserChords
  import opened ChordExtractor

  // ---- GENRE_RULES and broad_genre ----

  /** A bucket and its keywords: the rule holds when any keyword occurs in the genre text. */
  datatype Rule = Rule(name: string, keywords: seq<string>)

  /** The buckets in the order they are tried. */
  const GenreRules: seq<Rule> := [
    Rule("Metal", ["metal"]),
    Rule("Rock", ["rock", "punk"]),
    Rule("Pop", ["pop"]),
    Rule("Hip Hop", ["hip hop", " rap"]),
    Rule("R&B / Soul", ["r&b", "soul", "rhythm and blues"]),
    Rule("Country", ["country"]),
    Rule("Jazz", ["jazz"]),
    Rule("Blues", ["blues"]),
    Rule("Electronic", ["electronic", "edm", "techno", "house", "trance"]),
    Rule("Folk", ["folk", "acoustic"]),
    Rule("Classical", ["classical"]),
    Rule("Reggae", ["reggae"]),
    Rule("Latin", ["latin", "bossa", "samba"])
  ]

  /** The bucket of everything no rule claims. */
  const Other: string := "Other"

  predicate Holds(rule: Rule, g: string) {
    exists k :: 0 <= k < |rule.keywords| && Contains(g, rule.keywords[k])
  }

  /** Whether `name` is one of the fourteen bucket names. */
  predicate IsBucketName(name: string) {
    name == Other || exists j :: 0 <= j < |GenreRules| && GenreRules[j].name == name
  }

  /** The first rule at or after `i` that holds. */
  function FirstRule(rules: seq<Rule>, g: string, i: nat): (r: Option<nat>)
    requires i <= |rules|
    ensures r.Some? ==> i <= r.value < |rules| && Holds(rules[r.value], g)
    ensures r.Some? ==> forall j :: i <= j < r.value ==> !Holds(rules[j], g)
    ensures r.None? ==> forall j :: i <= j < |rules| ==> !Holds(rules[j], g)
    decreases |rules| - i
  {
    if i == |rules| then None
    else if Holds(rules[i], g) then Some(i)
    else FirstRule(rules, g, i + 1)
  }

  /** The bucket of a lower-cased genre text: the name of the first rule that holds. */
  function Bucket(g: string): (r: string)
    ensures IsBucketName(r)
  {
    match FirstRule(GenreRules, g, 0)
    case Some(j) => GenreRules[j].name
    case None => Other
  }

  /** The names are pairwise different and none is the fallback. */
  lemma NamesDistinct()
    ensures forall i, j :: 0 <= i < j < |GenreRules| ==> GenreRules[i].name != GenreRules[j].name
    ensures forall i :: 0 <= i < |GenreRules| ==> GenreRules[i].name != Other
  {
  }

  /** First match wins: a text lands in a bucket exactly when that bucket's rule holds and no
      earlier one does, and in the fallback exactly when no rule holds. */
  lemma BucketIsFirstMatch(g: string, j: nat)
    requires j < |GenreRules|
    ensures Bucket(g) == GenreRules[j].name <==>
      Holds(GenreRules[j], g) && forall i :: 0 <= i < j ==> !Holds(GenreRules[i], g)
    ensures Bucket(g) == Other <==> forall i :: 0 <= i < |GenreRules| ==> !Holds(GenreRules[i], g)
  {
    NamesDistinct();
  }

  /** The broad genre of a row. A value that is not a string, or a string the evaluator rejects, is
      "Other"; otherwise the evaluated genres are joined with spaces, which raises when they
      are not iterable or hold something other than strings, lower-cased and bucketed. The
      evaluator is a parameter: `None` stands for any exception it raises. */
  function BroadGenre(raw: PyValue, eval: string -> Option<PyValue>): (r: Result<string, PyError>)
    ensures !raw.PyStr? ==> r == Success(Other)
    ensures raw.PyStr? && eval(raw.s).None? ==> r == Success(Other)
    ensures raw.PyStr? && eval(raw.s).Some? ==> (r.Success? <==> JoinIterable(" ", eval(raw.s).value).Success?)
    ensures r.Success? ==> IsBucketName(r.value)
    ensures raw.PyStr? && eval(raw.s).Some? && r.Success? ==>
      r.value == Bucket(Lower(JoinIterable(" ", eval(raw.s).value).value))
  {
    if !raw.PyStr? then
      Success(Other)
    else
      match eval(raw.s)
      case None => Success(Other)
      case Some(genres) =>
        var combined :- JoinIterable(" ", genres);
        Success(Bucket(Lower(combined)))
  }

  lemma OccursGivesContains(s: string, p: string, k: nat)
    requires OccursAt(s, p, k)
    ensures Contains(s, p)
  {
    ContainsIff(s, p);
  }

  /** Shorter than the keyword: no occurrence. */
  lemma ShortNoContains(s: string, p: string)
    requires |s| < |p|
    ensures !Contains(s, p)
  {
  }

  /** "pop punk" is Rock, not Pop: the Rock rule comes first. */
  lemma PopPunkIsRock()
    ensures Bucket("pop punk") == "Rock"
  {
    var g := "pop punk";
    assert g[4..8] == "punk";
    OccursGivesContains(g, "punk", 4);
    assert GenreRules[1].keywords[1] == "punk";
    assert Holds(GenreRules[1], g);
    assert !Contains(g, "metal") by {
      ContainsIff(g, "metal");
      forall k: int
        ensures !OccursAt(g, "metal", k)
      {
        if 0 <= k && k + 5 <= |g| {
          assert g[k..k + 5][0] == g[k];
        }
      }
    }
    assert !Holds(GenreRules[0], g);
    BucketIsFirstMatch(g, 1);
  }

  /** Any text mentioning "metal" is Metal. */
  lemma MetalWins(g: string)
    requires Contains(g, "metal")
    ensures Bucket(g) == "Metal"
  {
    assert GenreRules[0].keywords[0] == "metal";
    assert Holds(GenreRules[0], g);
  }

  /** A bare "rap" is Other: the keyword is " rap", with a leading space. */
  lemma BareRapIsOther()
    ensures Bucket("rap") == Other
  {
    var g := "rap";
    forall i, k | 0 <= i < |GenreRules| && 0 <= k < |GenreRules[i].keywords|
      ensures !Contains(g, GenreRules[i].keywords[k])
    {
      var p := GenreRules[i].keywords[k];
      if |p| > |g| {
        ShortNoContains(g, p);
      } else {
        ContainsIff(g, p);
        forall m: int
          ensures !OccursAt(g, p, m)
        {
          if 0 <= m && m + |p| <= |g| {
            assert g[m..m + |p|][0] == g[m] && g[m..m + |p|][1] == g[m + 1];
          }
        }
      }
    }
    BucketIsFirstMatch(g, 0);
  }

  // ---- prepare_data: the chord list of a row and the rule that keeps it ----

  /** How a chords cell is read as a dict: a dict stays; anything but a string becomes the
      empty dict; a string is stripped and evaluated, a failed evaluation giving the empty
      dict. Only a string can give something other than a dict, and only when its text
      evaluates to one. */
  function ConvertToDict(raw: PyValue, eval: string -> Option<PyValue>): (r: PyValue)
    ensures raw.PyDict? ==> r == raw
    ensures !raw.PyDict? && !raw.PyStr? ==> r == PyDict([])
    ensures raw.PyStr? ==> var v := eval(Trim(raw.s, IsPySpace));
      (v.None? ==> r == PyDict([])) && (v.Some? ==> r == v.value)
    ensures !r.PyDict? ==> raw.PyStr? && eval(Trim(raw.s, IsPySpace)) == Some(r)
  {
    if raw.PyDict? then raw
    else if !raw.PyStr? then PyDict([])
    else eval(Trim(raw.s, IsPySpace)).GetOr(PyDict([]))
  }

  /** `flatten_chords`: the chords of the dict's values joined with spaces; nothing when the
      cell does not read as a dict; a value that is not a string raises. */
  function FlattenChords(raw: PyValue, eval: string -> Option<PyValue>): (r: Result<seq<string>, PyError>)
    ensures !ConvertToDict(raw, eval).PyDict? ==> r == Success([])
    ensures ConvertToDict(raw, eval).PyDict? ==> (r.Success? <==> AllStrings(Values(ConvertToDict(raw, eval).items)))
    ensures r.Success? && ConvertToDict(raw, eval).PyDict? ==>
      r.value == ExtractFromText(Join(Strings(Values(ConvertToDict(raw, eval).items)), " "))
    ensures r.Success? ==> NoDuplicates(r.value)
  {
    var d := ConvertToDict(raw, eval);
    if !d.PyDict? then
      Success([])
    else
      var combined :- JoinValues(" ", Values(d.items));
      ChordExtractor.ExtractChords(PyStr(combined))
  }

  /** The number of entries of the dict the cell reads as, 0 otherwise. */
  function DictSize(raw: PyValue, eval: string -> Option<PyValue>): (n: nat)
    ensures !ConvertToDict(raw, eval).PyDict? ==> n == 0
    ensures raw.PyDict? ==> n == |raw.items|
    ensures raw.PyStr? && eval(Trim(raw.s, IsPySpace)).Some? && eval(Trim(raw.s, IsPySpace)).value.PyDict? ==>
      n == |eval(Trim(raw.s, IsPySpace)).value.items|
    ensures raw.PyStr? && eval(Trim(raw.s, IsPySpace)).None? ==> n == 0
    ensures !raw.PyDict? && !raw.PyStr? ==> n == 0
  {
    var d := ConvertToDict(raw, eval);
    if d.PyDict? then |d.items| else 0
  }

  /** A CSV row as the recommender reads it. `chordsLyrics` is `None` when the table has no
      "chords&lyrics" column; a missing artist or song name is `None`. */
  datatype RawRow = RawRow(
    chords: PyValue, chordsLyrics: Option<PyValue>, genres: PyValue,
    artist: Option<string>, song: Option<string>)

  /** `extract_row_chords`: the chords of the dict column when there are any; otherwise those
      of the chords-and-lyrics text when it is a string that is not blank; otherwise none. A
      missing column reads as "". */
  function ExtractRowChords(row: RawRow, eval: string -> Option<PyValue>): (r: Result<seq<string>, PyError>)
    ensures FlattenChords(row.chords, eval).Failure? ==> r.Failure?
    ensures FlattenChords(row.chords, eval).Success? && FlattenChords(row.chords, eval).value != [] ==>
      r == FlattenChords(row.chords, eval)
    ensures FlattenChords(row.chords, eval) == Success([]) ==>
      var fallback := row.chordsLyrics.GetOr(PyStr(""));
      r == Success(if fallback.PyStr? && Trim(fallback.s, IsPySpace) != "" then ExtractFromText(fallback.s) else [])
    ensures r.Success? ==> NoDuplicates(r.value)
  {
    var chords :- FlattenChords(row.chords, eval);
    if chords != [] then
      Success(chords)
    else
      var fallback := row.chordsLyrics.GetOr(PyStr(""));
      if fallback.PyStr? && Trim(fallback.s, IsPySpace) != "" then
        Success(ExtractFromText(fallback.s))
      else
        Success([])
  }

  /** The filter of `prepare_data`: at least two chords, and a dict of three or more entries
      or of none at all. Dicts of one or two entries are always dropped. */
  function Keep(dictSize: nat, chords: seq<string>): (b: bool)
    ensures b <==> |chords| >= 2 && dictSize != 1 && dictSize != 2
  {
    (dictSize >= 3 && |chords| >= 2) || (dictSize == 0 && |chords| >= 2)
  }

  /** A row of the prepared table. `songId` is the row's label, which is its position in the
      CSV file. */
  datatype Song = Song(
    songId: nat, artist: string, name: string,
    chordList: seq<string>, chordSet: set<string>, genre: string)

  /** What becomes of one row: reading it raises, it is dropped, or it is kept with its names,
      its chords and its genre. */
  datatype Outcome = Raises | Dropped | Kept(artist: string, name: string, chords: seq<string>, genre: string)

  /** The outcome of one row: its chords are extracted (which may raise), the keep rule is
      applied, and a kept row's genre is bucketed (which may raise) and its names filled in. */
  function RowOutcome(row: RawRow, eval: string -> Option<PyValue>): (r: Outcome)
    ensures r.Raises? <==>
      (ExtractRowChords(row, eval).Failure? ||
       (Keep(DictSize(row.chords, eval), ExtractRowChords(row, eval).value) && BroadGenre(row.genres, eval).Failure?))
    ensures r.Dropped? <==>
      ExtractRowChords(row, eval).Success? && !Keep(DictSize(row.chords, eval), ExtractRowChords(row, eval).value)
    ensures r.Kept? ==>
      && r.chords == ExtractRowChords(row, eval).value
      && |r.chords| >= 2
      && Success(r.genre) == BroadGenre(row.genres, eval)
      && r.artist == row.artist.GetOr("")
      && r.name == row.song.GetOr("")
  {
    match ExtractRowChords(row, eval)
    case Failure(_) => Raises
    case Success(chords) =>
      if !Keep(DictSize(row.chords, eval), chords) then
        Dropped
      else
        match BroadGenre(row.genres, eval)
        case Failure(_) => Raises
        case Success(genre) => Kept(row.artist.GetOr(""), row.song.GetOr(""), chords, genre)
  }

  /** `f` applied to every row, in file order. */
  function MapRows(rows: seq<RawRow>, f: RawRow -> Outcome): (r: seq<Outcome>)
    ensures |r| == |rows|
  {
    if |rows| == 0 then [] else [f(rows[0])] + MapRows(rows[1..], f)
  }

  lemma {:induction false} MapRowsAt(rows: seq<RawRow>, f: RawRow -> Outcome, i: nat)
    requires i < |rows|
    ensures MapRows(rows, f)[i] == f(rows[i])
  {
    if i > 0 {
      MapRowsAt(rows[1..], f, i - 1);
    }
  }

  /** Each row's outcome, in file order. */
  function Outcomes(rows: seq<RawRow>, eval: string -> Option<PyValue>): seq<Outcome> {
    MapRows(rows, row => RowOutcome(row, eval))
  }

  /** The outcome at position `i` is that of row `i`. */
  lemma OutcomesAt(rows: seq<RawRow>, eval: string -> Option<PyValue>, i: nat)
    requires i < |rows|
    ensures |Outcomes(rows, eval)| == |rows|
    ensures Outcomes(rows, eval)[i] == RowOutcome(rows[i], eval)
  {
    MapRowsAt(rows, row => RowOutcome(row, eval), i);
  }

  /** The song a kept row becomes: labelled with the row's position in the file, its chord set
      the set of its list. */
  function SongAt(i: nat, o: Outcome): (s: Song)
    requires o.Kept?
    ensures s.songId == i && s.chordList == o.chords && s.chordSet == Elements(o.chords)
    ensures s.artist == o.artist && s.name == o.name && s.genre == o.genre
  {
    Song(i, o.artist, o.name, o.chords, Elements(o.chords), o.genre)
  }

  /** A kept row's chord list has no repeats, so its chord set is exactly as large: the missing
      and known counts of a song add up to the length of the list it shows. */
  lemma KeptChordSetSize(row: RawRow, eval: string -> Option<PyValue>, i: nat)
    requires RowOutcome(row, eval).Kept?
    ensures |SongAt(i, RowOutcome(row, eval)).chordSet| == |SongAt(i, RowOutcome(row, eval)).chordList| >= 2
  {
    ElementsCount(RowOutcome(row, eval).chords);
  }

  /** The songs of the rows from `i` on, in order; any row that raises makes the whole
      preparation raise. */
  function Assemble(outs: seq<Outcome>, i: nat): Result<seq<Song>, PyError>
    requires i <= |outs|
    decreases |outs| - i
  {
    if i == |outs| then
      Success([])
    else
      var rest :- Assemble(outs, i + 1);
      match outs[i]
      case Raises => Failure(TypeError)
      case Dropped => Success(rest)
      case Kept(_, _, _, _) => Success([SongAt(i, outs[i])] + rest)
  }

  /** The prepared table of the rows of the CSV file. Its labels strictly increase and are
      positions of rows in the file, and every song's chord set is the set of its chord list. */
  function PrepareData(rows: seq<RawRow>, eval: string -> Option<PyValue>): (r: Result<seq<Song>, PyError>)
    ensures r.Success? ==> IdsIncreasing(r.value) && Prepared(r.value)
    ensures r.Success? ==> forall k :: 0 <= k < |r.value| ==> r.value[k].songId < |rows|
  {
    AssembleOrdered(Outcomes(rows, eval), 0);
    Assemble(Outcomes(rows, eval), 0)
  }

  /** Labels strictly increase down the table. */
  predicate IdsIncreasing(songs: seq<Song>) {
    forall j, k :: 0 <= j < k < |songs| ==> songs[j].songId < songs[k].songId
  }

  /** What preparing the table guarantees about every song: its set is its list's set. */
  predicate Prepared(songs: seq<Song>) {
    forall k :: 0 <= k < |songs| ==> songs[k].chordSet == Elements(songs[k].chordList)
  }

  /** Every song of the table is the song of the kept row its label names, from `lo` on. */
  predicate FromRows(songs: seq<Song>, outs: seq<Outcome>, lo: nat) {
    forall k :: 0 <= k < |songs| ==>
      lo <= songs[k].songId < |outs| && outs[songs[k].songId].Kept? &&
      songs[k] == SongAt(songs[k].songId, outs[songs[k].songId])
  }

  /** Every kept row from `lo` on has its song in the table. */
  predicate KeepsAll(songs: seq<Song>, outs: seq<Outcome>, lo: nat) {
    forall i :: lo <= i < |outs| && outs[i].Kept? ==> exists k :: 0 <= k < |songs| && songs[k] == SongAt(i, outs[i])
  }

  predicate RaisesFrom(outs: seq<Outcome>, lo: nat) {
    exists i :: lo <= i < |outs| && outs[i].Raises?
  }

  lemma {:induction false} AssembleFails(outs: seq<Outcome>, i: nat)
    requires i <= |outs|
    ensures Assemble(outs, i).Failure? <==> RaisesFrom(outs, i)
    decreases |outs| - i
  {
    if i < |outs| {
      AssembleFails(outs, i + 1);
      assert RaisesFrom(outs, i) <==> outs[i].Raises? || RaisesFrom(outs, i + 1);
    }
  }

  lemma {:induction false} AssembleOrdered(outs: seq<Outcome>, i: nat)
    requires i <= |outs|
    ensures Assemble(outs, i).Success? ==>
      IdsIncreasing(Assemble(outs, i).value) && FromRows(Assemble(outs, i).value, outs, i)
    decreases |outs| - i
  {
    if i < |outs| && Assemble(outs, i).Success? {
      AssembleOrdered(outs, i + 1);
      var rest := Assemble(outs, i + 1).value;
      if outs[i].Kept? {
        var songs := [SongAt(i, outs[i])] + rest;
        assert Assemble(outs, i).value == songs;
        assert forall k :: 1 <= k < |songs| ==> songs[k] == rest[k - 1];
      }
    }
  }

  lemma {:induction false} AssembleKeepsAll(outs: seq<Outcome>, i: nat)
    requires i <= |outs|
    ensures Assemble(outs, i).Success? ==> KeepsAll(Assemble(outs, i).value, outs, i)
    decreases |outs| - i
  {
    if i < |outs| && Assemble(outs, i).Success? {
      AssembleKeepsAll(outs, i + 1);
      var rest := Assemble(outs, i + 1).value;
      var songs := Assemble(outs, i).value;
      forall j | i <= j < |outs| && outs[j].Kept?
        ensures exists k :: 0 <= k < |songs| && songs[k] == SongAt(j, outs[j])
      {
        if outs[i].Kept? {
          assert songs == [SongAt(i, outs[i])] + rest;
          if j == i {
            assert songs[0] == SongAt(j, outs[j]);
          } else {
            var k :| 0 <= k < |rest| && rest[k] == SongAt(j, outs[j]);
            assert songs[k + 1] == SongAt(j, outs[j]);
          }
        } else {
          assert songs == rest;
        }
      }
    }
  }

  /** Preparation raises exactly when some row does; otherwise the table holds exactly the
      kept rows, in file order, each labelled with its position in the file. */
  lemma PrepareDataSpec(rows: seq<RawRow>, eval: string -> Option<PyValue>)
    ensures PrepareData(rows, eval).Failure? <==> RaisesFrom(Outcomes(rows, eval), 0)
    ensures PrepareData(rows, eval).Success? ==>
      && IdsIncreasing(PrepareData(rows, eval).value)
      && FromRows(PrepareData(rows, eval).value, Outcomes(rows, eval), 0)
      && KeepsAll(PrepareData(rows, eval).value, Outcomes(rows, eval), 0)
      && Prepared(PrepareData(rows, eval).value)
  {
    var outs := Outcomes(rows, eval);
    AssembleFails(outs, 0);
    AssembleOrdered(outs, 0);
    AssembleKeepsAll(outs, 0);
  }

  // ---- The lookup by id ----

  /** `get_song`: the id is taken as a position in the table, and out of range is not found. */
  function GetSong(songs: seq<Song>, id: int): (r: Option<Song>)
    ensures r.Some? <==> 0 <= id < |songs|
    ensures r.Some? ==> r.value == songs[id]
  {
    if id < 0 || id >= |songs| then None else Some(songs[id])
  }

  /** When no row is dropped, the lookup by the id the search returns finds that very song. */
  lemma LookupByIdWhenNothingDropped(outs: seq<Outcome>, id: nat)
    requires forall j :: 0 <= j < |outs| ==> outs[j].Kept?
    requires id < |outs|
    ensures Assemble(outs, 0).Success?
    ensures GetSong(Assemble(outs, 0).value, id).Some?
    ensures GetSong(Assemble(outs, 0).value, id).value.songId == id
    ensures GetSong(Assemble(outs, 0).value, id).value == SongAt(id, outs[id])
  {
    NothingDroppedLabelsArePositions(outs, 0);
    AssembleOrdered(outs, 0);
  }

  /** A label is never smaller than its position. */
  lemma {:induction false} LabelNotBelowPosition(songs: seq<Song>, k: nat)
    requires IdsIncreasing(songs) && k < |songs|
    ensures songs[k].songId >= k
  {
    if k > 0 {
      LabelNotBelowPosition(songs, k - 1);
    }
  }

  /** Once a row has been dropped before it, a song's label no longer finds it: the lookup by
      the label the search returned answers "not found" or a song further down the table. */
  lemma LabelLookupMisses(songs: seq<Song>, k: nat)
    requires IdsIncreasing(songs) && k < |songs| && songs[k].songId != k
    ensures GetSong(songs, songs[k].songId) != Some(songs[k])
    ensures GetSong(songs, songs[k].songId).Some? ==> GetSong(songs, songs[k].songId).value.songId > songs[k].songId
  {
    var id := songs[k].songId;
    LabelNotBelowPosition(songs, k);
    if id < |songs| {
      LabelNotBelowPosition(songs, id);
    }
  }

  /** When no row is dropped or raises, the labels are the positions, so the lookup by label
      finds every song. */
  lemma {:induction false} NothingDroppedLabelsArePositions(outs: seq<Outcome>, i: nat)
    requires i <= |outs|
    requires forall j :: i <= j < |outs| ==> outs[j].Kept?
    ensures Assemble(outs, i).Success?
    ensures |Assemble(outs, i).value| == |outs| - i
    ensures forall k :: 0 <= k < |Assemble(outs, i).value| ==> Assemble(outs, i).value[k].songId == i + k
    decreases |outs| - i
  {
    if i < |outs| {
      NothingDroppedLabelsArePositions(outs, i + 1);
      var rest := Assemble(outs, i + 1).value;
      var songs := Assemble(outs, i).value;
      assert songs == [SongAt(i, outs[i])] + rest;
      assert forall k :: 1 <= k < |songs| ==> songs[k] == rest[k - 1];
    }
  }

  // ---- recommend ----

  /** The five fields a result carries. */
  datatype Record = Record(songId: nat, artist: string, name: string, chordList: seq<string>, genre: string)

  /** A row of the result frame before projection: the record and its two counts. */
  datatype Scored = Scored(rec: Record, missing: nat, known: nat)

  /** The user's chords: the stripped ones that are not empty. */
  function UserSet(userChords: seq<string>): (u: set<string>)
    ensures forall c :: c in u <==> c != "" && exists p :: p in userChords && Trim(p, IsPySpace) == c
  {
    NonBlankTrimmedMembers(userChords, IsPySpace);
    Elements(NonBlankTrimmed(userChords, IsPySpace))
  }

  /** The case-insensitive substring test of the artist and title filters, for a filter
      without regular-expression syntax: the lower-cased filter occurs somewhere in the
      lower-cased field. An empty filter matches everything, and a filter longer than the
      field matches nothing. */
  function MatchesFilter(field: string, filter: string): (b: bool)
    ensures b <==> exists k :: OccursAt(Lower(field), Lower(filter), k)
    ensures filter == "" ==> b
    ensures b ==> |filter| <= |field|
  {
    ContainsIff(Lower(field), Lower(filter));
    assert filter == "" ==> OccursAt(Lower(field), Lower(filter), 0);
    Contains(Lower(field), Lower(filter))
  }

  /** The filter ignores case on both sides. */
  lemma MatchesFilterIgnoresCase(field: string, filter: string)
    ensures MatchesFilter(Lower(field), filter) == MatchesFilter(field, filter)
    ensures MatchesFilter(field, Lower(filter)) == MatchesFilter(field, filter)
  {
    LowerIdempotent(field);
    LowerIdempotent(filter);
  }

  /** The three filters; an empty one lets everything through. */
  predicate Selected(song: Song, artist: string, title: string, genre: string) {
    && (artist == "" || MatchesFilter(song.artist, artist))
    && (title == "" || MatchesFilter(song.name, title))
    && (genre == "" || song.genre == genre)
  }

  /** The songs that pass the filters, in table order. */
  function Filter(songs: seq<Song>, artist: string, title: string, genre: string): (r: seq<Song>)
    ensures forall s :: multiset(r)[s] == if Selected(s, artist, title, genre) then multiset(songs)[s] else 0
  {
    if |songs| == 0 then
      []
    else
      var rest := Filter(songs[1..], artist, title, genre);
      assert songs == [songs[0]] + songs[1..];
      if Selected(songs[0], artist, title, genre) then [songs[0]] + rest else rest
  }

  function Project(s: Song): Record {
    Record(s.songId, s.artist, s.name, s.chordList, s.genre)
  }

  /** A song's record with its missing and known counts. */
  function Score(s: Song, u: set<string>): (r: Scored)
    ensures r.rec == Project(s)
    ensures r.missing + r.known == |s.chordSet|
  {
    CountsAddUp(s.chordSet, u);
    Scored(Project(s), |s.chordSet - u|, |s.chordSet * u|)
  }

  /** Every chord of a song is either missing or known. */
  lemma CountsAddUp(s: set<string>, u: set<string>)
    ensures |s - u| + |s * u| == |s|
  {
    assert s == (s - u) + (s * u);
    assert (s - u) * (s * u) == {};
  }

  function Scores(songs: seq<Song>, u: set<string>): (r: seq<Scored>)
    ensures |r| == |songs| && forall k :: 0 <= k < |songs| ==> r[k] == Score(songs[k], u)
  {
    seq(|songs|, k requires 0 <= k < |songs| => Score(songs[k], u))
  }

  function Records(xs: seq<Scored>): (r: seq<Record>)
    ensures |r| == |xs| && forall k :: 0 <= k < |xs| ==> r[k] == xs[k].rec
  {
    seq(|xs|, k requires 0 <= k < |xs| => xs[k].rec)
  }

  /** `a` may come before `b`: fewer missing chords, or as many and at least as many known. */
  predicate Before(a: Scored, b: Scored) {
    a.missing < b.missing || (a.missing == b.missing && a.known >= b.known)
  }

  predicate SortedByCounts(xs: seq<Scored>) {
    forall j, k :: 0 <= j < k < |xs| ==> Before(xs[j], xs[k])
  }

  lemma RecordsCons(x: Scored, xs: seq<Scored>)
    ensures Records([x] + xs) == [x.rec] + Records(xs)
  {
  }

  /** Put `x` in its place in a sorted list. */
  function Insert(x: Scored, xs: seq<Scored>): (r: seq<Scored>)
    requires SortedByCounts(xs)
    ensures multiset(r) == multiset(xs) + multiset{x}
    ensures SortedByCounts(r)
  {
    if |xs| == 0 then
      [x]
    else if Before(x, xs[0]) then
      [x] + xs
    else
      var rest := Insert(x, xs[1..]);
      assert xs == [xs[0]] + xs[1..];
      InsertKeepsHeadFirst(xs[0], x, xs[1..], rest);
      [xs[0]] + rest
  }

  /** Inserting moves records as it moves rows. */
  lemma {:induction false} InsertRecords(x: Scored, xs: seq<Scored>)
    requires SortedByCounts(xs)
    ensures multiset(Records(Insert(x, xs))) == multiset(Records(xs)) + multiset{x.rec}
  {
    if |xs| == 0 {
      RecordsCons(x, xs);
    } else if Before(x, xs[0]) {
      RecordsCons(x, xs);
    } else {
      InsertRecords(x, xs[1..]);
      assert xs == [xs[0]] + xs[1..];
      RecordsCons(xs[0], Insert(x, xs[1..]));
      RecordsCons(xs[0], xs[1..]);
    }
  }

  lemma InsertKeepsHeadFirst(h: Scored, x: Scored, tail: seq<Scored>, rest: seq<Scored>)
    requires SortedByCounts([h] + tail) && SortedByCounts(rest) && !Before(x, h)
    requires multiset(rest) == multiset(tail) + multiset{x}
    ensures SortedByCounts([h] + rest)
  {
    var r := [h] + rest;
    forall k | 1 <= k < |r|
      ensures Before(h, r[k])
    {
      var y := rest[k - 1];
      assert y in multiset(rest);
      if y == x {
        assert Before(h, x);
      } else {
        assert y in multiset(tail);
        assert y in tail;
        var m :| 0 <= m < |tail| && tail[m] == y;
        assert ([h] + tail)[0] == h && ([h] + tail)[m + 1] == y;
      }
    }
  }

  /** Insertion sort by the two counts. */
  function SortByCounts(xs: seq<Scored>): (r: seq<Scored>)
    ensures SortedByCounts(r)
    ensures multiset(r) == multiset(xs)
  {
    if |xs| == 0 then
      []
    else
      assert xs == [xs[0]] + xs[1..];
      Insert(xs[0], SortByCounts(xs[1..]))
  }

  /** Sorting moves records as it moves rows. */
  lemma {:induction false} SortRecords(xs: seq<Scored>)
    ensures multiset(Records(SortByCounts(xs))) == multiset(Records(xs))
  {
    if |xs| > 0 {
      var sorted := SortByCounts(xs[1..]);
      assert SortByCounts(xs) == Insert(xs[0], sorted);
      SortRecords(xs[1..]);
      InsertRecords(xs[0], sorted);
      assert xs == [xs[0]] + xs[1..];
      RecordsCons(xs[0], xs[1..]);
    }
  }

  /** The result frame: the filtered songs with their counts, fewest missing first and, among
      those, most known first. */
  function Ranking(songs: seq<Song>, userChords: seq<string>, artist: string, title: string, genre: string): (r: seq<Scored>)
    ensures SortedByCounts(r)
    ensures multiset(r) == multiset(Scores(Filter(songs, artist, title, genre), UserSet(userChords)))
    ensures multiset(Records(r)) == multiset(Records(Scores(Filter(songs, artist, title, genre), UserSet(userChords))))
  {
    SortRecords(Scores(Filter(songs, artist, title, genre), UserSet(userChords)));
    SortByCounts(Scores(Filter(songs, artist, title, genre), UserSet(userChords)))
  }

  lemma ScoresMember(f: seq<Song>, u: set<string>, x: Scored)
    requires x in multiset(Scores(f, u))
    ensures exists m :: 0 <= m < |f| && x == Score(f[m], u)
  {
    assert x in Scores(f, u);
  }

  lemma FilterMember(songs: seq<Song>, artist: string, title: string, genre: string, s: Song)
    requires s in Filter(songs, artist, title, genre)
    ensures s in songs && Selected(s, artist, title, genre)
  {
    assert s in multiset(Filter(songs, artist, title, genre));
  }

  /** Every entry of the ranking is a song that passes the filters, with the missing and known
      counts of that song. */
  lemma RankingCounts(songs: seq<Song>, userChords: seq<string>, artist: string, title: string, genre: string, x: Scored)
    requires x in Ranking(songs, userChords, artist, title, genre)
    ensures exists s :: s in songs && Selected(s, artist, title, genre) && x == Score(s, UserSet(userChords))
  {
    var u := UserSet(userChords);
    var f := Filter(songs, artist, title, genre);
    assert x in multiset(Ranking(songs, userChords, artist, title, genre));
    ScoresMember(f, u, x);
    var m :| 0 <= m < |f| && x == Score(f[m], u);
    FilterMember(songs, artist, title, genre, f[m]);
  }

  /** `recommend`: the records of exactly the songs that pass the filters, each once. */
  function Recommend(songs: seq<Song>, userChords: seq<string>, artist: string, title: string, genre: string): (r: seq<Record>)
    ensures multiset(r) == multiset(Records(Scores(Filter(songs, artist, title, genre), UserSet(userChords))))
    ensures forall x :: x in r ==> exists s :: s in songs && Selected(s, artist, title, genre) && x == Project(s)
  {
    var ranked := Ranking(songs, userChords, artist, title, genre);
    var r := Records(ranked);
    forall x | x in r
      ensures exists s :: s in songs && Selected(s, artist, title, genre) && x == Project(s)
    {
      var k :| 0 <= k < |r| && r[k] == x;
      RankingCounts(songs, userChords, artist, title, genre, ranked[k]);
    }
    r
  }

  /** The counts a record is ranked by, computed from its own chord list. */
  function MissingOf(x: Record, u: set<string>): nat {
    |Elements(x.chordList) - u|
  }

  function KnownOf(x: Record, u: set<string>): nat {
    |Elements(x.chordList) * u|
  }

  /** Over a prepared table, the records come fewest missing chords first and, among equals,
      most known chords first. */
  lemma RecommendSorted(songs: seq<Song>, userChords: seq<string>, artist: string, title: string, genre: string)
    requires Prepared(songs)
    ensures var r := Recommend(songs, userChords, artist, title, genre);
      var u := UserSet(userChords);
      forall j, k :: 0 <= j < k < |r| ==>
        MissingOf(r[j], u) < MissingOf(r[k], u) ||
        (MissingOf(r[j], u) == MissingOf(r[k], u) && KnownOf(r[j], u) >= KnownOf(r[k], u))
  {
    var u := UserSet(userChords);
    var ranked := Ranking(songs, userChords, artist, title, genre);
    forall j | 0 <= j < |ranked|
      ensures ranked[j].missing == MissingOf(ranked[j].rec, u) && ranked[j].known == KnownOf(ranked[j].rec, u)
    {
      RankingCounts(songs, userChords, artist, title, genre, ranked[j]);
      var s :| s in songs && Selected(s, artist, title, genre) && ranked[j] == Score(s, u);
      // The position of `s` in the list: the index that `Prepared(songs)` quantifies over.
      var n :| 0 <= n < |songs| && songs[n] == s;
    }
  }
}
