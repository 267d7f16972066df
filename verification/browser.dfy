/** The two pages together with the browser storage they share. The song page reads the user's
    chords from the storage entry "userChords"; the search page, as written, never writes that
    entry, so the song page marks every chord as missing. `SearchRemembering` is the search
    that stores its chord input, which is what the song page's reading evidently expects. */
module Browser {
  import opened Wrappers
  import opened Text
  import opened UserChords
  import opened Home
  import SongPage

  /** The search page's state and the "userChords" storage entry (`None` when absent). */
  datatype Browser<T> = Browser(home: HomeState<T>, stored: Option<string>)

  /** A search as the search page is written: the page state changes, the storage does not. */
  function SearchAsWritten<T>(b: Browser<T>, reply: Reply<T>): (r: Browser<T>)
    ensures r.stored == b.stored
    ensures r.home.input == b.home.input
    ensures Trim(b.home.input, IsJsSpace) != "" ==> r.home.searched
  {
    Browser(FetchSongs(b.home, reply).state, b.stored)
  }

  /** The chord list "C" names the chord "C". */
  lemma SingleChordParsed()
    ensures "C" in ChordSet("C", IsJsSpace)
  {
    SplitWithoutSeparator("C", ',');
    TrimUnpadded("C", IsJsSpace);
    assert "C" in Split("C", ',') && Trim("C", IsJsSpace) == "C";
  }

  /** The search page counts the searched chord "C" as known. */
  lemma SearchPageKnowsSearchedChord()
    ensures Known(["C"], ChordSet("C", IsJsSpace)) == ["C"]
  {
    var u := ChordSet("C", IsJsSpace);
    assert "C" in u by {
      SingleChordParsed();
    }
    assert ["C"][1..] == [];
  }

  /** After a search as written, the song page still reads nothing from storage and marks the
      searched chord "C" missing, although the search page counts it as known. */
  lemma AsWrittenSongPageForgetsChords<T>(h: HomeState<T>, reply: Reply<T>)
    requires h.input == "C"
    ensures Known(["C"], ChordSet(h.input, IsJsSpace)) == ["C"]
    ensures SongPage.Chips(Some(["C"]), SongPage.StoredKnownChords(SearchAsWritten(Browser(h, None), reply).stored))
      == [SongPage.Chip("C", false)]
  {
    SearchPageKnowsSearchedChord();
    var stored := SearchAsWritten(Browser(h, None), reply).stored;
    assert stored == None;
    assert SongPage.StoredKnownChords(stored) == {};
    var chips := SongPage.Chips(Some(["C"]), {});
    assert |chips| == 1 && chips[0] == SongPage.Chip("C", false);
  }

  /** A search that also stores its chord input when it is sent, as the song page expects. */
  function SearchRemembering<T>(b: Browser<T>, reply: Reply<T>): (r: Browser<T>)
    ensures r.home == FetchSongs(b.home, reply).state
    ensures Trim(b.home.input, IsJsSpace) == "" ==> r == b
    ensures Trim(b.home.input, IsJsSpace) != "" ==> r.stored == Some(b.home.input)
  {
    var s := FetchSongs(b.home, reply);
    Browser(s.state, if s.request.Some? then Some(b.home.input) else b.stored)
  }

  /** After a search that is sent, the song page reads back exactly the chords the search page
      highlights, so its chips agree with the search page's known/missing split. */
  lemma RememberedChordsAgree<T>(b: Browser<T>, reply: Reply<T>, xs: seq<string>)
    requires Trim(b.home.input, IsJsSpace) != ""
    ensures SongPage.StoredKnownChords(SearchRemembering(b, reply).stored) == ChordSet(b.home.input, IsJsSpace)
    ensures ChipTexts(SongPage.Chips(Some(xs), SongPage.StoredKnownChords(SearchRemembering(b, reply).stored)), true)
      == Known(xs, ChordSet(b.home.input, IsJsSpace))
  {
    var u := SongPage.StoredKnownChords(SearchRemembering(b, reply).stored);
    assert u == ChordSet(b.home.input, IsJsSpace);
    ChipsAgreeWithSplit(xs, u);
  }
}
