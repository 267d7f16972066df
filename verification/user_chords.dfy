/** The comma-separated chord list a user types, as the search page, the song page and the
    backend read it: split on commas, trim every piece, drop the pieces that are empty. */
module UserChords {
  import opened Text

  /** Every piece trimmed, keeping only the pieces that are not empty afterwards, in order. */
  function NonBlankTrimmed(parts: seq<string>, ws: char -> bool): (r: seq<string>)
    ensures |r| <= |parts|
    ensures forall c :: c in r ==> c != ""
  {
    if |parts| == 0 then
      []
    else
      var t := Trim(parts[0], ws);
      (if t == "" then [] else [t]) + NonBlankTrimmed(parts[1..], ws)
  }

  /** The survivors are exactly the non-empty trims of the pieces. */
  lemma {:induction false} NonBlankTrimmedMembers(parts: seq<string>, ws: char -> bool)
    ensures forall c :: c in NonBlankTrimmed(parts, ws) <==>
      c != "" && exists p :: p in parts && Trim(p, ws) == c
  {
    if |parts| > 0 {
      NonBlankTrimmedMembers(parts[1..], ws);
      assert forall p :: p in parts <==> p == parts[0] || p in parts[1..];
    }
  }

  /** A chord name as the list can carry it: not empty, no comma, no white space at its ends. */
  predicate IsEntry(c: string, ws: char -> bool) {
    c != "" && ',' !in c && !ws(c[0]) && !ws(c[|c| - 1])
  }

  /** The chords of a typed list: the comma-separated pieces, each trimmed, the empty ones
      dropped; no entry is empty, holds a comma or starts or ends with white space. */
  function ParseChordList(s: string, ws: char -> bool): (r: seq<string>)
    ensures forall c :: c in r ==> IsEntry(c, ws)
    ensures forall c :: c in r <==> c != "" && exists p :: p in Split(s, ',') && Trim(p, ws) == c
  {
    var parts := Split(s, ',');
    var r := NonBlankTrimmed(parts, ws);
    NonBlankTrimmedMembers(parts, ws);
    forall c | c in r
      ensures IsEntry(c, ws)
    {
      var p :| p in parts && Trim(p, ws) == c;
      if ',' in c {
        TrimChars(p, ws, ',');
        assert false;
      }
    }
    r
  }

  /** The set of chords the user typed: the distinct entries of the parsed list. */
  function ChordSet(s: string, ws: char -> bool): (u: set<string>)
    ensures forall c :: c in u <==> c != "" && exists p :: p in Split(s, ',') && Trim(p, ws) == c
  {
    NonBlankTrimmedMembers(Split(s, ','), ws);
    Elements(ParseChordList(s, ws))
  }

  /** An empty input names no chord. */
  lemma EmptyListNoChords(ws: char -> bool)
    ensures ChordSet("", ws) == {}
  {
    assert Split("", ',') == [""];
    assert Trim("", ws) == "";
  }

  /** Writing a list of entries with commas and parsing it back gives the list. */
  lemma ParseJoin(cs: seq<string>, ws: char -> bool)
    requires forall k :: 0 <= k < |cs| ==> IsEntry(cs[k], ws)
    ensures ParseChordList(Join(cs, ","), ws) == cs
  {
    if |cs| == 0 {
      assert Split("", ',') == [""];
    } else {
      SplitJoin(cs, ',');
      assert Split(Join(cs, ","), ',') == cs;
      TrimmedEntries(cs, ws);
    }
  }

  /** Entries survive trimming and the blank filter unchanged. */
  lemma {:induction false} TrimmedEntries(cs: seq<string>, ws: char -> bool)
    requires forall k :: 0 <= k < |cs| ==> IsEntry(cs[k], ws)
    ensures NonBlankTrimmed(cs, ws) == cs
  {
    if |cs| > 0 {
      TrimUnpadded(cs[0], ws);
      TrimmedEntries(cs[1..], ws);
    }
  }
}
