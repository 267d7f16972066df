# Chord recommender: a Dafny model of its chord logic

The chord recommender finds songs a guitarist can play with the chords they already know.
A React front end has two pages:

- **The search page** parses the comma-separated chord list the user types. It asks the backend for songs and badges each result with the number of new chords. It lists the chords the user knows apart from the ones they do not.
- **The song page** shows a song's chord sheet. It finds the chord lines, highlights every chord on them and marks each chord as known or missing.

A Python backend extracts chord names from messy CSV cells, buckets genres, filters the table and ranks the songs. Both sides recognise chords with a regular expression.

This project models that logic as pure Dafny functions and proves properties of it:

| file | module | what it holds |
|---|---|---|
| `wrappers.dfy` | `Wrappers` | `Option` and `Result` |
| `text.dfy` | `Text` | Character classes and string operations: `\b`, the white space of each language, trim, split and join, substring search, lower case |
| `chord_scan.dfy` | `ChordScan` | Both chord regexes as one scanner with a `Dialect`, plus proofs that the scanner is the regex |
| `song_page.dfy` | `SongPage` | `isChordLine`, `renderChordLine`, `ChordsAndLyrics`, the chips and the stored chord list |
| `user_chords.dfy` | `UserChords` | Parsing of the comma-separated chord list |
| `home.dfy` | `Home` | The search page: the known/missing split, the badge, the cap and the blank-input guard |
| `py_values.dfy` | `PyValues` | The Python values the backend handles, with iteration and `str.join` |
| `chord_extractor.dfy` | `ChordExtractor` | `extract_chords`: tag stripping, the slash rewrite, the scan, the dedupe |
| `recommender.dfy` | `Recommender` | `broad_genre`, `prepare_data`, the lookup by id and `recommend` |
| `browser.dfy` | `Browser` | The two pages together with the storage entry they share |

**The scanner.** A regex match is defined declaratively by `ChordScan.Accepts`: a root letter at a word boundary, an optional accidental, an optional listed quality, then the trailing check. The scanner tries the alternatives in the regex's order. It is proved to return the longest accepted match at each offset. The global scan is proved to:

- return only such matches;
- return them in increasing, non-overlapping order;
- miss none.

The two regexes differ in two ways:

- **The trailing check.** The song page's `CHORD_RE` ends in the lookahead `(?![#\w])`. The extractor's `CHORD_PATTERN` ends in `\b`.
- **The quality list.** The extractor's list has no bare `sus` and no `5`.

So the page keeps `D#` as one chord, while the extractor yields only `D` (`ChordExtractor.SharpChordDivergence`). The model keeps that divergence as it is.

**Other behaviour kept as written.**

- **The slash rewrite.** The extractor rewrites `X/Y` to `X Y`. This turns a `/` into a space, and both are non-word characters that no chord symbol contains. So the rewrite cannot change what is extracted (`ChordExtractor.SlashRewriteIsInvisible`). Every slash chord the scan meets becomes its two notes with a space between them (`ChordExtractor.RewriteSlashChord`). A chained slash chord is rewritten only once (`ChordExtractor.ChainedSlashSplitsOnce`).
- **Song ids.** A song's id is its row label, which is its position in the CSV file. The lookup by id indexes the filtered table by position. Once a row has been dropped before a song, looking up that song's id answers "not found" or a different song (`Recommender.LabelLookupMisses`). With nothing dropped the two agree (`Recommender.NothingDroppedLabelsArePositions`).

**Inputs taken as parameters.** The backend's answer and `ast.literal_eval` are parameters: the evaluator is a function to `Option`, where `None` is any exception it raises.

**Exceptions.** The backend lets a `TypeError` escape in two places:

- `str.join` over values that are not strings;
- `str.join` over something that is not iterable.

The model gives these a `Result` failure.

## Model

| member | source | states |
|---|---|---|
| `Text.Trim` | frontend/src/App.js:17 | The result is the input with exactly its leading and trailing white-space runs removed; a non-empty result starts and ends with a non-space |
| `Text.TrimEmptyIffBlank` | frontend/src/App.js:21 | A string trims to nothing exactly when all its characters are white space, which is the blank-input test |
| `Text.TrimIdempotent` | frontend/src/App.js:17 | Trimming twice is trimming once |
| `Text.Split` | frontend/src/SongPage.js:50 | Splitting gives at least one piece and no piece contains the separator |
| `Text.JoinSplit` | frontend/src/SongPage.js:50 | Joining the pieces of a split with the separator gives back the string |
| `Text.SplitCount` | frontend/src/SongPage.js:50 | A split has one piece more than the string has separators |
| `Text.SplitJoin` | frontend/src/App.js:17 | Splitting a join of separator-free pieces gives back the pieces |
| `Text.ContainsIff` | backend/recommender.py:8-20 | Python's `p in s` holds exactly when `p` occurs at some offset of `s` |
| `Text.Lower` | backend/recommender.py:30 | Lower-casing keeps the length, leaves no ASCII capital, changes each capital into its lower-case letter and nothing else, and is the identity exactly on text without capitals |
| `Text.LowerIdempotent` | backend/recommender.py:30 | Lower-casing twice is lower-casing once |
| `Text.Elements` | backend/recommender.py:98 | `frozenset` of a list holds exactly the list's elements |
| `Text.ElementsCount` | backend/recommender.py:98 | The set is never larger than the list, and is as large exactly when the list has no repeats |
| `ChordScan.TryQualities` | frontend/src/SongPage.js:8 | Trying the quality alternatives in order returns an end that passes the trailing check, the longest such end, or none when no alternative passes |
| `ChordScan.MatchAt` | frontend/src/SongPage.js:8 | One regex attempt at an offset returns an accepted end, and the longest one, or nothing exactly when no end is accepted |
| `ChordScan.Matcher` | backend/chord_extractor.py:10-15 | The attempt at every offset, advancing past the offset when it matches |
| `ChordScan.ScanWith` | frontend/src/SongPage.js:27-38 | The `exec` loop yields no more tokens than there are characters left to scan, so it ends |
| `ChordScan.ScanWithTokens` | frontend/src/SongPage.js:27-38 | Every token of the `exec` loop is the attempt's result at its own offset and carries the text it covers |
| `ChordScan.ScanWithOrdered` | frontend/src/SongPage.js:27-38 | Tokens start at or after the end of the previous token |
| `ChordScan.ScanWithLeftmost` | frontend/src/SongPage.js:27-38 | No attempt succeeds in the gap in front of a token |
| `ChordScan.ScanWithExhaustive` | frontend/src/SongPage.js:27-38 | No attempt succeeds after the last token |
| `ChordScan.ScanTokens` | frontend/src/SongPage.js:8 | Every token lies in the text, carries its text, is an accepted chord symbol and is the longest match at its offset |
| `ChordScan.ScanOrdered` | frontend/src/SongPage.js:8 | The tokens are non-overlapping and in increasing order |
| `ChordScan.SilentMeansNoMatch` | frontend/src/SongPage.js:8 | Where every attempt fails, no chord symbol is accepted |
| `ChordScan.ScanComplete` | backend/chord_extractor.py:36 | No accepted chord symbol starts in a gap between tokens or after the last token |
| `ChordScan.Tokenize` | backend/chord_extractor.py:36 | `findall` returns, in increasing non-overlapping order, exactly the longest accepted matches the left-to-right scan meets: each is in the text and carries its text, and no accepted match starts in a gap between them or after the last |
| `ChordScan.TokenTextsMembers` | frontend/src/SongPage.js:13 | The matched strings are the texts of the tokens, one per token |
| `ChordScan.SymbolChars` | frontend/src/SongPage.js:8 | After the root, a chord symbol holds only `#` and word characters, and no root letter |
| `ChordScan.LookaheadMatchIsUnique` | frontend/src/SongPage.js:5-8 | Under the lookahead, at most one end is accepted at an offset |
| `ChordScan.LookaheadKeepsBareSharp` | frontend/src/SongPage.js:5-8 | Under the lookahead, a bare sharp chord before a non-word character or the end is matched with its `#` |
| `ChordScan.BoundaryDropsBareSharp` | backend/chord_extractor.py:10-15 | Under a trailing `\b`, the same text is matched without its `#` |
| `SongPage.NonSpaceUnits` | frontend/src/SongPage.js:17 | The count of non-space UTF-16 units is at most two per character, and zero exactly when every character is white space |
| `SongPage.NonSpaceUnitsAppend` | frontend/src/SongPage.js:17 | The count adds up over concatenation |
| `SongPage.SolidAsciiUnits` | frontend/src/SongPage.js:17 | Printable ASCII other than the space counts one unit per character |
| `SongPage.ChordCharsBounded` | frontend/src/SongPage.js:13-17 | The matched chord characters never exceed the non-space characters |
| `SongPage.MatchUnits` | frontend/src/SongPage.js:13-17 | A match's text is all non-space, so it accounts for its full length in the non-space count of the line from its start |
| `SongPage.IsChordLine` | frontend/src/SongPage.js:10-19 | A line is a chord line exactly when, once trimmed, its chord characters are more than half of its non-space characters |
| `SongPage.ChordLineNeedsChords` | frontend/src/SongPage.js:11-14 | A blank line, or one with no chord, is not a chord line |
| `SongPage.NoRootNoChords` | frontend/src/SongPage.js:8 | Text without the letters `A`-`G` has no chord |
| `SongPage.LyricWithoutRootLetters` | frontend/src/SongPage.js:10-19 | A line without the letters `A`-`G` is never a chord line |
| `SongPage.Pieces` | frontend/src/SongPage.js:27-42 | The parts are well formed: no empty plain run, no two plain runs in a row, and every span is a chord symbol marked known exactly when it is one of the user's |
| `SongPage.PiecesCoverLine` | frontend/src/SongPage.js:27-42 | The parts put back together are the rest of the line |
| `SongPage.PiecesSpans` | frontend/src/SongPage.js:27-42 | The spans of the parts are the tokens' texts in order |
| `SongPage.PiecesStarts` | frontend/src/SongPage.js:27-42 | The offsets of the spans within the line are the offsets of the tokens, in order |
| `SongPage.TokensInLine` | frontend/src/SongPage.js:24-37 | The scan of a line is ordered, stays in the line and yields chord symbols |
| `SongPage.RenderChordLine` | frontend/src/SongPage.js:21-45 | The parts reproduce the line exactly; the spans are the scan's matches in order and each stands at its match's offset in the line; every span is marked known exactly when its chord is one of the user's; no empty or doubled plain run |
| `SongPage.RowFor` | frontend/src/SongPage.js:54-66 | A row is a chord row exactly for a chord line, and then holds the line's rendered parts, with the user's chords marked known; a lyric row shows its line, or a no-break space when the line is empty |
| `SongPage.ChordsAndLyrics` | frontend/src/SongPage.js:47-70 | A missing or empty text gives the placeholder; otherwise there is one row per line of the split, one more than the line feeds, and each row is that line's: chord parts marked against the user's chords for a chord line, the line itself or a no-break space otherwise |
| `SongPage.PanelCoversText` | frontend/src/SongPage.js:50 | The lines the rows come from, joined with newlines, are the whole text |
| `SongPage.StoredKnownChords` | frontend/src/SongPage.js:134-138 | An absent storage entry gives the empty set; otherwise the set holds exactly the non-empty trimmed comma pieces |
| `UserChords.NonBlankTrimmed` | frontend/src/App.js:16-18 | No survivor is empty, and there are no more survivors than pieces |
| `UserChords.NonBlankTrimmedMembers` | frontend/src/App.js:16-18 | The survivors are exactly the non-empty trims of the pieces |
| `UserChords.ParseChordList` | frontend/src/App.js:16-18 | Every parsed chord is non-empty, comma-free and trimmed, and the parsed chords are exactly the non-empty trimmed pieces |
| `UserChords.ChordSet` | frontend/src/App.js:16-18 | The user's set holds exactly the non-empty trimmed comma pieces |
| `UserChords.EmptyListNoChords` | frontend/src/SongPage.js:136-137 | An empty list names no chord |
| `UserChords.ParseJoin` | frontend/src/App.js:16-18 | Writing chord names with commas and parsing them back gives the same list |
| `UserChords.TrimmedEntries` | frontend/src/App.js:17 | Entries survive trimming and the blank filter unchanged |
| `Home.Select` | frontend/src/App.js:102-103 | The filter keeps order and keeps each chord exactly as often as it occurs when its membership matches, and never otherwise |
| `Home.Partition` | frontend/src/App.js:102-103 | Known and missing together are the chord list, repeats included, and their lengths add up |
| `Home.ChipsAgreeWithSplit` | frontend/src/SongPage.js:166-171 | The song page's known chips are the search page's known chords and its missing chips are the missing chords, in order |
| `Home.ChipsSelect` | frontend/src/SongPage.js:166-171 | The chips of one marking are, in order, the listed chords whose membership in the user's set is that marking |
| `Home.ChipsOfSong` | frontend/src/SongPage.js:166-171 | A song without a chord list has no chips; otherwise known and missing chips together are the chord list, repeats included |
| `Home.Decimal` | frontend/src/App.js:118 | A number's decimal text is non-empty, all digits, and has no leading zero |
| `Home.DecimalRoundTrip` | frontend/src/App.js:118 | Reading the digits back gives the number |
| `Home.BadgeFor` | frontend/src/App.js:116-118 | The "You know all chords" badge shows exactly when nothing is missing |
| `Home.BadgeReadsBack` | frontend/src/App.js:118 | The badge starts with the count of missing chords and ends in "s" exactly when that count is not one |
| `Home.Cap` | frontend/src/App.js:32 | At most fifty results, the first ones, and a missing list reads as empty |
| `Home.FetchSongs` | frontend/src/App.js:20-40 | A blank input sends nothing and changes nothing; otherwise the raw fields are sent, and the results are the capped reply or, on failure, empty |
| `PyValues.Iterate` | backend/recommender.py:30 | Iteration gives a string's one-character strings, a list's elements or a dict's keys, and raises exactly for other values |
| `PyValues.JoinValuesSplitsBack` | backend/chord_extractor.py:24 | Joining string values that hold no separator, and splitting the result at the separator, gives back the strings |
| `PyValues.JoinValuesRaises` | backend/chord_extractor.py:24 | Joining raises a `TypeError` when any one value is not a string |
| `PyValues.JoinIterable` | backend/recommender.py:30 | Joining any value succeeds exactly when it is iterable and yields strings, and then gives those strings with the separator between neighbours |
| `PyValues.JoinCharacters` | backend/recommender.py:30 | Joining a string puts the separator between its characters |
| `ChordExtractor.TagEnd` | backend/chord_extractor.py:4 | An end the tag search finds closes a tag that starts at the offset |
| `ChordExtractor.TagEndUnique` | backend/chord_extractor.py:4 | A tag starting at an offset is the one the search finds: no tag there is missed and none has another end |
| `ChordExtractor.TagEndShift` | backend/chord_extractor.py:30 | Whether a tag starts at an offset, and where it ends, does not depend on the text in front of it |
| `ChordExtractor.StripTags` | backend/chord_extractor.py:30 | No tag is left after stripping |
| `ChordExtractor.StripAtTag` | backend/chord_extractor.py:30 | A tag at the scan position becomes one space and the scan resumes after it |
| `ChordExtractor.StripTagged` | backend/chord_extractor.py:30 | Text without `<`, then a tag, then the rest, strips to that text, one space, and the stripped rest |
| `ChordExtractor.StripTagFree` | backend/chord_extractor.py:30 | Text without tags passes through unchanged |
| `ChordExtractor.StripIdempotent` | backend/chord_extractor.py:30 | Stripping twice is stripping once |
| `ChordExtractor.SlashAt` | backend/chord_extractor.py:7 | A slash chord match has a root letter, a `/` and a second root letter, in that order, within the text |
| `ChordExtractor.SlashMatched` | backend/chord_extractor.py:7 | A slash the scan rewrites is a `/` of the text, after the offset the scan starts from |
| `ChordExtractor.RewriteSlashes` | backend/chord_extractor.py:32-33 | The rewrite keeps the length, and a character of the result is a space exactly where the input had a space or a matched slash |
| `ChordExtractor.RewriteOnlySeparates` | backend/chord_extractor.py:33 | The rewrite changes nothing but slashes, each into a space |
| `ChordExtractor.RewriteIsSameButSeparators` | backend/chord_extractor.py:33 | The rewritten text differs from the input only in separators |
| `ChordExtractor.ChainedSlashSplitsOnce` | backend/chord_extractor.py:7 | `C/G/D` becomes `C G/D` |
| `ChordExtractor.SlashMatchedSuffix` | backend/chord_extractor.py:33 | The matches found in a later part of the text do not depend on the text in front of it |
| `ChordExtractor.SlashMatchedPast` | backend/chord_extractor.py:33 | Past a prefix, the slashes rewritten in the whole text are those rewritten in the rest, moved by the prefix's length |
| `ChordExtractor.SlashMatchedPlainPrefix` | backend/chord_extractor.py:7 | Text without a root letter holds no match |
| `ChordExtractor.SlashMatchedAfterPlain` | backend/chord_extractor.py:7 | After text without a root letter, the first slash chord is matched and the scan resumes after it |
| `ChordExtractor.SlashChordAtStart` | backend/chord_extractor.py:7 | A note, a `/` and a note at the start of the text are matched whole, unless a one-letter second note is followed by an accidental |
| `ChordExtractor.SlashMatchedOfChord` | backend/chord_extractor.py:7-33 | In text without root letters, then a slash chord, then the rest, the rewritten slashes are the chord's own and those of the rest |
| `ChordExtractor.RewriteSlashChord` | backend/chord_extractor.py:6-33 | Every slash chord `X/Y` the rewrite meets becomes `X Y`, and the rest of the text is rewritten on its own |
| `ChordExtractor.RewriteBareSlashChord` | backend/chord_extractor.py:6-33 | A slash chord `X/Y` on its own becomes `X Y`, for every pair of notes |
| `ChordExtractor.SeparatorsKeepWordness` | backend/chord_extractor.py:14 | Swapping separators changes no word boundary |
| `ChordExtractor.AcceptsIgnoresSeparators` | backend/chord_extractor.py:10-15 | A match survives swapping separators, with the same text |
| `ChordExtractor.MatchIgnoresSeparators` | backend/chord_extractor.py:10-15 | The attempt at every offset is the same after swapping separators |
| `ChordExtractor.ScanIgnoresSeparators` | backend/chord_extractor.py:36 | The scan is the same after swapping separators |
| `ChordExtractor.DedupeFrom` | backend/chord_extractor.py:38-44 | The result has no repeats and holds exactly the elements not seen before |
| `ChordExtractor.FirstIndex` | backend/chord_extractor.py:38-44 | The offset of the first occurrence |
| `ChordExtractor.DedupeKeepsFirstOrder` | backend/chord_extractor.py:38-44 | The kept elements come in the order of their first occurrences |
| `ChordExtractor.ExtractFromText` | backend/chord_extractor.py:29-46 | No repeats, and as a set the result is the set of the pattern's matches on the cleaned text |
| `ChordExtractor.ExtractedAreMatches` | backend/chord_extractor.py:10-15 | Every extracted chord is an accepted match of the pattern |
| `ChordExtractor.SlashRewriteIsInvisible` | backend/chord_extractor.py:33 | The result is the same with or without the slash rewrite |
| `ChordExtractor.ExtractChords` | backend/chord_extractor.py:17-46 | Any value that is neither a string nor a dict gives no chords, a string is extracted from, and a dict's values are joined with spaces, raising unless all of them are strings |
| `ChordExtractor.SharpChordDivergence` | backend/chord_extractor.py:14 | The page's pattern finds `D#` in `D#` while the extractor finds `D` |
| `Recommender.FirstRule` | backend/recommender.py:31-33 | The rule found holds, and no earlier one does; none is found only when no rule holds |
| `Recommender.Bucket` | backend/recommender.py:31-34 | The bucket is one of the thirteen names or "Other" |
| `Recommender.NamesDistinct` | backend/recommender.py:7-21 | The bucket names are pairwise different and differ from "Other" |
| `Recommender.BucketIsFirstMatch` | backend/recommender.py:7-21 | A text lands in a bucket exactly when that rule holds and no earlier one does, and in "Other" exactly when no rule holds |
| `Recommender.BroadGenre` | backend/recommender.py:23-34 | Non-strings and unparsable strings are "Other"; the genres join raises exactly when it cannot join; the result is a bucket name, that of the lower-cased joined text |
| `Recommender.PopPunkIsRock` | backend/recommender.py:9-10 | "pop punk" is Rock |
| `Recommender.MetalWins` | backend/recommender.py:8 | Any text mentioning "metal" is Metal |
| `Recommender.BareRapIsOther` | backend/recommender.py:11 | A bare "rap" matches no rule |
| `Recommender.FlattenChords` | backend/recommender.py:62-67 | A cell that does not read as a dict gives no chords; a dict raises exactly when a value is not a string, and otherwise gives the deduplicated chords of its joined values |
| `Recommender.ConvertToDict` | backend/recommender.py:51-60 | A dict stays; a value that is neither a dict nor a string is the empty dict; a string is stripped and evaluated, the empty dict when evaluation raises and the evaluated value otherwise, which may not be a dict |
| `Recommender.DictSize` | backend/recommender.py:69-71 | The entry count of the dict, or of the dict a string cell evaluates to; 0 for a string that does not evaluate, or evaluates to something other than a dict, and for anything else |
| `Recommender.ExtractRowChords` | backend/recommender.py:73-81 | The dict's chords when there are any, otherwise those of the non-blank fallback text, otherwise none; raising only when the dict does; never a repeat |
| `Recommender.Keep` | backend/recommender.py:91-94 | A row is kept exactly when it has two or more chords and its dict has neither one nor two entries |
| `Recommender.RowOutcome` | backend/recommender.py:83-103 | A row raises exactly when its chords do, or when it passes the keep rule and its genre raises; it is dropped exactly when the keep rule fails; a kept row carries its chords, at least two, its genre bucket, and its names with blanks for missing |
| `Recommender.KeptChordSetSize` | backend/recommender.py:91-98 | A kept row's chord set is as large as its chord list, at least two chords |
| `Recommender.OutcomesAt` | backend/recommender.py:83-84 | The outcome at each position is the outcome of the row at that position |
| `Recommender.AssembleFails` | backend/recommender.py:84-100 | Preparation raises exactly when some row raises |
| `Recommender.AssembleOrdered` | backend/recommender.py:91-99 | The table's ids strictly increase and each names the row the song was kept from |
| `Recommender.AssembleKeepsAll` | backend/recommender.py:91-94 | Every kept row is in the table |
| `Recommender.PrepareDataSpec` | backend/recommender.py:49-103 | The prepared table raises exactly when a row does; otherwise it holds exactly the kept rows in file order, labelled by position, with set equal to list |
| `Recommender.PrepareData` | backend/recommender.py:49-103 | The prepared table's ids strictly increase, each is the position of a row of the file, and each song's chord set holds exactly the elements of its chord list |
| `Recommender.LookupByIdWhenNothingDropped` | backend/main.py:49-52 | With no row dropped, looking up any row's id finds the song made from that row |
| `Recommender.LabelNotBelowPosition` | backend/recommender.py:99 | A song's id is never below its position in the table |
| `Recommender.LabelLookupMisses` | backend/main.py:49-52 | A song whose id is not its position is not what the lookup by its id returns |
| `Recommender.NothingDroppedLabelsArePositions` | backend/recommender.py:91-99 | With no row dropped, ids are positions |
| `Recommender.UserSet` | backend/recommender.py:106 | The user's set holds exactly the non-empty stripped chords |
| `Recommender.MatchesFilter` | backend/recommender.py:109-112 | A filter matches exactly when, lower-cased, it occurs somewhere in the lower-cased field; the empty filter always matches, and a longer filter never does |
| `Recommender.MatchesFilterIgnoresCase` | backend/recommender.py:109-112 | Lower-casing the field or the filter first does not change whether it matches |
| `Recommender.Filter` | backend/recommender.py:109-114 | A song is kept, as often as it occurs, exactly when it passes the artist, title and genre filters |
| `Recommender.Score` | backend/recommender.py:117-118 | A song's missing and known counts add up to the size of its chord set |
| `Recommender.CountsAddUp` | backend/recommender.py:117-118 | Missing plus known is the size of the chord set |
| `Recommender.Insert` | backend/recommender.py:130-134 | Inserting into a sorted list keeps it sorted and adds exactly the element |
| `Recommender.InsertRecords` | backend/recommender.py:136 | Inserting adds exactly the element's record |
| `Recommender.SortByCounts` | backend/recommender.py:130-134 | The result is sorted by missing count ascending, then known count descending, and is a permutation of the input |
| `Recommender.SortRecords` | backend/recommender.py:136 | Sorting permutes the records |
| `Recommender.Ranking` | backend/recommender.py:116-134 | The result frame is sorted by the counts and is a permutation of the filtered songs' scored rows |
| `Recommender.RankingCounts` | backend/recommender.py:109-118 | Every ranked row is a song that passes the filters, with that song's counts |
| `Recommender.Recommend` | backend/recommender.py:105-136 | The records are a permutation of the records of the filtered songs, and each is the projection of a song that passes the filters |
| `Recommender.RecommendSorted` | backend/recommender.py:130-136 | Over a prepared table, the records come fewest missing chords first, then most known chords |
| `Browser.SearchAsWritten` | frontend/src/App.js:20-40 | A search as written leaves the storage entry as it was |
| `Browser.AsWrittenSongPageForgetsChords` | frontend/src/SongPage.js:134-138 | After searching for "C", the search page counts "C" as known while the song page marks it missing |
| `Browser.SearchRemembering` | frontend/src/SongPage.js:134-138 | The corrected search stores its chord input whenever it sends a request, and changes nothing otherwise |
| `Browser.RememberedChordsAgree` | frontend/src/SongPage.js:134-138 | After the corrected search, the song page reads back the searched set, and its known chips are the search page's known chords |

## Left out

- **I/O.** The HTTP calls, the FastAPI routes and CORS set-up in `backend/main.py`, reading the CSV file and the progress prints are left out. The backend's reply and the table's rows are parameters.
- **Page rendering.** React rendering, routing and the star-rating widget (`frontend/src/SongPage.js:72-128`) are left out; they do not bear on the chord logic. `backend/debug_chords.py` is not part of this model.
- **`ast.literal_eval`.** It is a parameter, a function to `Option`. Every literal it returns is a `PyValue`:
  - sets and tuples appear as lists. A set literal in a genres cell is joined in Python's iteration order for that set, which for strings depends on the per-process hash seed; the model fixes one order, the order of the list;
  - every number, and the `NaN` of an empty CSV cell, is one `PyNumber`.
- **The main.py route.** `/recommend` at `backend/main.py:26` parses the comma list the same way as `Recommender.UserSet`, and it never passes a genre; the route itself is left out.
- ChordExtractor.ExtractFromText: uses ASCII word characters. Python's `\b` counts every Unicode letter and digit as a word character. The model uses the ASCII class for both patterns, so it agrees with the source on ASCII text only.
- Recommender.BroadGenre: lower-cases ASCII only. Python's `str.lower` also lower-cases non-ASCII letters. The model lower-cases ASCII only.
- Recommender.Recommend: reads the filters as literal text. `str.contains` reads the artist and title filters as regular expressions with case folding. The model reads them as literal text, compared in ASCII lower case. So it agrees with the source only for filters without regex syntax.
- Recommender.RecommendSorted: says nothing of the order among ties. It states the order by the two counts only. The order among rows with equal counts depends on the sort pandas picks, and is not stated.
- Recommender.RowOutcome: takes the names as strings. The artist and song names are `None` when missing and strings otherwise. `astype(str)` of other values is not modelled.
- SongPage.ChordStarts: counts offsets in characters. `match.index` in `frontend/src/SongPage.js:29-33` counts UTF-16 units. The two differ after any character above U+FFFF, which takes two units. The parts shown are the same either way, because the model slices at its own offsets.
- **Lengths.** `SongPage.IsChordLine` compares `2 * chordChars > nonSpace`, the exact form of the source's floating-point test `chordChars / nonSpace > 0.5` for lengths below 2^52.

## Findings

| source | as written | input that shows it | evidently intended | confidence | as-written member | corrected member |
|---|---|---|---|---|---|---|
| frontend/src/SongPage.js:134-138 | The song page reads the user's chords from the storage entry "userChords", but the search (`frontend/src/App.js:20-40`) never writes that entry | Search for "C", then open a song with the chord "C": the search page lists "C" as known, and the song page marks it missing | The search stores its chord input, so both pages agree on which chords are known | medium; not executed; a file outside this model could write the entry | `Browser.AsWrittenSongPageForgetsChords` | `Browser.RememberedChordsAgree` |
