/** Character classes and string helpers shared by the JavaScript and the Python code.
    Characters are Unicode code points. Word characters are the ASCII `\w` of a regex
    without the Unicode flag; white space is the full class each language uses. */
module Text {

  /** `\w` in an ASCII regex: letter, digit or underscore. */
  predicate IsWordChar(c: char) {
    ('a' <= c <= 'z') || ('A' <= c <= 'Z') || ('0' <= c <= '9') || c == '_'
  }

  /** Whether position `k` of `s` holds a word character; positions outside `s` do not. */
  predicate WordAt(s: string, k: int) {
    0 <= k < |s| && IsWordChar(s[k])
  }

  /** The regex assertion `\b` at position `k` (between `s[k-1]` and `s[k]`). */
  predicate Boundary(s: string, k: int) {
    WordAt(s, k - 1) != WordAt(s, k)
  }

  /** Space separators (Unicode category Zs) and the line and paragraph separators, which
      both JavaScript and Python treat as white space. */
  predicate IsUnicodeSeparator(c: char) {
    c == ' ' || c == '\U{A0}' || c == '\U{1680}' || ('\U{2000}' <= c <= '\U{200A}')
    || c == '\U{2028}' || c == '\U{2029}' || c == '\U{202F}' || c == '\U{205F}' || c == '\U{3000}'
  }

  /** The ASCII control characters tab, line feed, vertical tab, form feed, carriage return. */
  predicate IsControlSpace(c: char) {
    '\t' <= c <= '\r'
  }

  /** JavaScript's `\s` and the characters `String.prototype.trim` removes. */
  predicate IsJsSpace(c: char) {
    IsControlSpace(c) || IsUnicodeSeparator(c) || c == '\U{FEFF}'
  }

  /** Python's `str.isspace`, used by `str.strip`: also the separators 0x1C-0x1F and NEL,
      but not the byte-order mark. */
  predicate IsPySpace(c: char) {
    IsControlSpace(c) || IsUnicodeSeparator(c) || ('\U{1C}' <= c <= '\U{1F}') || c == '\U{85}'
  }

  /** The number of leading characters of `s` that satisfy `ws`. */
  function LeadingRun(s: string, ws: char -> bool): (n: nat)
    ensures n <= |s|
    ensures forall k :: 0 <= k < n ==> ws(s[k])
    ensures n < |s| ==> !ws(s[n])
  {
    if |s| == 0 || !ws(s[0]) then 0 else 1 + LeadingRun(s[1..], ws)
  }

  /** The first position at or after `i` that does not hold a `ws` character (`|s|` if none). */
  function SkipSpace(s: string, ws: char -> bool, i: nat): (n: nat)
    requires i <= |s|
    ensures i <= n <= |s|
    ensures forall k :: i <= k < n ==> ws(s[k])
    ensures n < |s| ==> !ws(s[n])
    decreases |s| - i
  {
    if i == |s| || !ws(s[i]) then i else SkipSpace(s, ws, i + 1)
  }

  /** The end of `s[lo..j]` once its trailing `ws` characters are dropped. */
  function SkipSpaceBack(s: string, ws: char -> bool, lo: nat, j: nat): (n: nat)
    requires lo <= j <= |s|
    ensures lo <= n <= j
    ensures forall k :: n <= k < j ==> ws(s[k])
    ensures n > lo ==> !ws(s[n - 1])
    decreases j
  {
    if j == lo || !ws(s[j - 1]) then j else SkipSpaceBack(s, ws, lo, j - 1)
  }

  /** `s` without its leading and trailing `ws` characters (JavaScript `trim`, Python `strip`). */
  function Trim(s: string, ws: char -> bool): (r: string)
    ensures var a := SkipSpace(s, ws, 0); a + |r| <= |s| && r == s[a..a + |r|]
    ensures forall k :: SkipSpace(s, ws, 0) + |r| <= k < |s| ==> ws(s[k])
    ensures |r| > 0 ==> !ws(r[0]) && !ws(r[|r| - 1])
  {
    var a := SkipSpace(s, ws, 0);
    s[a..SkipSpaceBack(s, ws, a, |s|)]
  }

  /** A string trims to nothing exactly when every character of it is whitespace. */
  lemma TrimEmptyIffBlank(s: string, ws: char -> bool)
    ensures |Trim(s, ws)| == 0 <==> forall k :: 0 <= k < |s| ==> ws(s[k])
  {
  }

  /** A string with no white space at either end is its own trim. */
  lemma TrimUnpadded(s: string, ws: char -> bool)
    requires |s| > 0 ==> !ws(s[0]) && !ws(s[|s| - 1])
    ensures Trim(s, ws) == s
  {
    if |s| > 0 {
      assert SkipSpace(s, ws, 0) == 0;
      assert SkipSpaceBack(s, ws, 0, |s|) == |s|;
    }
  }

  /** Trimming twice is trimming once. */
  lemma TrimIdempotent(s: string, ws: char -> bool)
    ensures Trim(Trim(s, ws), ws) == Trim(s, ws)
  {
    TrimUnpadded(Trim(s, ws), ws);
  }

  /** Trimming keeps only characters of the original. */
  lemma TrimChars(s: string, ws: char -> bool, c: char)
    requires c in Trim(s, ws)
    ensures c in s
  {
    var a := SkipSpace(s, ws, 0);
    var r := Trim(s, ws);
    var k :| 0 <= k < |r| && r[k] == c;
    assert s[a + k] == c;
  }

  /** Splitting on a one-character separator, as JavaScript's and Python's `split(sep)`. */
  function Split(s: string, sep: char): (parts: seq<string>)
    ensures |parts| >= 1
    ensures forall p :: p in parts ==> sep !in p
  {
    if |s| == 0 then [""]
    else
      var rest := Split(s[1..], sep);
      if s[0] == sep then [""] + rest
      else [[s[0]] + rest[0]] + rest[1..]
  }

  /** A string without the separator is its own only piece. */
  lemma {:induction false} SplitWithoutSeparator(s: string, sep: char)
    requires sep !in s
    ensures Split(s, sep) == [s]
  {
    if |s| > 0 {
      SplitWithoutSeparator(s[1..], sep);
      assert [s[0]] + s[1..] == s;
    }
  }

  /** The pieces concatenated with the separator between each neighbouring pair. */
  function Join(parts: seq<string>, sep: string): string
  {
    if |parts| == 0 then ""
    else if |parts| == 1 then parts[0]
    else parts[0] + sep + Join(parts[1..], sep)
  }

  /** The number of occurrences of `c` in `s`. */
  function Occurrences(s: string, c: char): nat
  {
    if |s| == 0 then 0 else (if s[0] == c then 1 else 0) + Occurrences(s[1..], c)
  }

  /** Joining the pieces of a split gives back the original string. */
  lemma {:induction false} JoinSplit(s: string, sep: char)
    ensures Join(Split(s, sep), [sep]) == s
  {
    if |s| > 0 {
      var rest := Split(s[1..], sep);
      JoinSplit(s[1..], sep);
      if s[0] == sep {
        assert Split(s, sep) == [""] + rest;
      } else {
        var parts := [[s[0]] + rest[0]] + rest[1..];
        if |rest| == 1 {
          assert Join(parts, [sep]) == [s[0]] + rest[0];
        } else {
          assert parts[1..] == rest[1..];
          assert Join(rest, [sep]) == rest[0] + [sep] + Join(rest[1..], [sep]);
        }
      }
    }
  }

  /** A split yields one piece more than there are separators. */
  lemma {:induction false} SplitCount(s: string, sep: char)
    ensures |Split(s, sep)| == Occurrences(s, sep) + 1
  {
    if |s| > 0 {
      SplitCount(s[1..], sep);
    }
  }

  /** Splitting a join of separator-free pieces gives the pieces back. */
  lemma {:induction false} SplitJoin(parts: seq<string>, sep: char)
    requires |parts| >= 1
    requires forall p :: p in parts ==> sep !in p
    ensures Split(Join(parts, [sep]), sep) == parts
    decreases |parts|, |parts[0]|
  {
    if |parts[0]| > 0 {
      var p := parts[0];
      var tail := [p[1..]] + parts[1..];
      assert sep !in p[1..] by { assert p in parts; }
      assert forall q :: q in tail ==> q == p[1..] || q in parts[1..];
      SplitJoin(tail, sep);
      JoinConsChar(p, parts[1..], sep);
      assert p[0] != sep by { assert p[0] in p; }
      var joined := Join(parts, [sep]);
      assert [p] + parts[1..] == parts;
      assert joined[1..] == Join(tail, [sep]);
      assert [p[0]] + p[1..] == p;
    } else if |parts| > 1 {
      SplitJoin(parts[1..], sep);
      assert Join(parts, [sep]) == [sep] + Join(parts[1..], [sep]);
    }
  }

  lemma JoinConsChar(p: string, rest: seq<string>, sep: char)
    requires |p| > 0
    ensures Join([p] + rest, [sep]) == [p[0]] + Join([p[1..]] + rest, [sep])
  {
    if |rest| == 0 {
      assert [p] + rest == [p];
      assert [p[1..]] + rest == [p[1..]];
    } else {
      assert ([p] + rest)[1..] == rest;
      assert ([p[1..]] + rest)[1..] == rest;
    }
  }

  /** Whether `p` occurs in `s` at offset `k`. */
  predicate OccursAt(s: string, p: string, k: int) {
    0 <= k && k + |p| <= |s| && s[k..k + |p|] == p
  }

  /** Python's `p in s` for strings: a left-to-right search. */
  predicate Contains(s: string, p: string)
    decreases |s|
  {
    |p| <= |s| && (s[..|p|] == p || (|s| > 0 && Contains(s[1..], p)))
  }

  /** The search finds exactly the offsets where `p` occurs. */
  lemma {:induction false} ContainsIff(s: string, p: string)
    ensures Contains(s, p) <==> exists k :: OccursAt(s, p, k)
    decreases |s|
  {
    if |p| <= |s| && s[..|p|] != p && |s| > 0 {
      ContainsIff(s[1..], p);
      if exists k :: OccursAt(s[1..], p, k) {
        var k :| OccursAt(s[1..], p, k);
        assert s[k + 1..k + 1 + |p|] == s[1..][k..k + |p|];
        assert OccursAt(s, p, k + 1);
      }
      if exists k :: OccursAt(s, p, k) {
        var k :| OccursAt(s, p, k);
        assert k != 0;
        assert s[1..][k - 1..k - 1 + |p|] == s[k..k + |p|];
        assert OccursAt(s[1..], p, k - 1);
      }
    } else if |p| <= |s| && s[..|p|] == p {
      assert OccursAt(s, p, 0);
    }
  }

  predicate IsUpper(c: char) {
    'A' <= c <= 'Z'
  }

  /** The ASCII part of Python's lower-casing of one character. */
  function LowerChar(c: char): char {
    if IsUpper(c) then (c as int + 32) as char else c
  }

  /** Lower-casing: the result has no capital letter left; every other character stays, and a
      capital becomes the small letter 32 code points above it. A string is its own lower case
      exactly when it has no capital. */
  function Lower(s: string): (r: string)
    ensures |r| == |s|
    ensures forall k :: 0 <= k < |r| ==> !IsUpper(r[k])
    ensures forall k :: 0 <= k < |s| ==> r[k] == s[k] || (IsUpper(s[k]) && r[k] as int == s[k] as int + 32)
    ensures r == s <==> forall k :: 0 <= k < |s| ==> !IsUpper(s[k])
  {
    seq(|s|, k requires 0 <= k < |s| => LowerChar(s[k]))
  }

  /** Lower-casing twice is lower-casing once. */
  lemma LowerIdempotent(s: string)
    ensures Lower(Lower(s)) == Lower(s)
  {
  }

  // ---- Lists as sets ----

  /** No element occurs twice. */
  predicate NoDuplicates(xs: seq<string>) {
    forall j, k :: 0 <= j < k < |xs| ==> xs[j] != xs[k]
  }

  lemma NoDuplicatesCons(xs: seq<string>)
    requires |xs| > 0
    ensures NoDuplicates(xs) <==> xs[0] !in xs[1..] && NoDuplicates(xs[1..])
  {
    if xs[0] in xs[1..] {
      var k :| 0 <= k < |xs[1..]| && xs[1..][k] == xs[0];
      assert xs[0] == xs[k + 1];
    }
    if NoDuplicates(xs[1..]) && xs[0] !in xs[1..] {
      forall j, k | 0 <= j < k < |xs|
        ensures xs[j] != xs[k]
      {
        if j == 0 {
          assert xs[k] == xs[1..][k - 1];
        } else {
          assert xs[j] == xs[1..][j - 1] && xs[k] == xs[1..][k - 1];
        }
      }
    }
  }

  /** The set of a list's elements. */
  function Elements(xs: seq<string>): (r: set<string>)
    ensures forall c :: c in r <==> c in xs
    decreases |xs|
  {
    if |xs| == 0 then
      {}
    else
      assert forall c :: c in xs <==> c == xs[0] || c in xs[1..];
      {xs[0]} + Elements(xs[1..])
  }

  /** The set of a list has no more members than the list has entries, and exactly as many
      when the list has no repeats. */
  lemma {:induction false} ElementsCount(xs: seq<string>)
    ensures |Elements(xs)| <= |xs|
    ensures |Elements(xs)| == |xs| <==> NoDuplicates(xs)
  {
    if |xs| > 0 {
      ElementsCount(xs[1..]);
      NoDuplicatesCons(xs);
      assert Elements(xs) == {xs[0]} + Elements(xs[1..]);
    }
  }
}
