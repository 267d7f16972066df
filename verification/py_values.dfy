/** The Python values the backend handles: CSV cells and what `ast.literal_eval` returns, with
    the two operations on them the backend relies on, iteration and `str.join`. */
module PyValues {
  import opened Wrappers
  import opened Text

  /** A Python value. `PyNumber` stands for every number, `NaN` of an empty CSV cell included;
      a tuple is a `PyList`; a dict keeps its items in insertion order. */
  datatype PyValue =
    | PyNone
    | PyNumber
    | PyStr(s: string)
    | PyList(elems: seq<PyValue>)
    | PyDict(items: seq<(PyValue, PyValue)>)

  /** The exception the backend does not catch. */
  datatype PyError = TypeError

  /** What `for x in v` visits: the one-character strings of a string, the elements of a
      list, the keys of a dict; anything else is not iterable. */
  function Iterate(v: PyValue): (r: Result<seq<PyValue>, PyError>)
    ensures r.Failure? <==> !(v.PyStr? || v.PyList? || v.PyDict?)
    ensures v.PyList? ==> r == Success(v.elems)
    ensures v.PyStr? ==>
      r.Success? && |r.value| == |v.s| && forall k :: 0 <= k < |v.s| ==> r.value[k] == PyStr([v.s[k]])
    ensures v.PyDict? ==>
      r.Success? && |r.value| == |v.items| && forall k :: 0 <= k < |v.items| ==> r.value[k] == v.items[k].0
  {
    match v
    case PyStr(s) => Success(seq(|s|, k requires 0 <= k < |s| => PyStr([s[k]])))
    case PyList(elems) => Success(elems)
    case PyDict(items) => Success(seq(|items|, k requires 0 <= k < |items| => items[k].0))
    case _ => Failure(TypeError)
  }

  /** The values of a dict's items, in insertion order. */
  function Values(items: seq<(PyValue, PyValue)>): (r: seq<PyValue>)
    ensures |r| == |items| && forall k :: 0 <= k < |items| ==> r[k] == items[k].1
  {
    seq(|items|, k requires 0 <= k < |items| => items[k].1)
  }

  /** Whether every value is a string. */
  predicate AllStrings(xs: seq<PyValue>) {
    forall k :: 0 <= k < |xs| ==> xs[k].PyStr?
  }

  /** The strings of a sequence of string values. */
  function Strings(xs: seq<PyValue>): (r: seq<string>)
    requires AllStrings(xs)
    ensures |r| == |xs| && forall k :: 0 <= k < |xs| ==> PyStr(r[k]) == xs[k]
  {
    seq(|xs|, k requires 0 <= k < |xs| => xs[k].s)
  }

  /** Joining values with `sep`: the strings glued with `sep` between them; a value that is
      not a string raises. */
  function JoinValues(sep: string, xs: seq<PyValue>): (r: Result<string, PyError>)
    ensures r.Success? <==> AllStrings(xs)
    ensures r.Success? ==> r.value == Join(Strings(xs), sep)
  {
    if AllStrings(xs) then Success(Join(Strings(xs), sep)) else Failure(TypeError)
  }

  /** Joining any value with `sep`: iterate it, then join what it yields. */
  function JoinIterable(sep: string, v: PyValue): (r: Result<string, PyError>)
    ensures r.Success? <==> Iterate(v).Success? && AllStrings(Iterate(v).value)
    ensures r.Success? ==> r.value == Join(Strings(Iterate(v).value), sep)
  {
    var xs :- Iterate(v);
    JoinValues(sep, xs)
  }

  /** Joining a string's characters puts `sep` between them: `" ".join("ab")` is `"a b"`. */
  lemma {:induction false} JoinCharacters(s: string, sep: string)
    ensures JoinIterable(sep, PyStr(s)) == Success(Join(seq(|s|, k requires 0 <= k < |s| => [s[k]]), sep))
  {
    var xs := Iterate(PyStr(s)).value;
    assert AllStrings(xs);
    assert Strings(xs) == seq(|s|, k requires 0 <= k < |s| => [s[k]]);
  }

  /** String values that do not contain the separator join without raising, and splitting the
      joined text at the separator gives the strings back: the join neither loses nor invents
      a piece. */
  lemma JoinValuesSplitsBack(xs: seq<string>, sep: char)
    requires |xs| >= 1
    requires forall k :: 0 <= k < |xs| ==> sep !in xs[k]
    ensures var vs := seq(|xs|, k requires 0 <= k < |xs| => PyStr(xs[k]));
      JoinValues([sep], vs).Success? && Split(JoinValues([sep], vs).value, sep) == xs
  {
    var vs := seq(|xs|, k requires 0 <= k < |xs| => PyStr(xs[k]));
    assert Strings(vs) == xs;
    SplitJoin(xs, sep);
  }

  /** A value that is not a string anywhere in the list makes the join raise. */
  lemma JoinValuesRaises(sep: string, xs: seq<PyValue>, k: nat)
    requires k < |xs| && !xs[k].PyStr?
    ensures JoinValues(sep, xs) == Failure(TypeError)
  {
  }
}
