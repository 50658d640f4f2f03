/** Python values as the pipeline's scripts see them: JSON scalars, pandas cells,
    dict entries.  Also the two Python built-ins the scripts lean on, `==` between
    values and `int(...)`, decimal digit strings, and the insertion-ordered dict. */
module PyValues {

  /** The machine-type column of the data, which the endpoint one-hot encodes. */
  const TypeColumn := "Type"

  datatype Option<+T> = None | Some(value: T)

  datatype Result<+T, +E> = Ok(value: T) | Err(error: E)

  /** A value held in a JSON document, a dict or a data-frame cell.  Lists and
      nested objects are `Composite`, known by their canonical JSON text. */
  datatype Value =
    | Null
    | Bool(b: bool)
    | Int(i: int)
    | Real(r: real)
    | Str(s: string)
    | Composite(text: string)

  predicate IsNumber(v: Value) {
    v.Bool? || v.Int? || v.Real?
  }

  function NumberValue(v: Value): real
    requires IsNumber(v)
  {
    match v
    case Bool(b) => if b then 1.0 else 0.0
    case Int(i) => i as real
    case Real(r) => r
  }

  /** Python's `a == b`: bool, int and float compare by numeric value
      (`True == 1 == 1.0`); any other pair is equal only when identical. */
  predicate PyEq(a: Value, b: Value)
    ensures PyEq(a, b) && IsNumber(a) ==> IsNumber(b)
    ensures !IsNumber(a) ==> (PyEq(a, b) <==> a == b)
    ensures a.Int? && b.Int? ==> (PyEq(a, b) <==> a.i == b.i)
  {
    if IsNumber(a) && IsNumber(b) then NumberValue(a) == NumberValue(b) else a == b
  }

  lemma PyEqIsEquivalence(a: Value, b: Value, c: Value)
    ensures PyEq(a, a)
    ensures PyEq(a, b) ==> PyEq(b, a)
    ensures PyEq(a, b) && PyEq(b, c) ==> PyEq(a, c)
  {
  }

  /** Python's `int(r)` on a float: truncation toward zero. */
  function Truncate(r: real): (n: int)
    ensures 0.0 <= r ==> n as real <= r < n as real + 1.0
    ensures r < 0.0 ==> n as real - 1.0 < r <= n as real
  {
    if 0.0 <= r then r.Floor else -((-r).Floor)
  }

  // ---------------------------------------------------------------------------
  // Decimal digit strings

  predicate IsDigit(c: char) {
    '0' <= c <= '9'
  }

  predicate AllDigits(s: string) {
    forall i :: 0 <= i < |s| ==> IsDigit(s[i])
  }

  function DigitChar(d: nat): (c: char)
    requires d < 10
    ensures IsDigit(c) && c as int - '0' as int == d
  {
    ['0', '1', '2', '3', '4', '5', '6', '7', '8', '9'][d]
  }

  /** The number a string of decimal digits denotes (leading zeros allowed). */
  function DigitsValue(s: string): nat
    requires AllDigits(s)
    decreases |s|
  {
    if s == [] then 0
    else DigitsValue(s[..|s| - 1]) * 10 + (s[|s| - 1] as int - '0' as int)
  }

  /** Python's `str(n)` / `f"{n}"` for a non-negative integer. */
  function NatToString(n: nat): (s: string)
    ensures s != [] && AllDigits(s)
    ensures |s| > 1 ==> s[0] != '0'
  {
    if n < 10 then [DigitChar(n)] else NatToString(n / 10) + [DigitChar(n % 10)]
  }

  lemma {:induction false} DigitsRoundTrip(n: nat)
    ensures DigitsValue(NatToString(n)) == n
  {
    if n >= 10 {
      var s := NatToString(n);
      assert s[..|s| - 1] == NatToString(n / 10);
      DigitsRoundTrip(n / 10);
    }
  }

  /** Python's `int(s)` on a string of an optional sign and ASCII digits; any
      other string raises, which is `None` here. */
  function ParseIntLiteral(s: string): Option<int> {
    if |s| > 0 && (s[0] == '+' || s[0] == '-') then
      if |s| > 1 && AllDigits(s[1..]) then
        var magnitude: int := DigitsValue(s[1..]);
        Some(if s[0] == '-' then -magnitude else magnitude)
      else None
    else if s != [] && AllDigits(s) then Some(DigitsValue(s))
    else None
  }

  /** Python's `int(v)`: `None` where Python raises (`int(None)`, a list, a
      string that is not a numeral). */
  function PyInt(v: Value): (r: Option<int>)
    ensures v.Int? ==> r == Some(v.i)
    ensures v.Null? || v.Composite? ==> r == None
    ensures IsNumber(v) ==> r.Some?
  {
    match v
    case Null => None
    case Bool(b) => Some(if b then 1 else 0)
    case Int(i) => Some(i)
    case Real(r) => Some(Truncate(r))
    case Str(s) => ParseIntLiteral(s)
    case Composite(_) => None
  }

  lemma PyIntReadsDecimalText(n: nat)
    ensures PyInt(Str(NatToString(n))) == Some(n)
  {
    DigitsRoundTrip(n);
  }

  // ---------------------------------------------------------------------------
  // Insertion-ordered dicts (and the columns of a one-row data frame)

  datatype Field = Field(key: string, value: Value)

  type Dict = seq<Field>

  function Keys(d: Dict): (ks: seq<string>)
    ensures |ks| == |d| && forall i :: 0 <= i < |d| ==> ks[i] == d[i].key
  {
    seq(|d|, i requires 0 <= i < |d| => d[i].key)
  }

  predicate Distinct(ks: seq<string>) {
    forall i, j :: 0 <= i < j < |ks| ==> ks[i] != ks[j]
  }

  /** `d[k]`: the value of the first field named `k`. */
  function Get(d: Dict, k: string): (v: Value)
    requires k in Keys(d)
    ensures exists i :: 0 <= i < |d| && d[i] == Field(k, v)
  {
    if d[0].key == k then d[0].value else Get(d[1..], k)
  }

  lemma KeysAppend(a: Dict, b: Dict)
    ensures Keys(a + b) == Keys(a) + Keys(b)
  {
  }

  lemma DistinctAppend(a: seq<string>, b: seq<string>)
    requires Distinct(a) && Distinct(b)
    requires forall k :: k in a ==> k !in b
    ensures Distinct(a + b)
  {
    forall i, j | 0 <= i < j < |a + b| ensures (a + b)[i] != (a + b)[j] {
      if j >= |a| && i < |a| {
        assert (a + b)[i] in a && (a + b)[j] in b;
      }
    }
  }

  /** In a dict with distinct keys, the first key does not occur again, and the
      rest of the dict has distinct keys too. */
  lemma HeadKeyNotInTail(d: Dict)
    requires Distinct(Keys(d)) && d != []
    ensures Keys(d[1..]) == Keys(d)[1..]
    ensures Distinct(Keys(d[1..])) && d[0].key !in Keys(d[1..])
  {
    assert Keys(d[1..]) == Keys(d)[1..];
    forall j | 0 <= j < |d| - 1 ensures Keys(d[1..])[j] != d[0].key {
      assert Keys(d)[0] != Keys(d)[j + 1];
    }
  }

  /** In a dict with distinct keys, looking up the key of field `i` finds field `i`. */
  lemma {:induction false} GetAt(d: Dict, i: nat)
    requires Distinct(Keys(d)) && i < |d|
    ensures d[i].key in Keys(d) && Get(d, d[i].key) == d[i].value
  {
    if i > 0 {
      HeadKeyNotInTail(d);
      assert d[1..][i - 1] == d[i];
      GetAt(d[1..], i - 1);
    }
  }

  /** `d[k] = v`: overwrites the value of an existing key in place, or appends
      a new key at the end. */
  function Put(d: Dict, k: string, v: Value): (r: Dict)
    requires Distinct(Keys(d))
    ensures Distinct(Keys(r))
    ensures k in Keys(d) ==> Keys(r) == Keys(d)
    ensures k !in Keys(d) ==> Keys(r) == Keys(d) + [k]
    ensures forall i :: 0 <= i < |d| && d[i].key != k ==> r[i] == d[i]
    ensures forall i :: 0 <= i < |r| && r[i].key == k ==> r[i].value == v
  {
    if k in Keys(d) then
      var r := seq(|d|, i requires 0 <= i < |d| => if d[i].key == k then Field(k, v) else d[i]);
      assert Keys(r) == Keys(d);
      r
    else
      var r := d + [Field(k, v)];
      assert Keys(r) == Keys(d) + [k];
      r
  }
}
