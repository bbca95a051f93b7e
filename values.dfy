/** JavaScript values as they appear in the spreadsheet rows and request bodies
    of index.js, with the few built-in operations the server applies to them:
    truthiness, `||`, `String(v)`, `String.prototype.trim` and
    `String.prototype.toLowerCase`. */
module JsValues {

  datatype Option<+T> = None | Some(value: T)

  /** The outcome of a JavaScript expression that either yields a value or
      throws a TypeError (calling a method that the value does not have). */
  datatype Outcome<+T> = Returns(value: T) | Throws

  /** A cell of a row, or a field of a request body.
      `Absent` is `undefined`; `Num` is a finite integral number; `Date` holds
      the time value (milliseconds since the epoch) of a Date object. */
  datatype Value =
    | Absent
    | Null
    | Str(s: string)
    | Num(n: int)
    | NaN
    | Bool(b: bool)
    | Date(time: int)

  /** A row record: column name to cell. */
  type Row = map<string, Value>

  /** `row[key]`: a column the row does not have reads as `undefined`. */
  function Get(row: Row, key: string): (v: Value)
    ensures key !in row ==> v.Absent?
    ensures key in row ==> v == row[key]
  {
    if key in row then row[key] else Absent
  }

  /** JavaScript truthiness. Every object, a Date included, is truthy. */
  predicate Truthy(v: Value) {
    match v
    case Absent => false
    case Null => false
    case Str(s) => s != ""
    case Num(n) => n != 0
    case NaN => false
    case Bool(b) => b
    case Date(_) => true
  }

  /** `a || b`: the left operand when it is truthy, the right one otherwise. */
  function Or(a: Value, b: Value): (r: Value)
    ensures Truthy(r) <==> Truthy(a) || Truthy(b)
    ensures r == a || r == b
    ensures Truthy(a) ==> r == a
    ensures !Truthy(a) ==> r == b
  {
    if Truthy(a) then a else b
  }

  // ---------------------------------------------------------------- String(v)

  function DigitChar(d: int): (c: char)
    requires 0 <= d < 10
    ensures '0' <= c <= '9'
    ensures c as int - '0' as int == d
  {
    (48 + d) as char
  }

  /** A text made only of decimal digits. */
  predicate AllDigits(s: string) {
    forall i :: 0 <= i < |s| ==> '0' <= s[i] <= '9'
  }

  /** The number a text of decimal digits spells, most significant first. */
  function DigitsValue(s: string): nat
    requires AllDigits(s)
  {
    if s == [] then 0
    else DigitsValue(s[..|s| - 1]) * 10 + (s[|s| - 1] as int - '0' as int)
  }

  /** The decimal digits of a natural number, most significant first: they
      spell `n`, and only a zero starts with the digit 0. */
  function NatDigits(n: nat): (r: string)
    ensures |r| > 0 && AllDigits(r)
    ensures DigitsValue(r) == n
    ensures r[0] == '0' ==> r == "0"
    decreases n
  {
    if n < 10 then [DigitChar(n)]
    else
      var front := NatDigits(n / 10);
      var r := front + [DigitChar(n % 10)];
      assert r[..|r| - 1] == front;
      r
  }

  /** `String(n)` for an integral number: a minus sign exactly for a negative
      number, followed by the digits that spell its magnitude. */
  function DecimalString(n: int): (r: string)
    ensures |r| > 0
    ensures forall i :: 0 <= i < |r| ==> r[i] == '-' || '0' <= r[i] <= '9'
    ensures n < 0 ==> r[0] == '-' && AllDigits(r[1..]) && DigitsValue(r[1..]) == -n
    ensures n >= 0 ==> AllDigits(r) && DigitsValue(r) == n
  {
    if n < 0 then
      var r := "-" + NatDigits(-n);
      assert r[1..] == NatDigits(-n);
      r
    else NatDigits(n)
  }

  /** `String(v)` for every value but a Date, whose text depends on the host's
      time zone and is not modelled. */
  function StringForm(v: Value): (r: string)
    requires !v.Date?
    ensures v.Absent? ==> r == "undefined"
    ensures v.Null? ==> r == "null"
    ensures v.Str? ==> r == v.s
    ensures v.Num? ==> r == DecimalString(v.n)
    ensures v.NaN? ==> r == "NaN"
    ensures v.Bool? ==> r == (if v.b then "true" else "false")
  {
    match v
    case Absent => "undefined"
    case Null => "null"
    case Str(s) => s
    case Num(n) => DecimalString(n)
    case NaN => "NaN"
    case Bool(b) => if b then "true" else "false"
  }

  // ------------------------------------------------------------------- trim()

  /** The code points ECMAScript's `trim` removes: WhiteSpace and LineTerminator. */
  predicate IsWhitespace(c: char) {
    var n := c as int;
    n == 0x09 || n == 0x0A || n == 0x0B || n == 0x0C || n == 0x0D || n == 0x20
    || n == 0xA0 || n == 0x1680 || (0x2000 <= n <= 0x200A) || n == 0x2028
    || n == 0x2029 || n == 0x202F || n == 0x205F || n == 0x3000 || n == 0xFEFF
  }

  /** Drops the leading whitespace: the result is the suffix of `s` that starts
      at its first non-whitespace character. */
  function TrimStart(s: string): (r: string)
    ensures |r| <= |s| && r == s[|s| - |r|..]
    ensures forall k :: 0 <= k < |s| - |r| ==> IsWhitespace(s[k])
    ensures |r| > 0 ==> !IsWhitespace(r[0])
  {
    if |s| > 0 && IsWhitespace(s[0]) then TrimStart(s[1..]) else s
  }

  /** Drops the trailing whitespace: the result is the prefix of `s` that ends
      at its last non-whitespace character. */
  function TrimEnd(s: string): (r: string)
    ensures |r| <= |s| && r == s[..|r|]
    ensures forall k :: |r| <= k < |s| ==> IsWhitespace(s[k])
    ensures |r| > 0 ==> !IsWhitespace(r[|r| - 1])
  {
    if |s| > 0 && IsWhitespace(s[|s| - 1]) then TrimEnd(s[..|s| - 1]) else s
  }

  /** `r` is the slice of `s` starting at `i`, and everything of `s` outside
      that slice is whitespace. */
  predicate StripsTo(s: string, r: string, i: int) {
    0 <= i <= |s| - |r| && r == s[i..i + |r|]
    && (forall k :: 0 <= k < i ==> IsWhitespace(s[k]))
    && (forall k :: i + |r| <= k < |s| ==> IsWhitespace(s[k]))
  }

  /** `s.trim()`: neither end of the result is whitespace, and a string whose
      ends are not whitespace is returned as it is. */
  function Trim(s: string): (r: string)
    ensures |r| <= |s|
    ensures |r| > 0 ==> !IsWhitespace(r[0]) && !IsWhitespace(r[|r| - 1])
    ensures (|s| == 0 || (!IsWhitespace(s[0]) && !IsWhitespace(s[|s| - 1]))) ==> r == s
  {
    var t := TrimStart(s);
    if |t| > 0 then assert t[0] == s[|s| - |t|]; TrimEnd(t) else TrimEnd(t)
  }

  /** `s.trim()` is `s` with its leading and trailing whitespace removed: a
      slice of `s` with nothing but whitespace outside it. */
  lemma TrimStrips(s: string)
    ensures exists i :: StripsTo(s, Trim(s), i)
  {
    var t := TrimStart(s);
    var r := TrimEnd(t);
    var i := |s| - |t|;
    assert Trim(s) == r;
    assert r == s[i..i + |r|] by {
      assert t == s[i..];
      assert r == t[..|r|];
    }
    assert forall k :: i + |r| <= k < |s| ==> IsWhitespace(s[k]) by {
      forall k | i + |r| <= k < |s| ensures IsWhitespace(s[k]) {
        assert s[k] == t[k - i];
      }
    }
    assert StripsTo(s, r, i);
  }

  // ------------------------------------------------------------ toLowerCase()

  function LowerChar(c: char): (r: char)
    ensures !('A' <= r <= 'Z')
    ensures 'A' <= c <= 'Z' ==> r as int == c as int + 32
    ensures !('A' <= c <= 'Z') ==> r == c
  {
    if 'A' <= c <= 'Z' then (c as int + 32) as char else c
  }

  /** `s.toLowerCase()` over ASCII: every capital letter becomes its small
      letter, every other character stays, and the length is kept. */
  function Lower(s: string): (r: string)
    ensures |r| == |s|
    ensures forall i :: 0 <= i < |s| ==> r[i] == LowerChar(s[i])
  {
    seq(|s|, i requires 0 <= i < |s| => LowerChar(s[i]))
  }
}
