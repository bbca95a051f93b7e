/** The value normaliser of the report handler (index.js:86-90): every
    empty-like value of the mapped record becomes the placeholder "N/A". */
module Normalise {
  import opened JsValues

  const NotApplicable := "N/A"

  /** The texts that, once trimmed and lower-cased, mark a value as empty. */
  const EmptyTexts: set<string> := {"", "undefined", "null", "nan"}

  /** `value == null || str in EmptyTexts || Number.isNaN(value)`, where `str`
      is `String(value).trim().toLowerCase()`. The text of a Date is a date-time
      or "Invalid Date", neither of which is in EmptyTexts. */
  predicate IsEmptyLike(v: Value) {
    match v
    case Absent => true
    case Null => true
    case NaN => true
    case Date(_) => false
    case _ => Lower(Trim(StringForm(v))) in EmptyTexts
  }

  /** A text whose trimmed form is longer than every empty text is kept. */
  lemma {:induction false} LongTextKept(s: string)
    requires |Trim(s)| > 9
    ensures !IsEmptyLike(Str(s))
  {
    var t := Lower(Trim(s));
    assert |t| > 9;
    assert t != "" && t != "undefined" && t != "null" && t != "nan";
  }

  /** A text longer than every empty text, with no blank at either end, is kept. */
  lemma UnpaddedTextKept(s: string)
    requires |s| > 9 && !IsWhitespace(s[0]) && !IsWhitespace(s[|s| - 1])
    ensures !IsEmptyLike(Str(s))
  {
    LongTextKept(s);
  }

  /** The placeholder is not itself empty-like, so it survives a second pass. */
  lemma NotApplicableKept()
    ensures !IsEmptyLike(Str(NotApplicable))
  {
    var s := NotApplicable;
    assert |s| == 3 && s[0] == 'N' && s[1] == '/' && s[2] == 'A';
    assert !IsWhitespace(s[0]) && !IsWhitespace(s[2]);
    assert Trim(s) == s;
    var l := Lower(s);
    assert |l| == 3 && l[1] == '/';
    assert l != "nan" by { assert "nan"[1] == 'a'; }
    assert l !in EmptyTexts;
  }

  /** Numbers other than NaN are kept, zero included: their text is digits. */
  lemma {:induction false} NumberKept(n: int)
    ensures !IsEmptyLike(Num(n))
  {
    var d := DecimalString(n);
    assert StringForm(Num(n)) == d;
    NumeralUnchanged(d);
    NumeralNotEmptyText(d);
  }

  /** A numeral has no blank to trim and no capital to lower. */
  lemma NumeralUnchanged(d: string)
    requires |d| > 0 && forall i :: 0 <= i < |d| ==> d[i] == '-' || '0' <= d[i] <= '9'
    ensures Lower(Trim(d)) == d
  {
    NumeralTrimmed(d);
    NumeralLowered(d);
  }

  /** A numeral has no blank at either end, so `trim` keeps it. */
  lemma NumeralTrimmed(d: string)
    requires |d| > 0 && (d[0] == '-' || '0' <= d[0] <= '9')
    requires d[|d| - 1] == '-' || '0' <= d[|d| - 1] <= '9'
    ensures Trim(d) == d
  {
    assert !IsWhitespace(d[0]) && !IsWhitespace(d[|d| - 1]);
  }

  /** A numeral has no capital letter, so `toLowerCase` keeps it. */
  lemma NumeralLowered(d: string)
    requires forall i :: 0 <= i < |d| ==> d[i] == '-' || '0' <= d[i] <= '9'
    ensures Lower(d) == d
  {
    var l := Lower(d);
    assert forall i :: 0 <= i < |d| ==> l[i] == d[i];
  }

  /** A numeral starts with a digit or a minus sign, which no empty text does. */
  lemma NumeralNotEmptyText(d: string)
    requires |d| > 0 && (d[0] == '-' || '0' <= d[0] <= '9')
    ensures d !in EmptyTexts
  {
    assert d != "undefined" by { assert "undefined"[0] == 'u'; }
    assert d != "null" by { assert "null"[0] == 'n'; }
    assert d != "nan" by { assert "nan"[0] == 'n'; }
  }

  /** Booleans are kept: "true" and "false" are not empty texts. */
  lemma BoolKept(b: bool)
    ensures !IsEmptyLike(Bool(b))
  {
    var t := if b then "true" else "false";
    assert StringForm(Bool(b)) == t;
    assert !IsWhitespace(t[0]) && !IsWhitespace(t[|t| - 1]);
    assert Trim(t) == t;
    var l := Lower(t);
    assert l[0] == 't' || l[0] == 'f';
    assert l != "" && l != "undefined" && l != "null" && l != "nan";
  }

  /** A string is replaced exactly when its trimmed, lower-cased text is empty,
      "undefined", "null" or "nan"; other kinds are decided by kind alone. */
  lemma EmptyLikeByKind(v: Value)
    ensures v.Str? ==> (IsEmptyLike(v) <==> Lower(Trim(v.s)) in EmptyTexts)
    ensures v.Absent? || v.Null? || v.NaN? ==> IsEmptyLike(v)
    ensures v.Num? || v.Bool? || v.Date? ==> !IsEmptyLike(v)
  {
    match v
    case Num(n) => NumberKept(n);
    case Bool(b) => BoolKept(b);
    case _ =>
  }

  /** One value: the placeholder in place of an empty-like value, the value
      itself otherwise. The result is never empty-like. */
  function NormalizeValue(v: Value): (r: Value)
    ensures !IsEmptyLike(r)
    ensures r == v <==> !IsEmptyLike(v)
    ensures r != v ==> r == Str(NotApplicable)
  {
    NotApplicableKept();
    if IsEmptyLike(v) then Str(NotApplicable) else v
  }

  /** The processed record: the same keys, each value normalised. */
  function NormalizedRecord(m: Row): (r: Row)
    ensures r.Keys == m.Keys
    ensures forall k :: k in r ==> !IsEmptyLike(r[k])
    ensures forall k :: k in m && !IsEmptyLike(m[k]) ==> r[k] == m[k]
    ensures forall k :: k in m && IsEmptyLike(m[k]) ==> r[k] == Str(NotApplicable)
  {
    map k | k in m :: NormalizeValue(m[k])
  }

  /** Normalising a processed record changes nothing. */
  lemma NormalizeIdempotent(m: Row)
    ensures NormalizedRecord(NormalizedRecord(m)) == NormalizedRecord(m)
  {
  }

  /** The loop of the report handler: it writes `processed[key]` one key at a
      time, in whatever order the keys are visited. */
  method NormalizeRecord(mapped: Row) returns (processed: Row)
    ensures processed == NormalizedRecord(mapped)
  {
    processed := map[];
    var pending := mapped.Keys;
    while pending != {}
      invariant pending <= mapped.Keys
      invariant processed.Keys == mapped.Keys - pending
      invariant forall k :: k in processed ==> processed[k] == NormalizeValue(mapped[k])
      decreases |pending|
    {
      var key :| key in pending;
      processed := processed[key := NormalizeValue(mapped[key])];
      pending := pending - {key};
    }
  }
}
