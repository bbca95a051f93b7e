/** The compliance rule (`determineCompliance`) and the record mapper
    (`mapExcel`) of index.js. The wall clock is the parameter `now` and the
    host's date-string parser the parameter `parse`. */
module Compliance {
  import opened JsValues

  const StatusKey := "FISP Compliance Status"
  const LastFilingKey := "FISP Last Filing Status"
  const DueKey := "FISP Filing Due"
  const AddressKey := "Address"
  const OwnerKey := "Building Owner/Manager"
  const OwnerOutKey := "Building_OwnerManager"
  const BoroughKey := "Borough"
  const EmailKey := "Contact Email"
  const PhoneKey := "Contact Phone"

  const InCompliance := "In Compliance"
  const NonCompliant := "Non-Compliant"

  const DefaultEmail := "Chelsea.Coppinger@socotec.us"
  const DefaultPhone := "+1 646 549 6045"

  /** The keys of a mapped record, and nothing else. */
  const OutputKeys: set<string> :=
    {AddressKey, OwnerOutKey, BoroughKey, StatusKey, EmailKey, PhoneKey}

  // ------------------------------------------------------------- new Date(v)

  /** A date-string parser: the time value of the text, or None when the text
      does not parse (JavaScript's Invalid Date). */
  type DateParser = string -> Option<int>

  /** The largest time value a Date can hold, in milliseconds. */
  const MaxTime := 8_640_000_000_000_000

  function TimeClip(t: Option<int>): (r: Option<int>)
    ensures r.Some? <==> t.Some? && -MaxTime <= t.value <= MaxTime
    ensures r.Some? ==> r == t
  {
    match t
    case Some(x) => if -MaxTime <= x <= MaxTime then t else None
    case None => None
  }

  /** The time value of `new Date(v)`, None for an Invalid Date. A Date is
      copied, a string is parsed, anything else goes through `Number(v)`:
      `undefined` and NaN give an Invalid Date, `null` the epoch. */
  function DateOf(v: Value, parse: DateParser): (r: Option<int>)
    ensures r.Some? ==> -MaxTime <= r.value <= MaxTime
    ensures v.Absent? || v.NaN? ==> r.None?
    ensures v.Null? ==> r == Some(0)
    ensures v.Str? ==> r == TimeClip(parse(v.s))
    ensures v.Num? ==> r == TimeClip(Some(v.n))
    ensures v.Bool? ==> r == Some(if v.b then 1 else 0)
    ensures v.Date? ==> r == TimeClip(Some(v.time))
  {
    TimeClip(
      match v
      case Absent => None
      case Null => Some(0)
      case Str(s) => parse(s)
      case Num(n) => Some(n)
      case NaN => None
      case Bool(b) => Some(if b then 1 else 0)
      case Date(t) => Some(t))
  }

  // ------------------------------------------------------- determineCompliance

  /** `sub` occurs in `s` starting at index `i`. */
  predicate OccursAt(s: string, sub: string, i: int) {
    0 <= i && i + |sub| <= |s| && s[i..i + |sub|] == sub
  }

  /** `s.includes(sub)`: `sub` occurs somewhere in `s`. */
  predicate Includes(s: string, sub: string) {
    exists i | 0 <= i <= |s| :: OccursAt(s, sub, i)
  }

  /** `last?.includes('SWARMP')`: false for a nullish value, a TypeError for
      any other value that is not a string. */
  function IncludesSwarmp(last: Value): (r: Outcome<bool>)
    ensures r.Throws? <==> !(last.Absent? || last.Null? || last.Str?)
    ensures r == Returns(true) <==> last.Str? && Includes(last.s, "SWARMP")
  {
    match last
    case Absent => Returns(false)
    case Null => Returns(false)
    case Str(s) => Returns(Includes(s, "SWARMP"))
    case _ => Throws
  }

  /** Rule 1: the status is exactly "UNSAFE" or "No Report Filed". */
  predicate UnsafeOrUnfiled(row: Row) {
    Get(row, StatusKey) == Str("UNSAFE") || Get(row, StatusKey) == Str("No Report Filed")
  }

  /** Rule 2: the status is exactly "SWARMP", or the last filing status is a
      string containing "SWARMP". */
  predicate SwarmpFiled(row: Row) {
    var last := Get(row, LastFilingKey);
    Get(row, StatusKey) == Str("SWARMP") || (last.Str? && Includes(last.s, "SWARMP"))
  }

  /** Rule 2 cannot be decided: the status is not "SWARMP" and the last filing
      status is neither nullish nor a string. */
  predicate SwarmpUndecidable(row: Row) {
    var last := Get(row, LastFilingKey);
    Get(row, StatusKey) != Str("SWARMP") && !(last.Absent? || last.Null? || last.Str?)
  }

  /** Rule 3: the due date is a valid date strictly before `now`. */
  predicate Overdue(row: Row, now: int, parse: DateParser) {
    var due := DateOf(Get(row, DueKey), parse);
    due.Some? && due.value < now
  }

  /** `determineCompliance(row)`: the rules in first-match-wins order. */
  function DetermineCompliance(row: Row, now: int, parse: DateParser): (r: Outcome<string>)
    ensures r.Returns? ==> r.value == InCompliance || r.value == NonCompliant
    ensures UnsafeOrUnfiled(row) ==> r == Returns(NonCompliant)
    ensures !UnsafeOrUnfiled(row) && SwarmpFiled(row) ==> r == Returns(InCompliance)
    ensures r.Throws? <==> !UnsafeOrUnfiled(row) && SwarmpUndecidable(row)
    ensures !UnsafeOrUnfiled(row) && !SwarmpFiled(row) && r.Returns? ==>
              (r.value == NonCompliant <==> Overdue(row, now, parse))
  {
    var status := Get(row, StatusKey);
    if status == Str("UNSAFE") || status == Str("No Report Filed") then Returns(NonCompliant)
    else if status == Str("SWARMP") then Returns(InCompliance)
    else
      match IncludesSwarmp(Get(row, LastFilingKey))
      case Throws => Throws
      case Returns(true) => Returns(InCompliance)
      case Returns(false) =>
        match DateOf(Get(row, DueKey), parse)
        case Some(t) => if t < now then Returns(NonCompliant) else Returns(InCompliance)
        case None => Returns(InCompliance)
  }

  /** The due date matters only when neither rule 1 nor rule 2 fires. */
  lemma DueDateIrrelevantOnceDecided(row: Row, due: Value, now: int, parse: DateParser)
    requires UnsafeOrUnfiled(row) || SwarmpFiled(row)
    ensures DetermineCompliance(row[DueKey := due], now, parse) == DetermineCompliance(row, now, parse)
  {
    var row' := row[DueKey := due];
    assert Get(row', StatusKey) == Get(row, StatusKey);
    assert Get(row', LastFilingKey) == Get(row, LastFilingKey);
  }

  /** A building that is non-compliant now stays non-compliant later. */
  lemma NonComplianceIsStable(row: Row, now: int, later: int, parse: DateParser)
    requires now <= later
    requires DetermineCompliance(row, now, parse) == Returns(NonCompliant)
    ensures DetermineCompliance(row, later, parse) == Returns(NonCompliant)
  {
  }

  /** An Invalid Date never counts as earlier than now: when rules 1 and 2 do
      not fire, a missing or unparseable due date gives "In Compliance". */
  lemma InvalidDueDateIsCompliant(row: Row, now: int, parse: DateParser)
    requires !UnsafeOrUnfiled(row) && !SwarmpFiled(row) && !SwarmpUndecidable(row)
    requires DateOf(Get(row, DueKey), parse).None?
    ensures DetermineCompliance(row, now, parse) == Returns(InCompliance)
  {
  }

  /** A row whose only cell is the status "UNSAFE" is non-compliant. */
  lemma UnsafeExample(now: int, parse: DateParser)
    ensures DetermineCompliance(map[StatusKey := Str("UNSAFE")], now, parse) == Returns(NonCompliant)
  {
  }

  /** A last filing status of "Accepted - SWARMP filed" gives "In Compliance". */
  lemma SwarmpFilingExample(now: int, parse: DateParser)
    ensures DetermineCompliance(map[LastFilingKey := Str("Accepted - SWARMP filed")], now, parse)
            == Returns(InCompliance)
  {
    var s := "Accepted - SWARMP filed";
    assert OccursAt(s, "SWARMP", 11);
  }

  /** A due date before now, with no other deciding cell, gives
      "Non-Compliant"; one after now gives "In Compliance". */
  lemma DueDateExamples(now: int, parse: DateParser, past: int, future: int)
    requires parse("2000-01-01") == Some(past) && parse("2999-01-01") == Some(future)
    requires -MaxTime <= past < now <= future <= MaxTime
    ensures DetermineCompliance(map[DueKey := Str("2000-01-01")], now, parse) == Returns(NonCompliant)
    ensures DetermineCompliance(map[DueKey := Str("2999-01-01")], now, parse) == Returns(InCompliance)
  {
  }

  // ----------------------------------------------------------------- mapExcel

  /** `mapExcel(row)`: exactly the six output keys; the status is the rule's
      label, never the raw cell; the contacts fall back to fixed defaults when
      the cell is falsy. Throws when the rule throws. */
  function MapExcel(row: Row, now: int, parse: DateParser): (r: Outcome<Row>)
    ensures r.Throws? <==> DetermineCompliance(row, now, parse).Throws?
    ensures r.Returns? ==> r.value.Keys == OutputKeys
    ensures r.Returns? ==>
              r.value[StatusKey] == Str(DetermineCompliance(row, now, parse).value)
              && (r.value[StatusKey] == Str(InCompliance) || r.value[StatusKey] == Str(NonCompliant))
    ensures r.Returns? ==>
              r.value[AddressKey] == Get(row, AddressKey)
              && r.value[OwnerOutKey] == Get(row, OwnerKey)
              && r.value[BoroughKey] == Get(row, BoroughKey)
    ensures r.Returns? ==> Truthy(r.value[EmailKey]) && Truthy(r.value[PhoneKey])
    ensures r.Returns? ==>
              (Truthy(Get(row, EmailKey)) ==> r.value[EmailKey] == Get(row, EmailKey))
              && (!Truthy(Get(row, EmailKey)) ==> r.value[EmailKey] == Str(DefaultEmail))
              && (Truthy(Get(row, PhoneKey)) ==> r.value[PhoneKey] == Get(row, PhoneKey))
              && (!Truthy(Get(row, PhoneKey)) ==> r.value[PhoneKey] == Str(DefaultPhone))
  {
    match DetermineCompliance(row, now, parse)
    case Throws => Throws
    case Returns(verdict) =>
      Returns(map[
        AddressKey := Get(row, AddressKey),
        OwnerOutKey := Get(row, OwnerKey),
        BoroughKey := Get(row, BoroughKey),
        StatusKey := Str(verdict),
        EmailKey := Or(Get(row, EmailKey), Str(DefaultEmail)),
        PhoneKey := Or(Get(row, PhoneKey), Str(DefaultPhone))])
  }

  /** The mapped record does not depend on any column outside the eight the
      mapper and the rule read. */
  lemma MapExcelIgnoresOtherColumns(row: Row, key: string, v: Value, now: int, parse: DateParser)
    requires key !in {AddressKey, OwnerKey, BoroughKey, StatusKey, LastFilingKey, DueKey, EmailKey, PhoneKey}
    ensures MapExcel(row[key := v], now, parse) == MapExcel(row, now, parse)
  {
    var row' := row[key := v];
    assert forall k :: k != key ==> Get(row', k) == Get(row, k);
    assert DetermineCompliance(row', now, parse) == DetermineCompliance(row, now, parse);
  }
}
