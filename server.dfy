/** The dataset held by the server (`buildingData`), its reload, and the two
    POST handlers that read it: search and report generation. */
module Server {
  import opened JsValues
  import opened Compliance
  import opened Normalise
  import opened Lookup

  /** What the spreadsheet reader gives: the rows of the first sheet, or a
      failure (missing file, unreadable workbook). */
  datatype ReadResult = ReadOk(sheet: seq<Row>) | ReadFailed

  /** A handler's answer. `Record` is the matched row for a search, and the
      processed fields handed to the template renderer for a report.
      `TypeErrorThrown` is an exception that escapes the handler. */
  datatype Reply =
    | AddressRequired
    | NotFound
    | TypeErrorThrown
    | Record(fields: Row)

  function FoundReply(found: Found): (r: Reply)
    ensures r.Record? <==> found.Hit?
    ensures found.Hit? ==> r.fields == found.row
    ensures r == NotFound <==> found.Miss?
    ensures r == TypeErrorThrown <==> found.Threw?
  {
    match found
    case Hit(row) => Record(row)
    case Miss => NotFound
    case Threw => TypeErrorThrown
  }

  /** The query as both handlers compare it: trimmed, then lower-cased. */
  function QueryKey(address: string): string {
    Lower(Trim(address))
  }

  /** Row `row` has a string address equal, once lower-cased, to `q`. */
  predicate AddressMatches(row: Row, q: string) {
    AddressKeyOf(row) == Returns(Some(q))
  }

  /** Row `row` has no address, or a string address that differs from `q`. */
  predicate AddressDiffers(row: Row, q: string) {
    AddressKeyOf(row).Returns? && AddressKeyOf(row) != Returns(Some(q))
  }

  // ------------------------------------------------------------------ search

  /** The `/api/search-address` handler: a falsy address is refused, a
      non-string one throws at `trim`, otherwise the first matching row. */
  function SearchReply(rows: seq<Row>, query: Value): (r: Reply)
    ensures r.Record? ==> r.fields in rows && query.Str? && AddressMatches(r.fields, QueryKey(query.s))
  {
    if !Truthy(query) then AddressRequired
    else if !query.Str? then TypeErrorThrown
    else
      var q := QueryKey(query.s);
      FoundReply(FindFirst(rows, SearchTestFor(q)))
  }

  /** The search answers with the first row whose address matches the trimmed,
      lower-cased query, and with "not found" exactly when every row has no
      address or a different one. */
  lemma SearchFindsFirstMatch(rows: seq<Row>, query: Value)
    ensures SearchReply(rows, query) == AddressRequired <==> !Truthy(query)
    ensures Truthy(query) && !query.Str? ==> SearchReply(rows, query) == TypeErrorThrown
    ensures SearchReply(rows, query).Record? ==>
              query.Str? &&
              exists i :: 0 <= i < |rows| && rows[i] == SearchReply(rows, query).fields
                          && AddressMatches(rows[i], QueryKey(query.s))
                          && forall j :: 0 <= j < i ==> AddressDiffers(rows[j], QueryKey(query.s))
    ensures SearchReply(rows, query) == NotFound <==>
              Truthy(query) && query.Str?
              && forall j :: 0 <= j < |rows| ==> AddressDiffers(rows[j], QueryKey(query.s))
    ensures Truthy(query) && query.Str? ==>
              forall i :: 0 <= i < |rows| && AddressMatches(rows[i], QueryKey(query.s))
                          && (forall j :: 0 <= j < i ==> AddressDiffers(rows[j], QueryKey(query.s)))
                          ==> SearchReply(rows, query) == Record(rows[i])
    ensures Truthy(query) && query.Str? ==>
              (SearchReply(rows, query) == TypeErrorThrown <==>
               exists i :: 0 <= i < |rows| && AddressKeyOf(rows[i]).Throws?
                           && forall j :: 0 <= j < i ==> AddressDiffers(rows[j], QueryKey(query.s)))
  {
    if Truthy(query) && query.Str? {
      var q := QueryKey(query.s);
      var test := SearchTestFor(q);
      FindFirstSound(rows, test);
      assert forall j :: 0 <= j < |rows| ==> (test(rows[j]) == Returns(false) <==> AddressDiffers(rows[j], q));
      if forall j :: 0 <= j < |rows| ==> AddressDiffers(rows[j], q) {
        FindFirstAt(rows, test, |rows|);
      }
      forall i | 0 <= i < |rows| && (AddressMatches(rows[i], q) || AddressKeyOf(rows[i]).Throws?)
                 && (forall j :: 0 <= j < i ==> AddressDiffers(rows[j], q))
        ensures AddressMatches(rows[i], q) ==> SearchReply(rows, query) == Record(rows[i])
        ensures AddressKeyOf(rows[i]).Throws? ==> SearchReply(rows, query) == TypeErrorThrown
      {
        FindFirstAt(rows, test, i);
      }
    }
  }

  // ------------------------------------------------------------------ report

  /** The lookup step of `/api/generate-report`: the query is trimmed inside
      the test, so an empty dataset never reaches `trim`. */
  function ReportLookup(rows: seq<Row>, query: Value): (r: Reply)
    ensures r == AddressRequired <==> !Truthy(query)
    ensures r.Record? ==> r.fields in rows && query.Str? && AddressMatches(r.fields, QueryKey(query.s))
  {
    if !Truthy(query) then AddressRequired
    else FoundReply(FindFirst(rows, ReportTestFor(query)))
  }

  /** The search and the report resolve the same row for the same address.
      They differ in one case only: a truthy address that is not a string,
      against an empty dataset, which the search rejects with a TypeError and
      the report answers with "not found". */
  lemma SearchAndReportAgree(rows: seq<Row>, query: Value)
    ensures SearchReply(rows, query) == ReportLookup(rows, query)
            <==> !(rows == [] && Truthy(query) && !query.Str?)
  {
    if Truthy(query) {
      var report := ReportTestFor(query);
      if query.Str? {
        var search := SearchTestFor(QueryKey(query.s));
        FindFirstAgree(rows, search, report);
      } else if rows != [] {
        assert report(rows[0]).Throws?;
      }
    }
  }

  /** The second half of `/api/generate-report`, once a row is found: map it,
      then normalise the mapped record. */
  function MappedReply(row: Row, now: int, parse: DateParser): (r: Reply)
    ensures r.Record? <==> MapExcel(row, now, parse).Returns?
    ensures r.Record? ==> r.fields.Keys == OutputKeys
  {
    match MapExcel(row, now, parse)
    case Throws => TypeErrorThrown
    case Returns(mapped) => Record(NormalizedRecord(mapped))
  }

  /** The `/api/generate-report` handler up to the renderer: look the row up,
      map it, normalise the mapped record. */
  function ReportReply(rows: seq<Row>, query: Value, now: int, parse: DateParser): (r: Reply)
    ensures r == AddressRequired <==> !Truthy(query)
    ensures r.Record? ==> ReportLookup(rows, query).Record? && r.fields.Keys == OutputKeys
  {
    match ReportLookup(rows, query)
    case Record(row) => MappedReply(row, now, parse)
    case other => other
  }

  /** A report's fields are exactly the six output keys, none empty-like, with
      the compliance label of the row the lookup found. */
  lemma ReportFields(rows: seq<Row>, query: Value, now: int, parse: DateParser)
    requires ReportReply(rows, query, now, parse).Record?
    ensures ReportLookup(rows, query).Record?
    ensures var f := ReportReply(rows, query, now, parse).fields;
            var verdict := DetermineCompliance(ReportLookup(rows, query).fields, now, parse);
            && f.Keys == OutputKeys
            && (forall k :: k in f ==> !IsEmptyLike(f[k]))
            && verdict.Returns?
            && f[StatusKey] == Str(verdict.value)
  {
    var row := ReportLookup(rows, query).fields;
    var mapped := MapExcel(row, now, parse).value;
    LabelKept(mapped[StatusKey].s);
  }

  /** What the report's fields hold: each is the normalised value of the cell
      the mapper reads, the contacts after their fallback to the defaults. */
  lemma MappedFields(row: Row, now: int, parse: DateParser)
    ensures MappedReply(row, now, parse).Record? <==> !DetermineCompliance(row, now, parse).Throws?
    ensures var r := MappedReply(row, now, parse);
            r.Record? ==>
              && r.fields[AddressKey] == NormalizeValue(Get(row, AddressKey))
              && r.fields[OwnerOutKey] == NormalizeValue(Get(row, OwnerKey))
              && r.fields[BoroughKey] == NormalizeValue(Get(row, BoroughKey))
              && r.fields[StatusKey] == NormalizeValue(Str(DetermineCompliance(row, now, parse).value))
              && r.fields[EmailKey] == NormalizeValue(Or(Get(row, EmailKey), Str(DefaultEmail)))
              && r.fields[PhoneKey] == NormalizeValue(Or(Get(row, PhoneKey), Str(DefaultPhone)))
  {
    match MapExcel(row, now, parse) {
      case Throws =>
      case Returns(m) =>
        assert MappedReply(row, now, parse).fields == NormalizedRecord(m);
    }
  }

  /** Every outcome of the report handler: not-found exactly when the lookup
      misses, a TypeError exactly when the lookup or the rule throws, and
      otherwise a record built from the row the lookup found. */
  lemma ReportOutcomes(rows: seq<Row>, query: Value, now: int, parse: DateParser)
    ensures ReportReply(rows, query, now, parse) == NotFound <==> ReportLookup(rows, query) == NotFound
    ensures ReportLookup(rows, query).Record? ==>
              (ReportReply(rows, query, now, parse).Record?
               <==> !DetermineCompliance(ReportLookup(rows, query).fields, now, parse).Throws?)
    ensures ReportReply(rows, query, now, parse) == TypeErrorThrown <==>
              ReportLookup(rows, query) == TypeErrorThrown
              || (ReportLookup(rows, query).Record?
                  && DetermineCompliance(ReportLookup(rows, query).fields, now, parse).Throws?)
    ensures ReportReply(rows, query, now, parse).Record? ==>
              ReportLookup(rows, query).Record?
              && ReportReply(rows, query, now, parse) == MappedReply(ReportLookup(rows, query).fields, now, parse)
  {
    match ReportLookup(rows, query) {
      case Record(row) => MappedFields(row, now, parse);
      case _ =>
    }
  }

  /** Both labels pass the normaliser unchanged. */
  lemma LabelKept(verdict: string)
    requires verdict == InCompliance || verdict == NonCompliant
    ensures !IsEmptyLike(Str(verdict))
  {
    UnpaddedTextKept(verdict);
  }

  // ------------------------------------------------------------------- state

  /** The process-wide dataset `buildingData`. */
  class Store {
    var rows: seq<Row>

    /** The server starts with an empty dataset. */
    constructor ()
      ensures rows == []
    {
      rows := [];
    }

    /** `loadExcelData`: a successful read replaces the whole dataset; a failed
        one leaves it as it was. */
    method Load(read: ReadResult) returns (ok: bool)
      modifies this
      ensures ok <==> read.ReadOk?
      ensures ok ==> rows == read.sheet
      ensures !ok ==> rows == old(rows)
    {
      match read
      case ReadOk(sheet) =>
        rows := sheet;
        ok := true;
      case ReadFailed =>
        ok := false;
    }

    /** The `/api/search-address` handler over the current dataset. */
    method Search(query: Value) returns (reply: Reply)
      ensures reply == SearchReply(rows, query)
    {
      if !Truthy(query) {
        return AddressRequired;
      }
      if !query.Str? {
        return TypeErrorThrown;
      }
      var q := QueryKey(query.s);
      var found := Find(rows, SearchTestFor(q));
      reply := FoundReply(found);
    }

    /** The `/api/generate-report` handler over the current dataset, up to the
        fields it hands to the renderer. */
    method GenerateReport(query: Value, now: int, parse: DateParser) returns (reply: Reply)
      ensures reply == ReportReply(rows, query, now, parse)
    {
      if !Truthy(query) {
        return AddressRequired;
      }
      var found := Find(rows, ReportTestFor(query));
      assert ReportLookup(rows, query) == FoundReply(found);
      match found {
        case Threw =>
          reply := TypeErrorThrown;
        case Miss =>
          reply := NotFound;
        case Hit(row) =>
          reply := Render(row, now, parse);
      }
    }
  }

  /** Map the found row, then run the normalising loop over the mapped record. */
  method Render(row: Row, now: int, parse: DateParser) returns (reply: Reply)
    ensures reply == MappedReply(row, now, parse)
  {
    var mapped := MapExcel(row, now, parse);
    if mapped.Throws? {
      reply := TypeErrorThrown;
    } else {
      var processed := NormalizeRecord(mapped.value);
      reply := Record(processed);
    }
  }
}
