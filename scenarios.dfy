/** The end-to-end scenario of the report handler: a row whose status is
    "No Report Filed" and whose other cells are blank, looked up with an
    address in another case and with a trailing blank. */
module Scenarios {
  import opened JsValues
  import opened Compliance
  import opened Normalise
  import opened Lookup
  import opened Server

  /** A row with an address, the status "No Report Filed" and empty contact
      cells. */
  function UnfiledRow(address: string): Row {
    map[AddressKey := Str(address), StatusKey := Str("No Report Filed"),
        EmailKey := Str(""), PhoneKey := Str("")]
  }

  lemma UnfiledRowCells(address: string)
    ensures var row := UnfiledRow(address);
            && Get(row, AddressKey) == Str(address)
            && Get(row, StatusKey) == Str("No Report Filed")
            && Get(row, LastFilingKey) == Absent && Get(row, DueKey) == Absent
            && Get(row, EmailKey) == Str("") && Get(row, PhoneKey) == Str("")
            && Get(row, OwnerKey) == Absent && Get(row, BoroughKey) == Absent
  {
    assert BoroughKey != AddressKey by { assert BoroughKey[0] != AddressKey[0]; }
  }

  /** A dataset holding one unfiled row, asked for its address in any case
      and with any surrounding blanks, yields a non-compliant report with the
      default contacts, the row's address, and "N/A" for the owner and the
      borough. */
  lemma UnfiledRowReport(address: string, query: string, now: int, parse: DateParser)
    requires query != "" && QueryKey(query) == Lower(address)
    requires !IsEmptyLike(Str(address))
    ensures var reply := ReportReply([UnfiledRow(address)], Str(query), now, parse);
            && reply.Record?
            && reply.fields.Keys == OutputKeys
            && reply.fields[StatusKey] == Str(NonCompliant)
            && reply.fields[EmailKey] == Str(DefaultEmail)
            && reply.fields[PhoneKey] == Str(DefaultPhone)
            && reply.fields[AddressKey] == Str(address)
            && reply.fields[OwnerOutKey] == Str(NotApplicable)
            && reply.fields[BoroughKey] == Str(NotApplicable)
  {
    var row := UnfiledRow(address);
    UnfiledRowFound(address, query);
    UnfiledRowMapped(address, now, parse);
    var m := MapExcel(row, now, parse).value;
    assert ReportReply([row], Str(query), now, parse) == Record(NormalizedRecord(m));
    DefaultsKept();
    MappedUnfiledNormalized(m, address, NonCompliant, DefaultEmail, DefaultPhone);
  }

  /** The label "Non-Compliant" and the default contacts pass the normaliser. */
  lemma DefaultsKept()
    ensures !IsEmptyLike(Str(NonCompliant))
    ensures !IsEmptyLike(Str(DefaultEmail)) && !IsEmptyLike(Str(DefaultPhone))
  {
    UnpaddedTextKept(NonCompliant);
    UnpaddedTextKept(DefaultEmail);
    UnpaddedTextKept(DefaultPhone);
  }

  /** Normalising a mapped record whose owner and borough are absent and whose
      other fields are kept texts. */
  lemma MappedUnfiledNormalized(m: Row, address: string, verdict: string, email: string, phone: string)
    requires !IsEmptyLike(Str(address)) && !IsEmptyLike(Str(verdict))
    requires !IsEmptyLike(Str(email)) && !IsEmptyLike(Str(phone))
    requires m.Keys == OutputKeys
    requires m[AddressKey] == Str(address) && m[StatusKey] == Str(verdict)
    requires m[EmailKey] == Str(email) && m[PhoneKey] == Str(phone)
    requires m[OwnerOutKey] == Absent && m[BoroughKey] == Absent
    ensures var r := NormalizedRecord(m);
            && r.Keys == OutputKeys
            && r[AddressKey] == Str(address) && r[StatusKey] == Str(verdict)
            && r[EmailKey] == Str(email) && r[PhoneKey] == Str(phone)
            && r[OwnerOutKey] == Str(NotApplicable) && r[BoroughKey] == Str(NotApplicable)
  {
  }

  lemma UnfiledRowFound(address: string, query: string)
    requires query != "" && QueryKey(query) == Lower(address)
    ensures ReportLookup([UnfiledRow(address)], Str(query)) == Record(UnfiledRow(address))
  {
    var row := UnfiledRow(address);
    UnfiledRowCells(address);
    SingleRowFound(row, query);
  }

  /** A one-row dataset answers a string query whose key is the row's
      lower-cased address with that row. */
  lemma SingleRowFound(row: Row, query: string)
    requires query != "" && AddressKeyOf(row) == Returns(Some(QueryKey(query)))
    ensures ReportLookup([row], Str(query)) == Record(row)
  {
    assert ReportTestFor(Str(query))([row][0]) == Returns(true);
  }

  lemma UnfiledRowMapped(address: string, now: int, parse: DateParser)
    ensures var mapped := MapExcel(UnfiledRow(address), now, parse);
            && mapped.Returns?
            && mapped.value[AddressKey] == Str(address)
            && mapped.value[OwnerOutKey] == Absent && mapped.value[BoroughKey] == Absent
            && mapped.value[StatusKey] == Str(NonCompliant)
            && mapped.value[EmailKey] == Str(DefaultEmail)
            && mapped.value[PhoneKey] == Str(DefaultPhone)
  {
    UnfiledRowCells(address);
  }

  lemma SampleTrim()
    ensures Trim("123 main st ") == "123 main st"
  {
    var query, core := "123 main st ", "123 main st";
    assert query == core + [' '];
    assert !IsWhitespace(core[0]) && !IsWhitespace(core[|core| - 1]);
    assert TrimStart(query) == query by { assert !IsWhitespace(query[0]); }
    assert query[..|query| - 1] == core;
    assert TrimEnd(query) == TrimEnd(core);
  }

  lemma SampleLower()
    ensures Lower("123 main st") == Lower("123 Main St")
  {
    var core, address := "123 main st", "123 Main St";
    assert forall i :: 0 <= i < |core| ==> LowerChar(core[i]) == LowerChar(address[i]);
  }

  /** "123 Main St" with the status "No Report Filed", looked up as
      "123 main st " (other case, a trailing blank). */
  lemma EndToEndExample(now: int, parse: DateParser)
    ensures var reply := ReportReply([UnfiledRow("123 Main St")], Str("123 main st "), now, parse);
            && reply.Record?
            && StatusKey in reply.fields && reply.fields[StatusKey] == Str(NonCompliant)
            && EmailKey in reply.fields && reply.fields[EmailKey] == Str(DefaultEmail)
            && PhoneKey in reply.fields && reply.fields[PhoneKey] == Str(DefaultPhone)
  {
    SampleTrim();
    SampleLower();
    UnpaddedTextKept("123 Main St");
    UnfiledRowReport("123 Main St", "123 main st ", now, parse);
  }
}
