/** The address lookup of both POST handlers: an `Array.find` over the rows
    with the predicate `r.Address?.toLowerCase() === <trimmed, lower-cased
    query>`. */
module Lookup {
  import opened JsValues
  import Compliance

  /** What `Array.find` gives: the first row the test accepts, no row, or the
      TypeError one of the tests threw. */
  datatype Found = Hit(row: Row) | Miss | Threw

  /** A per-row test of `Array.find`, which may throw. */
  type RowTest = Row -> Outcome<bool>

  /** `rows.find(test)`: rows are tested in order, and the first that the test
      accepts, or the first test that throws, ends the scan. */
  function FindFirst(rows: seq<Row>, test: RowTest): (r: Found)
    ensures r.Hit? ==> r.row in rows && test(r.row) == Returns(true)
  {
    if rows == [] then Miss
    else match test(rows[0])
      case Throws => Threw
      case Returns(true) => Hit(rows[0])
      case Returns(false) => FindFirst(rows[1..], test)
  }

  /** Every row before index `i` was tested and rejected. */
  ghost predicate RejectedBefore(rows: seq<Row>, test: RowTest, i: int) {
    forall j :: 0 <= j < i && j < |rows| ==> test(rows[j]) == Returns(false)
  }

  /** Completeness: once every row before `i` is rejected, row `i` decides the
      outcome; when there is no row `i`, nothing is found. */
  lemma {:induction false} FindFirstAt(rows: seq<Row>, test: RowTest, i: nat)
    requires i <= |rows| && RejectedBefore(rows, test, i)
    ensures i == |rows| ==> FindFirst(rows, test) == Miss
    ensures i < |rows| && test(rows[i]) == Returns(true) ==> FindFirst(rows, test) == Hit(rows[i])
    ensures i < |rows| && test(rows[i]).Throws? ==> FindFirst(rows, test) == Threw
    decreases i
  {
    if i > 0 {
      assert test(rows[0]) == Returns(false);
      assert RejectedBefore(rows[1..], test, i - 1) by {
        forall j | 0 <= j < i - 1 ensures test(rows[1..][j]) == Returns(false) {
          assert rows[1..][j] == rows[j + 1];
        }
      }
      FindFirstAt(rows[1..], test, i - 1);
      if i < |rows| { assert rows[1..][i - 1] == rows[i]; }
    }
  }

  /** Soundness: a hit is the first accepted row, every row was rejected on a
      miss, and a throw comes from the first test that did not reject. */
  lemma {:induction false} FindFirstSound(rows: seq<Row>, test: RowTest)
    ensures FindFirst(rows, test).Hit? ==>
              exists i :: 0 <= i < |rows| && rows[i] == FindFirst(rows, test).row
                          && test(rows[i]) == Returns(true) && RejectedBefore(rows, test, i)
    ensures FindFirst(rows, test).Miss? ==> RejectedBefore(rows, test, |rows|)
    ensures FindFirst(rows, test).Threw? ==>
              exists i :: 0 <= i < |rows| && test(rows[i]).Throws? && RejectedBefore(rows, test, i)
  {
    if rows != [] && test(rows[0]) == Returns(false) {
      var rest := rows[1..];
      FindFirstSound(rest, test);
      assert forall j :: 0 <= j < |rest| ==> rest[j] == rows[j + 1];
      if FindFirst(rest, test).Hit? {
        var i :| 0 <= i < |rest| && rest[i] == FindFirst(rest, test).row
                 && test(rest[i]) == Returns(true) && RejectedBefore(rest, test, i);
        assert rows[i + 1] == rest[i];
        assert RejectedBefore(rows, test, i + 1);
      } else if FindFirst(rest, test).Threw? {
        var i :| 0 <= i < |rest| && test(rest[i]).Throws? && RejectedBefore(rest, test, i);
        assert rows[i + 1] == rest[i];
        assert RejectedBefore(rows, test, i + 1);
      }
    } else if rows != [] {
      assert test(rows[0]) == Returns(true) ==> RejectedBefore(rows, test, 0);
    }
  }

  /** Two tests that agree on every row find the same thing. */
  lemma {:induction false} FindFirstAgree(rows: seq<Row>, test1: RowTest, test2: RowTest)
    requires forall j :: 0 <= j < |rows| ==> test1(rows[j]) == test2(rows[j])
    ensures FindFirst(rows, test1) == FindFirst(rows, test2)
  {
    if rows != [] {
      assert test1(rows[0]) == test2(rows[0]);
      assert forall j :: 0 <= j < |rows[1..]| ==> rows[1..][j] == rows[j + 1];
      FindFirstAgree(rows[1..], test1, test2);
    }
  }

  /** The `Array.find` loop. */
  method Find(rows: seq<Row>, test: RowTest) returns (found: Found)
    ensures found == FindFirst(rows, test)
  {
    var i := 0;
    while i < |rows|
      invariant 0 <= i <= |rows|
      invariant FindFirst(rows[i..], test) == FindFirst(rows, test)
    {
      assert rows[i..][1..] == rows[i + 1..];
      var outcome := test(rows[i]);
      if outcome.Throws? {
        return Threw;
      } else if outcome.value {
        return Hit(rows[i]);
      }
      i := i + 1;
    }
    return Miss;
  }

  // ----------------------------------------------------------- the predicate

  /** `r.Address?.toLowerCase()`: nothing for a row without an address, the
      lower-cased address for a string, a TypeError for any other cell. */
  function AddressKeyOf(row: Row): (r: Outcome<Option<string>>)
    ensures r == Returns(None) <==> Get(row, Compliance.AddressKey).Absent? || Get(row, Compliance.AddressKey).Null?
    ensures r.Returns? && r.value.Some? <==> Get(row, Compliance.AddressKey).Str?
    ensures r.Returns? && r.value.Some? ==> r.value.value == Lower(Get(row, Compliance.AddressKey).s)
  {
    match Get(row, Compliance.AddressKey)
    case Absent => Returns(None)
    case Null => Returns(None)
    case Str(a) => Returns(Some(Lower(a)))
    case _ => Throws
  }

  /** The search handler's test, with the query already trimmed and
      lower-cased into `q`. */
  function SearchTest(q: string, row: Row): (r: Outcome<bool>)
    ensures r == Returns(true) <==> AddressKeyOf(row) == Returns(Some(q))
    ensures r.Throws? <==> AddressKeyOf(row).Throws?
  {
    match AddressKeyOf(row)
    case Throws => Throws
    case Returns(key) => Returns(key == Some(q))
  }

  /** The search's `find` callback. */
  function SearchTestFor(q: string): RowTest {
    row => SearchTest(q, row)
  }

  /** The report handler's test, which trims and lower-cases the raw query
      itself, after reading the row's address: a query that is not a string
      throws there, unless the row's address threw first. */
  function ReportTest(query: Value, row: Row): (r: Outcome<bool>)
    ensures query.Str? ==> r == SearchTest(Lower(Trim(query.s)), row)
    ensures !query.Str? ==> r.Throws?
  {
    match AddressKeyOf(row)
    case Throws => Throws
    case Returns(key) =>
      if query.Str? then Returns(key == Some(Lower(Trim(query.s)))) else Throws
  }

  /** The report's `find` callback. */
  function ReportTestFor(query: Value): RowTest {
    row => ReportTest(query, row)
  }
}
