/** The sales page: the sales rows the sales team edits in place, one
    column per change, each change sent to the sales handler at once. */
module ClientSales {
  import opened Common
  import opened Models
  import opened Http
  import opened SalesHandlers

  /** A row as the page holds it; every edited value is a string. */
  datatype SalesRow = SalesRow(id: nat, lastCall: string, result: string, paid: string, group: string, note: string)

  /** A row as the listing delivers it, whose note may be null. */
  datatype ListedRow = ListedRow(id: nat, lastCall: string, result: string, paid: string, group: string, note: Option<string>)

  /** The columns the page edits, with the member names it sends. */
  datatype Column = LastCall | Result | Paid | Note

  function MemberName(c: Column): string
  {
    match c
    case LastCall => "lastCall"
    case Result => "result"
    case Paid => "paid"
    case Note => "note"
  }

  /** `{...row, [field]: value}` */
  function WithColumn(row: SalesRow, c: Column, v: string): SalesRow
  {
    match c
    case LastCall => row.(lastCall := v)
    case Result => row.(result := v)
    case Paid => row.(paid := v)
    case Note => row.(note := v)
  }

  function RowIs(id: nat): SalesRow -> bool { (r: SalesRow) => r.id == id }

  function Patch(c: Column, v: string): SalesRow -> SalesRow { (r: SalesRow) => WithColumn(r, c, v) }

  /** The list after an edit: the rows with that id patched, the others as they were. */
  function PatchRows(rows: seq<SalesRow>, id: nat, c: Column, v: string): seq<SalesRow>
  {
    UpdateWhere(rows, RowIs(id), Patch(c, v))
  }

  /** The body of the PUT: the row id and the edited member. */
  function PutBody(id: nat, c: Column, v: string): (body: JsonObject)
    ensures "id" in body && body["id"] == JNum(id)
    ensures MemberName(c) in body && body[MemberName(c)] == JStr(v)
    ensures |body.Keys| == 2
  {
    map["id" := JNum(id), MemberName(c) := JStr(v)]
  }

  /** A null note is shown as an empty one. */
  function Normalised(r: ListedRow): SalesRow
  {
    SalesRow(r.id, r.lastCall, r.result, r.paid, r.group, if r.note.Some? then r.note.value else "")
  }

  class SalesPage {
    var sales: seq<SalesRow>

    constructor ()
      ensures sales == []
    {
      sales := [];
    }

    /** getSalesRows on an ok reply: the rows, each with its note normalised. */
    method Loaded(data: seq<ListedRow>)
      modifies this
      ensures |sales| == |data| && forall k :: 0 <= k < |data| ==> sales[k] == Normalised(data[k])
    {
      sales := seq(|data|, k requires 0 <= k < |data| => Normalised(data[k]));
    }

    /** updateSalesRow: the list is patched first, then the request is
        sent; its path names the row, and its body the row and the member. */
    method UpdateSalesRow(rowId: nat, c: Column, v: string) returns (path: string, body: JsonObject)
      modifies this
      ensures sales == PatchRows(old(sales), rowId, c, v)
      ensures path == "/sales/" + NatToString(rowId) && body == PutBody(rowId, c, v)
    {
      sales := PatchRows(sales, rowId, c, v);
      path := "/sales/" + NatToString(rowId);
      body := PutBody(rowId, c, v);
    }
  }

  /** An edit changes only the edited column of the rows with that id. */
  lemma PatchRowsChangesOneColumn(rows: seq<SalesRow>, id: nat, c: Column, v: string)
    ensures var r := PatchRows(rows, id, c, v);
            |r| == |rows| &&
            forall k :: 0 <= k < |rows| ==>
              (rows[k].id != id ==> r[k] == rows[k]) &&
              (rows[k].id == id ==> r[k] == WithColumn(rows[k], c, v) && r[k].id == id && r[k].group == rows[k].group)
  {
  }

  /** Setting a column to the value it already holds changes no row. */
  lemma SameValueSameRows(rows: seq<SalesRow>, id: nat, c: Column, v: string)
    requires forall k :: 0 <= k < |rows| && rows[k].id == id ==> WithColumn(rows[k], c, v) == rows[k]
    ensures PatchRows(rows, id, c, v) == rows
  {
  }

  // ---------------------------------------------------------------------
  // Properties across the page and the sales handler
  // ---------------------------------------------------------------------

  /** The page's row and the stored row agree on the id and the three
      text columns. */
  predicate Mirrors(c: SalesRow, s: Sales)
  {
    c.id == s.id && c.lastCall == s.lastCall && c.result == s.result && c.note == s.note
  }

  predicate AllMirror(rows: seq<SalesRow>, sales: seq<Sales>)
  {
    |rows| == |sales| && forall k :: 0 <= k < |rows| ==> Mirrors(rows[k], sales[k])
  }

  /** The sales handler binds the paid flag from the member "payed" and as
      a boolean; the page sends "paid" as a string, which the handler does
      not read: the edit is answered 200 and stores nothing. */
  lemma PaidEditNeverStored(db: Db, rowId: nat, v: string)
    requires 0 < rowId < TwoTo64
    ensures UpdateSalesOutcome(db, Some(PutBody(rowId, Paid, v))) == (200, db)
  {
    var body := PutBody(rowId, Paid, v);
    assert "lastCall" !in body && "result" !in body && "payed" !in body && "note" !in body;
  }

  /** An edit of the last call, the result or the note is answered 200 and
      stored in the row with that id, so a page that mirrored the store
      still mirrors it after the edit. */
  lemma TextEditsStayInStep(rows: seq<SalesRow>, db: Db, rowId: nat, c: Column, v: string)
    requires 0 < rowId < TwoTo64 && c != Paid
    requires AllMirror(rows, db.sales)
    ensures var r := UpdateSalesOutcome(db, Some(PutBody(rowId, c, v)));
            r.0 == 200 && r.1.(sales := db.sales) == db && AllMirror(PatchRows(rows, rowId, c, v), r.1.sales)
  {
    var body := PutBody(rowId, c, v);
    var req := DecodeUpdate(body).value;
    assert req.id == rowId;
    var e := ChosenEdit(req);
    match c
    case LastCall =>
      assert "result" !in body && "payed" !in body && "note" !in body;
      assert e == EditLastCall(v);
    case Result =>
      assert "lastCall" !in body && "payed" !in body && "note" !in body;
      assert e == EditResult(v);
    case Note =>
      assert "lastCall" !in body && "result" !in body && "payed" !in body;
      assert e == EditNote(v);
  }
}
