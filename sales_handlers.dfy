/** The sales handler that edits a sales row: one column per request, chosen
    by a fixed priority among the members the body carries. */
module SalesHandlers {
  import opened Common
  import opened Models
  import opened Http

  /** The bound body: a required non-zero id, and four optional members
      (a pointer that stays nil when the member is absent or null). */
  datatype UpdateRequest = UpdateRequest(
    id: nat, lastCall: Option<string>, result: Option<string>, payed: Option<bool>, note: Option<string>)

  /** An optional string member: Some(None) when absent or null,
      Some(Some(s)) for a string, None (a binding error) for any other value. */
  function OptionalString(body: JsonObject, key: string): (r: Option<Option<string>>)
    ensures r == Some(None) <==> key !in body || body[key] == JNull
    ensures r.Some? && r.value.Some? <==> key in body && body[key].JStr?
  {
    if key !in body || body[key] == JNull then Some(None)
    else if body[key].JStr? then Some(Some(body[key].s))
    else None
  }

  /** An optional boolean member, read the same way. */
  function OptionalBool(body: JsonObject, key: string): (r: Option<Option<bool>>)
    ensures r == Some(None) <==> key !in body || body[key] == JNull
    ensures r.Some? && r.value.Some? <==> key in body && body[key].JBool?
  {
    if key !in body || body[key] == JNull then Some(None)
    else if body[key].JBool? then Some(Some(body[key].b))
    else None
  }

  /** BindJSON into the request: the id must be an integer in 1..2^64-1
      (a uint, and `required` refuses its zero value); each optional member
      must have its declared type. Members of other names are ignored. */
  function DecodeUpdate(body: JsonObject): (r: Option<UpdateRequest>)
    ensures r.Some? ==> "id" in body && body["id"] == JNum(r.value.id) && 0 < r.value.id < TwoTo64
    ensures r.Some? ==> Some(r.value.lastCall) == OptionalString(body, "lastCall") &&
                        Some(r.value.result) == OptionalString(body, "result") &&
                        Some(r.value.payed) == OptionalBool(body, "payed") &&
                        Some(r.value.note) == OptionalString(body, "note")
    ensures r.None? <==>
              "id" !in body || !body["id"].JNum? || !(0 < body["id"].n < TwoTo64) ||
              OptionalString(body, "lastCall").None? || OptionalString(body, "result").None? ||
              OptionalBool(body, "payed").None? || OptionalString(body, "note").None?
  {
    if "id" !in body || !body["id"].JNum? || !(0 < body["id"].n < TwoTo64) then None
    else
      match (OptionalString(body, "lastCall"), OptionalString(body, "result"),
             OptionalBool(body, "payed"), OptionalString(body, "note"))
      case (Some(a), Some(b), Some(c), Some(d)) => Some(UpdateRequest(body["id"].n, a, b, c, d))
      case _ => None
  }

  /** The one column a request sets, if any. */
  datatype SalesEdit = EditLastCall(s: string) | EditResult(s: string) | EditPaid(b: bool) | EditNote(s: string) | NoEdit

  /** The first present member in the order lastCall, result, payed, note. */
  function ChosenEdit(req: UpdateRequest): SalesEdit
  {
    if req.lastCall.Some? then EditLastCall(req.lastCall.value)
    else if req.result.Some? then EditResult(req.result.value)
    else if req.payed.Some? then EditPaid(req.payed.value)
    else if req.note.Some? then EditNote(req.note.value)
    else NoEdit
  }

  /** `UPDATE sales SET <column> = v` on one row. */
  function ApplyEdit(e: SalesEdit): Sales -> Sales
  {
    (x: Sales) =>
      match e
      case EditLastCall(s) => x.(lastCall := s)
      case EditResult(s) => x.(result := s)
      case EditPaid(b) => x.(paid := b)
      case EditNote(s) => x.(note := s)
      case NoEdit => x
  }

  /** The status UpdateSales answers and the store it leaves; body is None
      when the text is not JSON. The row edited is the one whose id is the
      body's id: the id in the URL is not read. */
  function UpdateSalesOutcome(db: Db, body: Option<JsonObject>): (int, Db)
  {
    if body.None? then (400, db)
    else
      match DecodeUpdate(body.value)
      case None => (400, db)
      case Some(req) =>
        var e := ChosenEdit(req);
        if e.NoEdit? then (200, db)
        else (200, db.(sales := UpdateWhere(db.sales, SalesIs(req.id), ApplyEdit(e))))
  }

  /** UpdateSales, branch by branch. */
  method UpdateSales(store: Store, ctx: Context, urlId: string, body: Option<JsonObject>)
    modifies store, ctx
    ensures ctx.status == Written(old(ctx.status), UpdateSalesOutcome(old(store.db), body).0)
    ensures store.db == UpdateSalesOutcome(old(store.db), body).1
    ensures DbValid(old(store.db)) ==> DbValid(store.db)
  {
    var decoded := if body.Some? then DecodeUpdate(body.value) else None;
    if decoded.None? {
      ctx.JSON(400);
      return;
    }
    var req := decoded.value;
    var edit := NoEdit;
    if req.lastCall.Some? {
      edit := EditLastCall(req.lastCall.value);
    } else if req.result.Some? {
      edit := EditResult(req.result.value);
    } else if req.payed.Some? {
      edit := EditPaid(req.payed.value);
    } else if req.note.Some? {
      edit := EditNote(req.note.value);
    }
    if !edit.NoEdit? {
      if DbValid(store.db) {
        UpdateSalesValid(store.db, SalesIs(req.id), ApplyEdit(edit));
      }
      store.db := store.db.(sales := UpdateWhere(store.db.sales, SalesIs(req.id), ApplyEdit(edit)));
    }
    ctx.Status(200);
  }

  /** The columns in which two versions of a sales row differ, among the
      four the sales team edits. */
  function ColumnsChanged(a: Sales, b: Sales): nat
  {
    (if a.lastCall != b.lastCall then 1 else 0) + (if a.result != b.result then 1 else 0) +
    (if a.paid != b.paid then 1 else 0) + (if a.note != b.note then 1 else 0)
  }

  /** A body that is not JSON, or does not bind, answers 400 and changes nothing. */
  lemma RefusedBodyChangesNothing(db: Db, body: Option<JsonObject>)
    requires body.None? || DecodeUpdate(body.value).None?
    ensures UpdateSalesOutcome(db, body) == (400, db)
  {
  }

  /** Any body that binds answers 200. Only the row with the body's id can
      change, and in at most one of the four columns; its id, lead and
      group, the other tables, the order and the number of rows stay. */
  lemma AtMostOneColumn(db: Db, body: JsonObject)
    requires DecodeUpdate(body).Some?
    ensures var r := UpdateSalesOutcome(db, Some(body));
            r.0 == 200 && r.1.(sales := db.sales) == db && |r.1.sales| == |db.sales| &&
            forall i :: 0 <= i < |db.sales| ==>
              r.1.sales[i].(lastCall := db.sales[i].lastCall, result := db.sales[i].result,
                            paid := db.sales[i].paid, note := db.sales[i].note) == db.sales[i] &&
              ColumnsChanged(db.sales[i], r.1.sales[i]) <= 1 &&
              (db.sales[i].id != DecodeUpdate(body).value.id ==> r.1.sales[i] == db.sales[i])
  {
  }

  /** The column written is the first present in the order lastCall,
      result, payed, note, whatever the later members hold. */
  lemma FirstPresentMemberWins(db: Db, body: JsonObject, i: nat)
    requires DecodeUpdate(body).Some?
    requires i < |db.sales| && db.sales[i].id == DecodeUpdate(body).value.id
    ensures var req := DecodeUpdate(body).value;
            var row := UpdateSalesOutcome(db, Some(body)).1.sales[i];
            (req.lastCall.Some? ==> row == db.sales[i].(lastCall := req.lastCall.value)) &&
            (req.lastCall.None? && req.result.Some? ==> row == db.sales[i].(result := req.result.value)) &&
            (req.lastCall.None? && req.result.None? && req.payed.Some? ==> row == db.sales[i].(paid := req.payed.value)) &&
            (req.lastCall.None? && req.result.None? && req.payed.None? && req.note.Some? ==>
               row == db.sales[i].(note := req.note.value))
  {
  }

  /** A body with none of the four members still answers 200 and changes nothing. */
  lemma NoMemberNoChange(db: Db, body: JsonObject)
    requires DecodeUpdate(body).Some?
    requires forall k :: k in body && k != "id" ==> k !in ["lastCall", "result", "payed", "note"] || body[k] == JNull
    ensures UpdateSalesOutcome(db, Some(body)) == (200, db)
  {
    assert "lastCall" in ["lastCall", "result", "payed", "note"];
    assert "result" in ["lastCall", "result", "payed", "note"];
    assert "payed" in ["lastCall", "result", "payed", "note"];
    assert "note" in ["lastCall", "result", "payed", "note"];
  }

  /** The paid flag is read only from the member "payed", and only as a
      boolean: a string there fails the binding. */
  lemma PaidReadOnlyAsBoolean(body: JsonObject)
    requires "payed" in body && body["payed"].JStr?
    ensures DecodeUpdate(body).None?
  {
  }
}
