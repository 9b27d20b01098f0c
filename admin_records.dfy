/**
 * The protected record handlers pages/api/admin/applications.ts and pages/api/admin/feedback.ts.
 * Both run the same guard chain over a different table, status enumeration and set of
 * messages, so the chain is written once over a `Resource` describing each. `Decide` is the
 * pure part of the chain (the gate, the dispatch on the method and the body checks) and names
 * the store call to make; `Handle` runs the chain against a `Table` and the response object and
 * is proved to produce what `Outcome` allows for that decision.
 */
module AdminRecords {
  import opened Wrappers
  import opened Http
  import opened Auth
  import opened RecordStore

  /** The JSON body of a PATCH or DELETE request, `{ id, status }`. */
  datatype Change = Change(id: Option<string>, status: Option<string>)

  /** What distinguishes the two handlers: the reply's field names, the allowed statuses and the messages. */
  datatype Resource = Resource(listField: string, itemField: string, statuses: seq<string>,
                               missingFields: string, updated: string, missingId: string, deleted: string)

  /** pages/api/admin/applications.ts. */
  const Applications: Resource := Resource(
    "applications", "application", ["pending", "approved", "rejected"],
    "Application ID and status are required", "Application updated successfully",
    "Application ID is required", "Application deleted successfully")

  /** pages/api/admin/feedback.ts. */
  const FeedbackItems: Resource := Resource(
    "feedback", "feedback", ["unread", "read", "resolved"],
    "Feedback ID and status are required", "Feedback updated successfully",
    "Feedback ID is required", "Feedback deleted successfully")

  /** The JSON bodies: `{status, message}`, `{status, <listField>}` and `{status, message, <itemField>}`. */
  datatype Body<F> =
    | Notice(status: string, message: string)
    | Listing(status: string, field: string, rows: seq<Row<F>>)
    | Updated(status: string, message: string, field: string, row: Row<F>)

  function ServerError<F>(): Reply<Body<F>> {
    Reply(500, map[], Notice("error", "Internal server error"))
  }

  /** Where the guard chain leads: a refusal, or the one store call to make. */
  datatype Action = Refuse(code: int, message: string) | List | SetStatus(id: string, status: string) | Remove(id: string)

  /** The guard chain up to the store call: the gate first, then the method, then the body. */
  function Decide(r: Resource, req: Request<Change>, c: TokenCodec, now: int): Action {
    if SessionAdminId(req.cookies, c, now).None? then Refuse(401, "Unauthorized")
    else if req.verb == "GET" then List
    else if req.verb == "PATCH" then
      if !Truthy(req.body.id) || !Truthy(req.body.status) then Refuse(400, r.missingFields)
      else if req.body.status.value !in r.statuses then Refuse(400, "Invalid status")
      else SetStatus(req.body.id.value, req.body.status.value)
    else if req.verb == "DELETE" then
      if !Truthy(req.body.id) then Refuse(400, r.missingId)
      else Remove(req.body.id.value)
    else Refuse(405, "Method not allowed")
  }

  /**
   * The replies and resulting tables the handler may produce for `action` on `rows`. Every
   * store call throws, hence 500, when the store is unreachable; `update` and `delete` also
   * throw for an unknown id.
   */
  ghost predicate Outcome<F>(r: Resource, action: Action, rows: map<string, Row<F>>, online: bool,
                             reply: Reply<Body<F>>, after: map<string, Row<F>>)
  {
    match action
    case Refuse(code, message) =>
      reply == Reply(code, map[], Notice("error", message)) && after == rows
    case List =>
      && after == rows
      && (!online ==> reply == ServerError())
      && (online ==>
            && reply.code == 200 && reply.headers == map[] && reply.body.Listing?
            && reply.body.status == "success" && reply.body.field == r.listField
            && NewestFirstListing(reply.body.rows, rows))
    case SetStatus(id, status) =>
      if !online || id !in rows then reply == ServerError() && after == rows
      else
        && after == rows[id := rows[id].(status := status)]
        && reply == Reply(200, map[], Updated("success", r.updated, r.itemField, after[id]))
    case Remove(id) =>
      if !online || id !in rows then reply == ServerError() && after == rows
      else after == rows - {id} && reply == Reply(200, map[], Notice("success", r.deleted))
  }

  /** The number of store calls the handler makes: one, unless the chain refuses first. */
  function Queries(action: Action): nat {
    if action.Refuse? then 0 else 1
  }

  /** The shared handler body of applications.ts and feedback.ts. */
  method Handle<F(==)>(r: Resource, req: Request<Change>, store: Table<F>, res: ServerResponse<Body<F>>,
                       c: TokenCodec, now: int)
    requires store.Valid() && res.headers == map[] && res.body == None
    modifies res, store
    ensures store.Valid() && store.online == old(store.online)
    ensures store.queries == old(store.queries) + Queries(Decide(r, req, c, now))
    ensures res.Sent().Some?
    ensures Outcome(r, Decide(r, req, c, now), old(store.rows), store.online, res.Sent().value, store.rows)
  {
    var user := GetUserFromRequest(req.cookies, c, now);
    if user.None? || user.value.id == "" {
      res.Send(401, Notice("error", "Unauthorized"));
      return;
    }
    if req.verb == "GET" {
      var list, fault := store.FindManyNewestFirst();
      if fault {
        res.Send(500, Notice("error", "Internal server error"));
        return;
      }
      res.Send(200, Listing("success", r.listField, list));
      return;
    }
    if req.verb == "PATCH" {
      var id, status := req.body.id, req.body.status;
      if !Truthy(id) || !Truthy(status) {
        res.Send(400, Notice("error", r.missingFields));
        return;
      }
      if status.value !in r.statuses {
        res.Send(400, Notice("error", "Invalid status"));
        return;
      }
      var updated := store.UpdateStatus(id.value, status.value);
      if updated.None? {
        res.Send(500, Notice("error", "Internal server error"));
        return;
      }
      res.Send(200, Updated("success", r.updated, r.itemField, updated.value));
      return;
    }
    if req.verb == "DELETE" {
      var id := req.body.id;
      if !Truthy(id) {
        res.Send(400, Notice("error", r.missingId));
        return;
      }
      var fault := store.Delete(id.value);
      if fault {
        res.Send(500, Notice("error", "Internal server error"));
        return;
      }
      res.Send(200, Notice("success", r.deleted));
      return;
    }
    res.Send(405, Notice("error", "Method not allowed"));
  }

  /** pages/api/admin/applications.ts `handler`. */
  method HandleApplications<F(==)>(req: Request<Change>, store: Table<F>, res: ServerResponse<Body<F>>,
                                   c: TokenCodec, now: int)
    requires store.Valid() && res.headers == map[] && res.body == None
    modifies res, store
    ensures store.Valid() && store.online == old(store.online)
    ensures store.queries == old(store.queries) + Queries(Decide(Applications, req, c, now))
    ensures res.Sent().Some?
    ensures Outcome(Applications, Decide(Applications, req, c, now), old(store.rows), store.online,
                    res.Sent().value, store.rows)
  {
    Handle(Applications, req, store, res, c, now);
  }

  /** pages/api/admin/feedback.ts `handler`. */
  method HandleFeedback<F(==)>(req: Request<Change>, store: Table<F>, res: ServerResponse<Body<F>>,
                               c: TokenCodec, now: int)
    requires store.Valid() && res.headers == map[] && res.body == None
    modifies res, store
    ensures store.Valid() && store.online == old(store.online)
    ensures store.queries == old(store.queries) + Queries(Decide(FeedbackItems, req, c, now))
    ensures res.Sent().Some?
    ensures Outcome(FeedbackItems, Decide(FeedbackItems, req, c, now), old(store.rows), store.online,
                    res.Sent().value, store.rows)
  {
    Handle(FeedbackItems, req, store, res, c, now);
  }

  // ---------------------------------------------------------------------------------------
  // Properties of the guard chain

  /**
   * Without a verified identity carrying an `id`, every method, supported or not, is refused
   * with 401 "Unauthorized", and so no store call is made.
   */
  lemma AuthGateComesFirst(r: Resource, req: Request<Change>, c: TokenCodec, now: int)
    requires SessionAdminId(req.cookies, c, now).None?
    ensures forall verb :: Decide(r, req.(verb := verb), c, now) == Refuse(401, "Unauthorized")
    ensures forall verb :: Queries(Decide(r, req.(verb := verb), c, now)) == 0
  {
  }

  /**
   * The store call the chain makes, in both directions: a listing exactly for an authorised
   * GET; a status update exactly for an authorised PATCH with an id and a status from the
   * enumeration; a delete exactly for an authorised DELETE with an id; and 405 exactly for an
   * authorised request with any other method.
   */
  lemma DispatchIsExact(r: Resource, req: Request<Change>, c: TokenCodec, now: int)
    ensures var action := Decide(r, req, c, now);
      var authorised := SessionAdminId(req.cookies, c, now).Some?;
      && (action == List <==> authorised && req.verb == "GET")
      && (action.SetStatus? <==>
            && authorised && req.verb == "PATCH" && Truthy(req.body.id) && Truthy(req.body.status)
            && req.body.status.value in r.statuses)
      && (action.SetStatus? ==> action == SetStatus(req.body.id.value, req.body.status.value))
      && (action.Remove? <==> authorised && req.verb == "DELETE" && Truthy(req.body.id))
      && (action.Remove? ==> action == Remove(req.body.id.value))
      && (action == Refuse(405, "Method not allowed") <==>
            authorised && req.verb != "GET" && req.verb != "PATCH" && req.verb != "DELETE")
      && (authorised && req.verb == "PATCH" && (!Truthy(req.body.id) || !Truthy(req.body.status)) ==>
            action == Refuse(400, r.missingFields))
      && (authorised && req.verb == "DELETE" && !Truthy(req.body.id) ==> action == Refuse(400, r.missingId))
  {
  }

  /**
   * Every store call throws when the store is unreachable, and `update` and `delete` also throw
   * for an id the table does not hold; the catch-all then answers 500 and the table stays as it was.
   */
  lemma StoreFaultIsServerError<F>(r: Resource, action: Action, rows: map<string, Row<F>>, online: bool,
                                   reply: Reply<Body<F>>, after: map<string, Row<F>>)
    requires Outcome(r, action, rows, online, reply, after)
    requires !action.Refuse?
    ensures !online ==> reply == ServerError() && after == rows
    ensures action.SetStatus? && action.id !in rows ==> reply == ServerError() && after == rows
    ensures action.Remove? && action.id !in rows ==> reply == ServerError() && after == rows
    ensures reply.code == 500 <==> !online || (!action.List? && action.id !in rows)
  {
  }

  /** A PATCH whose status is outside the enumeration gets 400 "Invalid status" and leaves the table as it was. */
  lemma InvalidStatusLeavesStore<F>(r: Resource, req: Request<Change>, c: TokenCodec, now: int,
                                    rows: map<string, Row<F>>, online: bool,
                                    reply: Reply<Body<F>>, after: map<string, Row<F>>)
    requires SessionAdminId(req.cookies, c, now).Some? && req.verb == "PATCH"
    requires Truthy(req.body.id) && Truthy(req.body.status) && req.body.status.value !in r.statuses
    requires Outcome(r, Decide(r, req, c, now), rows, online, reply, after)
    ensures reply == Reply(400, map[], Notice("error", "Invalid status"))
    ensures after == rows
  {
  }

  /** Every reply other than 200 leaves the table as it was. */
  lemma FailureLeavesStore<F>(r: Resource, action: Action, rows: map<string, Row<F>>, online: bool,
                              reply: Reply<Body<F>>, after: map<string, Row<F>>)
    requires Outcome(r, action, rows, online, reply, after)
    requires reply.code != 200
    ensures after == rows
  {
  }

  /**
   * A successful PATCH changes the `status` of the one row with that id and nothing else: the
   * same ids, every other row as it was, and that row's id, instant and other columns kept.
   * The reply carries the updated row.
   */
  lemma UpdateChangesOnlyStatus<F>(r: Resource, id: string, status: string, rows: map<string, Row<F>>,
                                   online: bool, reply: Reply<Body<F>>, after: map<string, Row<F>>)
    requires Outcome(r, SetStatus(id, status), rows, online, reply, after)
    requires reply.code == 200
    ensures id in rows && after.Keys == rows.Keys
    ensures forall k :: k in rows && k != id ==> after[k] == rows[k]
    ensures after[id].status == status
    ensures after[id].id == rows[id].id && after[id].stamp == rows[id].stamp && after[id].fields == rows[id].fields
    ensures reply.body == Updated("success", r.updated, r.itemField, after[id])
  {
  }

  /** A successful DELETE removes exactly the row with that id: one row fewer, the others as they were. */
  lemma DeleteRemovesExactlyOne<F>(r: Resource, id: string, rows: map<string, Row<F>>, online: bool,
                                   reply: Reply<Body<F>>, after: map<string, Row<F>>)
    requires Outcome(r, Remove(id), rows, online, reply, after)
    requires reply.code == 200
    ensures id in rows && id !in after
    ensures after.Keys == rows.Keys - {id} && |after| == |rows| - 1
    ensures forall k :: k in after ==> after[k] == rows[k]
  {
    assert rows.Keys == after.Keys + {id};
  }

  /** An authorised GET lists every stored row exactly once, newest first. */
  lemma ListingIsWholeTable<F>(r: Resource, rows: map<string, Row<F>>, reply: Reply<Body<F>>,
                               after: map<string, Row<F>>)
    requires KeyedById(rows)
    requires Outcome(r, List, rows, true, reply, after)
    ensures reply.code == 200 && reply.body.Listing? && after == rows
    ensures |reply.body.rows| == |rows|
    ensures forall i :: 0 <= i < |reply.body.rows| ==>
      reply.body.rows[i].id in rows && rows[reply.body.rows[i].id] == reply.body.rows[i]
    ensures forall k :: k in rows ==> rows[k] in reply.body.rows
  {
    ListingHasEveryRowOnce(reply.body.rows, rows);
  }

  /** Every row's status in the enumeration. */
  ghost predicate StatusesAllowed<F>(r: Resource, rows: map<string, Row<F>>) {
    forall k :: k in rows ==> rows[k].status in r.statuses
  }

  /** Whatever the request, the handler keeps every stored status inside the enumeration. */
  lemma StatusesStayAllowed<F>(r: Resource, req: Request<Change>, c: TokenCodec, now: int,
                               rows: map<string, Row<F>>, online: bool,
                               reply: Reply<Body<F>>, after: map<string, Row<F>>)
    requires StatusesAllowed(r, rows)
    requires Outcome(r, Decide(r, req, c, now), rows, online, reply, after)
    ensures StatusesAllowed(r, after)
  {
  }
}
