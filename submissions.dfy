/**
 * The public submission handlers backed by the Prisma store: pages/api/membership/apply.ts
 * (a membership application) and pages/api/feedback/submit.ts (a feedback message). Each
 * checks the method, the required fields and the email pattern, then creates one row. The id
 * and the creation instant are generated by the store and are parameters here.
 */
module Submissions {
  import opened Wrappers
  import opened Http
  import opened Email
  import opened RecordStore
  import AdminRecords

  /** The JSON bodies: `{status, message}`, and on success `{status, message, <idField>: id}`. */
  datatype Body =
    | Notice(status: string, message: string)
    | Accepted(status: string, message: string, idField: string, id: string)

  /** The message of every 500 reply of these handlers. */
  const CreateFailed: string := "Internal server error. Please try again later."

  /** The 400 message of both handlers when a required field is falsy. */
  const MissingFields: string := "Missing required fields"

  /** A refusal by the checks before the store call. */
  datatype Refusal = Refusal(code: int, message: string)

  /**
   * The checks the public submission handlers run, in order: the method, every required field
   * truthy (else 400 with the handler's `missing` message), then `emailRegex.test(email)`,
   * which on an absent field tests the string "undefined" and so fails.
   */
  function Screen(verb: string, required: seq<Option<string>>, missing: string, email: Option<string>): (refusal: Option<Refusal>)
    ensures verb != "POST" ==> refusal == Some(Refusal(405, "Method not allowed"))
    ensures verb == "POST" && (exists f :: f in required && !Truthy(f)) ==> refusal == Some(Refusal(400, missing))
    ensures verb == "POST" && (forall f :: f in required ==> Truthy(f)) ==>
      && (refusal.None? <==> email.Some? && ValidEmail(email.value))
      && (refusal.Some? ==> refusal == Some(Refusal(400, "Invalid email format")))
  {
    if verb != "POST" then Some(Refusal(405, "Method not allowed"))
    else if exists f :: f in required && !Truthy(f) then Some(Refusal(400, missing))
    else if email.None? || !ValidEmail(email.value) then Some(Refusal(400, "Invalid email format"))
    else None
  }

  /** `field || ''`: a falsy field becomes the empty string. */
  function OrEmpty(field: Option<string>): string {
    if Truthy(field) then field.value else ""
  }

  /** `field || null`: a falsy field becomes `null`. */
  function OrNull(field: Option<string>): Option<string> {
    if Truthy(field) then field else None
  }

  // ---------------------------------------------------------------------------------------
  // pages/api/membership/apply.ts

  /** The JSON body of a membership application; every field may be absent. */
  datatype MembershipForm = MembershipForm(
    fullName: Option<string>, email: Option<string>, phone: Option<string>,
    dateOfBirth: Option<string>, address: Option<string>, city: Option<string>,
    state: Option<string>, zipCode: Option<string>, membershipType: Option<string>,
    specialization: Option<string>, licenseNumber: Option<string>,
    yearsOfExperience: Option<string>, medicalSchool: Option<string>)

  /** The columns of a `membershipApplication` row besides id, status and instant. */
  datatype MembershipFields = MembershipFields(
    fullName: string, email: string, phone: Option<string>,
    dateOfBirth: string, address: string, city: string, state: string, zipCode: string,
    membershipType: string, specialization: Option<string>, licenseNumber: Option<string>,
    yearsOfExperience: Option<string>, medicalSchool: Option<string>)

  function MembershipRequired(form: MembershipForm): seq<Option<string>> {
    [form.fullName, form.email, form.membershipType]
  }

  /** The row `prisma.membershipApplication.create` is given, stored under `id` at instant `now`. */
  function MembershipRecord(form: MembershipForm, id: string, now: int): Row<MembershipFields>
    requires form.fullName.Some? && form.email.Some? && form.membershipType.Some?
  {
    Row(id, "pending", now, MembershipFields(
      form.fullName.value, form.email.value, form.phone,
      OrEmpty(form.dateOfBirth), OrEmpty(form.address), OrEmpty(form.city),
      OrEmpty(form.state), OrEmpty(form.zipCode),
      form.membershipType.value, OrNull(form.specialization), OrNull(form.licenseNumber),
      OrNull(form.yearsOfExperience), OrNull(form.medicalSchool)))
  }

  /** What the membership handler replies, and the table it leaves. */
  function MembershipOutcome(req: Request<MembershipForm>, rows: map<string, Row<MembershipFields>>,
                             online: bool, id: string, now: int): (Reply<Body>, map<string, Row<MembershipFields>>)
  {
    match Screen(req.verb, MembershipRequired(req.body), MissingFields, req.body.email)
    case Some(refusal) => (Reply(refusal.code, map[], Notice("error", refusal.message)), rows)
    case None =>
      assert req.body.fullName in MembershipRequired(req.body);
      assert req.body.membershipType in MembershipRequired(req.body);
      if !online || id in rows then (Reply(500, map[], Notice("error", CreateFailed)), rows)
      else (Reply(200, map[], Accepted("success", "Application submitted successfully", "applicationId", id)),
            rows[id := MembershipRecord(req.body, id, now)])
  }

  /** pages/api/membership/apply.ts `handler`; `id` and `now` are what the store generates for the new row. */
  method SubmitMembership(req: Request<MembershipForm>, store: Table<MembershipFields>, res: ServerResponse<Body>,
                          id: string, now: int)
    requires store.Valid() && res.headers == map[] && res.body == None
    modifies res, store
    ensures store.Valid() && store.online == old(store.online)
    ensures res.Sent().Some?
    ensures (res.Sent().value, store.rows) == MembershipOutcome(req, old(store.rows), store.online, id, now)
    ensures Screen(req.verb, MembershipRequired(req.body), MissingFields, req.body.email).Some? ==> store.queries == old(store.queries)
  {
    if req.verb != "POST" {
      res.Send(405, Notice("error", "Method not allowed"));
      return;
    }
    var form := req.body;
    if !Truthy(form.fullName) || !Truthy(form.email) || !Truthy(form.membershipType) {
      res.Send(400, Notice("error", MissingFields));
      return;
    }
    if !ValidEmail(form.email.value) {
      res.Send(400, Notice("error", "Invalid email format"));
      return;
    }
    var fault := store.Create(MembershipRecord(form, id, now));
    if fault {
      res.Send(500, Notice("error", CreateFailed));
      return;
    }
    res.Send(200, Accepted("success", "Application submitted successfully", "applicationId", id));
  }

  /**
   * The membership handler creates a row exactly when every check passes and the store accepts
   * it; then it adds exactly one row, under the returned id, keeps every other row, and the
   * new row is `pending`. Every other reply leaves the table as it was.
   */
  lemma MembershipCreatesOneRow(req: Request<MembershipForm>, rows: map<string, Row<MembershipFields>>,
                                online: bool, id: string, now: int)
    requires KeyedById(rows)
    ensures var (reply, after) := MembershipOutcome(req, rows, online, id, now);
      && (reply.code == 200 <==>
            Screen(req.verb, MembershipRequired(req.body), MissingFields, req.body.email).None? && online && id !in rows)
      && (reply.code != 200 ==> after == rows && reply.body.Notice? && reply.body.status == "error")
      && (reply.code == 200 ==>
            && reply.body == Accepted("success", "Application submitted successfully", "applicationId", id)
            && after.Keys == rows.Keys + {id} && |after| == |rows| + 1
            && (forall k :: k in rows ==> after[k] == rows[k])
            && after[id].id == id && after[id].status == "pending" && after[id].stamp == now)
      && KeyedById(after)
  {
  }

  /**
   * The stored row keeps the required fields and `phone` as given; a falsy dateOfBirth,
   * address, city, state or zipCode is stored as `''`, and a falsy specialization,
   * licenseNumber, yearsOfExperience or medicalSchool as `null`; truthy ones are kept.
   */
  lemma MembershipFieldDefaults(form: MembershipForm, id: string, now: int)
    requires form.fullName.Some? && form.email.Some? && form.membershipType.Some?
    ensures var f := MembershipRecord(form, id, now).fields;
      && f.fullName == form.fullName.value && f.email == form.email.value
      && f.membershipType == form.membershipType.value && f.phone == form.phone
      && (forall p :: p in [(form.dateOfBirth, f.dateOfBirth), (form.address, f.address), (form.city, f.city),
                            (form.state, f.state), (form.zipCode, f.zipCode)] ==>
            (p.1 == "" <==> !Truthy(p.0)) && (Truthy(p.0) ==> p.1 == p.0.value))
      && (forall p :: p in [(form.specialization, f.specialization), (form.licenseNumber, f.licenseNumber),
                            (form.yearsOfExperience, f.yearsOfExperience), (form.medicalSchool, f.medicalSchool)] ==>
            (p.1.None? <==> !Truthy(p.0)) && (Truthy(p.0) ==> p.1 == p.0))
  {
  }

  /** A new application is `pending`, a status the admin handler accepts, so every stored status stays in its enumeration. */
  lemma MembershipKeepsStatusesAllowed(req: Request<MembershipForm>, rows: map<string, Row<MembershipFields>>,
                                       online: bool, id: string, now: int)
    requires AdminRecords.StatusesAllowed(AdminRecords.Applications, rows)
    ensures AdminRecords.StatusesAllowed(AdminRecords.Applications, MembershipOutcome(req, rows, online, id, now).1)
  {
  }

  // ---------------------------------------------------------------------------------------
  // pages/api/feedback/submit.ts

  /** The JSON body of a feedback message. */
  datatype FeedbackForm = FeedbackForm(name: Option<string>, email: Option<string>, phone: Option<string>,
                                       subject: Option<string>, message: Option<string>)

  /** The columns of a `feedback` row besides id, status and instant. */
  datatype FeedbackFields = FeedbackFields(name: string, email: string, phone: Option<string>,
                                           subject: string, message: string)

  function FeedbackRequired(form: FeedbackForm): seq<Option<string>> {
    [form.name, form.email, form.subject, form.message]
  }

  /** The row `prisma.feedback.create` is given, stored under `id` at instant `now`. */
  function FeedbackRecord(form: FeedbackForm, id: string, now: int): Row<FeedbackFields>
    requires form.name.Some? && form.email.Some? && form.subject.Some? && form.message.Some?
  {
    Row(id, "unread", now, FeedbackFields(form.name.value, form.email.value, OrNull(form.phone),
                                          form.subject.value, form.message.value))
  }

  /** What the feedback handler replies, and the table it leaves. */
  function FeedbackOutcome(req: Request<FeedbackForm>, rows: map<string, Row<FeedbackFields>>,
                           online: bool, id: string, now: int): (Reply<Body>, map<string, Row<FeedbackFields>>)
  {
    match Screen(req.verb, FeedbackRequired(req.body), MissingFields, req.body.email)
    case Some(refusal) => (Reply(refusal.code, map[], Notice("error", refusal.message)), rows)
    case None =>
      assert req.body.name in FeedbackRequired(req.body);
      assert req.body.subject in FeedbackRequired(req.body);
      assert req.body.message in FeedbackRequired(req.body);
      if !online || id in rows then (Reply(500, map[], Notice("error", CreateFailed)), rows)
      else (Reply(200, map[], Accepted("success", "Feedback submitted successfully", "feedbackId", id)),
            rows[id := FeedbackRecord(req.body, id, now)])
  }

  /** pages/api/feedback/submit.ts `handler`. */
  method SubmitFeedback(req: Request<FeedbackForm>, store: Table<FeedbackFields>, res: ServerResponse<Body>,
                        id: string, now: int)
    requires store.Valid() && res.headers == map[] && res.body == None
    modifies res, store
    ensures store.Valid() && store.online == old(store.online)
    ensures res.Sent().Some?
    ensures (res.Sent().value, store.rows) == FeedbackOutcome(req, old(store.rows), store.online, id, now)
    ensures Screen(req.verb, FeedbackRequired(req.body), MissingFields, req.body.email).Some? ==> store.queries == old(store.queries)
  {
    if req.verb != "POST" {
      res.Send(405, Notice("error", "Method not allowed"));
      return;
    }
    var form := req.body;
    if !Truthy(form.name) || !Truthy(form.email) || !Truthy(form.subject) || !Truthy(form.message) {
      res.Send(400, Notice("error", MissingFields));
      return;
    }
    if !ValidEmail(form.email.value) {
      res.Send(400, Notice("error", "Invalid email format"));
      return;
    }
    var fault := store.Create(FeedbackRecord(form, id, now));
    if fault {
      res.Send(500, Notice("error", CreateFailed));
      return;
    }
    res.Send(200, Accepted("success", "Feedback submitted successfully", "feedbackId", id));
  }

  /**
   * The feedback handler creates a row exactly when every check passes and the store accepts
   * it; then it adds exactly one `unread` row under the returned id, with `phone` null when it
   * was falsy. Every other reply leaves the table as it was.
   */
  lemma FeedbackCreatesOneRow(req: Request<FeedbackForm>, rows: map<string, Row<FeedbackFields>>,
                              online: bool, id: string, now: int)
    requires KeyedById(rows)
    ensures var (reply, after) := FeedbackOutcome(req, rows, online, id, now);
      && (reply.code == 200 <==>
            Screen(req.verb, FeedbackRequired(req.body), MissingFields, req.body.email).None? && online && id !in rows)
      && (reply.code != 200 ==> after == rows && reply.body.Notice? && reply.body.status == "error")
      && (reply.code == 200 ==>
            && reply.body == Accepted("success", "Feedback submitted successfully", "feedbackId", id)
            && after.Keys == rows.Keys + {id} && |after| == |rows| + 1
            && (forall k :: k in rows ==> after[k] == rows[k])
            && after[id].status == "unread" && after[id].stamp == now
            && (after[id].fields.phone.None? <==> !Truthy(req.body.phone)))
      && KeyedById(after)
  {
  }

  /** A new feedback item is `unread`, a status the admin handler accepts. */
  lemma FeedbackKeepsStatusesAllowed(req: Request<FeedbackForm>, rows: map<string, Row<FeedbackFields>>,
                                     online: bool, id: string, now: int)
    requires AdminRecords.StatusesAllowed(AdminRecords.FeedbackItems, rows)
    ensures AdminRecords.StatusesAllowed(AdminRecords.FeedbackItems, FeedbackOutcome(req, rows, online, id, now).1)
  {
  }
}
