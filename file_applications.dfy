/**
 * The JSON-file endpoints: pages/api/apply.js, which validates an application, gives it an id
 * and appends it to `data/applications.json`, and pages/api/applications.js, which reads that
 * file and lists the applications newest first. The file is an `ApplicationsFile` object; the
 * clock readings, `Math.random().toString(36)` and the client address are inputs.
 */
module FileApplications {
  import opened Wrappers
  import opened Http
  import opened Email
  import opened Sorting
  import Text
  import Submissions

  /** An application as apply.js writes it to the file. */
  datatype Application = Application(
    id: string, name: string, email: string, category: string, message: string, phone: string,
    profession: string, status: string, submittedAt: string, ipAddress: Option<string>)

  /** The JSON body of an application; every field may be absent. */
  datatype ApplicationForm = ApplicationForm(
    name: Option<string>, email: Option<string>, category: Option<string>,
    message: Option<string>, phone: Option<string>, profession: Option<string>)

  /**
   * What the handler reads from its environment: the ISO instant behind the id, the base-36
   * rendering of `Math.random()`, the ISO instant stored as `submittedAt` (a second clock
   * reading), and the `x-forwarded-for` header and socket address.
   */
  datatype Environment = Environment(idInstant: string, random: string, submittedAt: string,
                                     forwardedFor: Option<string>, remoteAddress: Option<string>)

  /** The JSON bodies of both endpoints. */
  datatype Body =
    | Notice(status: string, message: string)
    | Submitted(status: string, message: string, applicationId: string)
    | Listed(status: string, applications: seq<Application>, count: int)

  /** The 400 message when a required field is falsy. */
  const MissingFields: string := "Missing required fields: name, email, and category are required"

  // ---------------------------------------------------------------------------------------
  // The application id

  predicate IsDigit(c: char) {
    '0' <= c <= '9'
  }

  /** `toISOString()` output as far as the id uses it: `YYYY-MM-DD` in its first ten characters. */
  predicate IsoInstant(s: string) {
    |s| >= 10 && s[4] == '-' && s[7] == '-'
    && forall k :: 0 <= k < 10 && k != 4 && k != 7 ==> IsDigit(s[k])
  }

  /** `Math.random().toString(36)`: `0.` followed by base-36 digits. */
  predicate Base36Fraction(s: string) {
    |s| >= 2 && s[0] == '0' && s[1] == '.'
    && forall k :: 2 <= k < |s| ==> IsDigit(s[k]) || 'a' <= s[k] <= 'z'
  }

  /** `toISOString().slice(0, 10).replace(/-/g, '')`. */
  function DateDigits(iso: string): string {
    Text.Remove(Text.Substring(iso, 0, 10), '-')
  }

  /** `toString(36).substring(2, 8).toUpperCase()`. */
  function RandomPart(random: string): string {
    Text.UpperAscii(Text.Substring(random, 2, 8))
  }

  /** `generateApplicationId`: `APP-<date>-<random>`. */
  function GenerateApplicationId(iso: string, random: string): string {
    "APP-" + DateDigits(iso) + "-" + RandomPart(random)
  }

  /** The date part of the id is `YYYYMMDD`: the year, month and day digits of the instant. */
  lemma DateDigitsOfIsoInstant(iso: string)
    requires IsoInstant(iso)
    ensures DateDigits(iso) == iso[..4] + iso[5..7] + iso[8..10]
    ensures |DateDigits(iso)| == 8 && forall k :: 0 <= k < 8 ==> IsDigit(DateDigits(iso)[k])
  {
    var year, month, day := iso[..4], iso[5..7], iso[8..10];
    assert Text.Substring(iso, 0, 10) == year + "-" + month + "-" + day;
    assert '-' !in year by { forall k | 0 <= k < 4 ensures year[k] != '-' { assert IsDigit(iso[k]); } }
    assert '-' !in month by { forall k | 0 <= k < 2 ensures month[k] != '-' { assert IsDigit(iso[5 + k]); } }
    assert '-' !in day by { forall k | 0 <= k < 2 ensures day[k] != '-' { assert IsDigit(iso[8 + k]); } }
    Text.RemoveAppend(year + "-" + month + "-", day, '-');
    Text.RemoveAppend(year + "-" + month, "-", '-');
    Text.RemoveAppend(year + "-", month, '-');
    Text.RemoveAppend(year, "-", '-');
    Text.RemoveAbsent(year, '-');
    Text.RemoveAbsent(month, '-');
    Text.RemoveAbsent(day, '-');
    assert Text.Remove("-", '-') == "";
    assert DateDigits(iso) == year + month + day;
    forall k | 0 <= k < 8
      ensures IsDigit(DateDigits(iso)[k])
    {
      if k < 4 {
        assert DateDigits(iso)[k] == iso[k];
      } else if k < 6 {
        assert DateDigits(iso)[k] == iso[k + 1];
      } else {
        assert DateDigits(iso)[k] == iso[k + 2];
      }
    }
  }

  /**
   * The random part has at most six characters, each a digit or an upper-case letter, and
   * they are the base-36 digits after `0.` with their letters upper-cased.
   */
  lemma RandomPartFormat(random: string)
    requires Base36Fraction(random)
    ensures |RandomPart(random)| == (if |random| < 8 then |random| - 2 else 6)
    ensures forall k :: 0 <= k < |RandomPart(random)| ==>
      && (IsDigit(RandomPart(random)[k]) || 'A' <= RandomPart(random)[k] <= 'Z')
      && (IsDigit(random[k + 2]) ==> RandomPart(random)[k] == random[k + 2])
      && ('a' <= random[k + 2] <= 'z' ==> RandomPart(random)[k] as int == random[k + 2] as int - 32)
  {
  }

  /**
   * `Math.random()` may return exactly 0, whose `toString(36)` is `"0"` with no fraction: then
   * `substring(2, 8)` is empty and the id ends in its dash.
   */
  lemma ZeroRandomGivesEmptyPart(iso: string)
    requires IsoInstant(iso)
    ensures RandomPart("0") == ""
    ensures var id := GenerateApplicationId(iso, "0");
      |id| == 13 && id[..4] == "APP-" && id[4..12] == DateDigits(iso) && id[12] == '-'
  {
    DateDigitsOfIsoInstant(iso);
  }

  /**
   * The id format `APP-YYYYMMDD-XXXXXX`: the prefix, eight date digits, a dash and at most six
   * digits or upper-case letters; and the id gives back both its date part and its random part.
   */
  lemma ApplicationIdFormat(iso: string, random: string)
    requires IsoInstant(iso) && Base36Fraction(random)
    ensures var id := GenerateApplicationId(iso, random);
      && 13 <= |id| <= 19
      && id[..4] == "APP-" && id[12] == '-'
      && id[4..12] == iso[..4] + iso[5..7] + iso[8..10]
      && id[13..] == RandomPart(random)
      && (forall k :: 4 <= k < 12 ==> IsDigit(id[k]))
      && (forall k :: 13 <= k < |id| ==> IsDigit(id[k]) || 'A' <= id[k] <= 'Z')
  {
    DateDigitsOfIsoInstant(iso);
    RandomPartFormat(random);
    var id := GenerateApplicationId(iso, random);
    assert id == "APP-" + DateDigits(iso) + "-" + RandomPart(random);
    assert id[4..12] == DateDigits(iso);
    assert id[13..] == RandomPart(random);
    forall k | 4 <= k < 12
      ensures IsDigit(id[k])
    {
      assert id[k] == DateDigits(iso)[k - 4];
    }
    forall k | 13 <= k < |id|
      ensures IsDigit(id[k]) || 'A' <= id[k] <= 'Z'
    {
      assert id[k] == RandomPart(random)[k - 13];
    }
  }

  // ---------------------------------------------------------------------------------------
  // The data file

  /** `data/applications.json`: absent, not a JSON array of applications, or the stored array. */
  datatype FileContents = Missing | Garbled | Stored(applications: seq<Application>)

  /** The applications `saveApplication` starts from: a missing file counts as an empty list. */
  function Existing(contents: FileContents): seq<Application>
    requires !contents.Garbled?
  {
    if contents.Stored? then contents.applications else []
  }

  /** The data file. `writable` is false when creating the directory or writing the file throws. */
  class ApplicationsFile {
    var contents: FileContents
    var writable: bool

    constructor (initial: FileContents, canWrite: bool)
      ensures contents == initial && writable == canWrite
    {
      contents := initial;
      writable := canWrite;
    }

    /**
     * `saveApplication`: read the array (a missing file is `[]`), push the application, write
     * the array back. A garbled file makes `JSON.parse` throw before anything is written.
     */
    method Save(application: Application) returns (fault: bool)
      modifies this
      ensures writable == old(writable)
      ensures fault == (old(contents).Garbled? || !writable)
      ensures contents == if fault then old(contents) else Stored(Existing(old(contents)) + [application])
    {
      if contents.Garbled? {
        return true;
      }
      var applications := Existing(contents);
      applications := applications + [application];
      if !writable {
        return true;
      }
      contents := Stored(applications);
      return false;
    }
  }

  // ---------------------------------------------------------------------------------------
  // pages/api/apply.js

  /** The application apply.js builds; its id comes from the first clock reading, `submittedAt` from the second. */
  function ApplicationRecord(form: ApplicationForm, env: Environment): Application
    requires form.name.Some? && form.email.Some? && form.category.Some?
  {
    Application(
      GenerateApplicationId(env.idInstant, env.random),
      form.name.value, form.email.value, form.category.value,
      Submissions.OrEmpty(form.message), Submissions.OrEmpty(form.phone), Submissions.OrEmpty(form.profession),
      "pending", env.submittedAt,
      if Truthy(env.forwardedFor) then env.forwardedFor else env.remoteAddress)
  }

  function Required(form: ApplicationForm): seq<Option<string>> {
    [form.name, form.email, form.category]
  }

  /** What apply.js replies, and the file it leaves. */
  function SubmitOutcome(req: Request<ApplicationForm>, contents: FileContents, writable: bool, env: Environment)
    : (Reply<Body>, FileContents)
  {
    match Submissions.Screen(req.verb, Required(req.body), MissingFields, req.body.email)
    case Some(refusal) => (Reply(refusal.code, map[], Notice("error", refusal.message)), contents)
    case None =>
      assert req.body.name in Required(req.body);
      assert req.body.category in Required(req.body);
      if contents.Garbled? || !writable then
        (Reply(500, map[], Notice("error", "Internal server error. Please try again later.")), contents)
      else
        var application := ApplicationRecord(req.body, env);
        (Reply(200, map[], Submitted("ok", "Application submitted successfully", application.id)),
         Stored(Existing(contents) + [application]))
  }

  /**
   * pages/api/apply.js `handler`. The two notification functions only write to the console,
   * so they are not modelled; the source ignores their failures in any case.
   */
  method SubmitApplication(req: Request<ApplicationForm>, file: ApplicationsFile, res: ServerResponse<Body>,
                           env: Environment)
    requires res.headers == map[] && res.body == None
    modifies res, file
    ensures file.writable == old(file.writable)
    ensures res.Sent().Some?
    ensures (res.Sent().value, file.contents) == SubmitOutcome(req, old(file.contents), file.writable, env)
  {
    if req.verb != "POST" {
      res.Send(405, Notice("error", "Method not allowed"));
      return;
    }
    var form := req.body;
    if !Truthy(form.name) || !Truthy(form.email) || !Truthy(form.category) {
      res.Send(400, Notice("error", MissingFields));
      return;
    }
    if !ValidEmail(form.email.value) {
      res.Send(400, Notice("error", "Invalid email format"));
      return;
    }
    var application := ApplicationRecord(form, env);
    var fault := file.Save(application);
    if fault {
      res.Send(500, Notice("error", "Internal server error. Please try again later."));
      return;
    }
    res.Send(200, Submitted("ok", "Application submitted successfully", application.id));
  }

  /**
   * A submission succeeds exactly when every check passes and the file can be read and
   * written; then the file holds the old list (a missing file counting as empty), unchanged,
   * with the new `pending` application appended, and the reply carries its id. Every other
   * reply leaves the file as it was.
   */
  lemma SubmissionAppendsOne(req: Request<ApplicationForm>, contents: FileContents, writable: bool, env: Environment)
    ensures var (reply, after) := SubmitOutcome(req, contents, writable, env);
      && (reply.code == 200 <==>
            Submissions.Screen(req.verb, Required(req.body), MissingFields, req.body.email).None?
            && !contents.Garbled? && writable)
      && (reply.code != 200 ==> after == contents && reply.body.Notice?)
      && (reply.code == 200 ==>
            var before := Existing(contents);
            && after.Stored? && |after.applications| == |before| + 1
            && after.applications[..|before|] == before
            && var added := after.applications[|before|];
            && added.status == "pending" && added.submittedAt == env.submittedAt
            && added.id == GenerateApplicationId(env.idInstant, env.random)
            && reply.body == Submitted("ok", "Application submitted successfully", added.id))
  {
  }

  /**
   * The stored application keeps name, email and category as given, and a falsy message,
   * phone or profession is stored as `''`; the address is `x-forwarded-for` when that is
   * truthy, else the socket address.
   */
  lemma ApplicationFieldDefaults(form: ApplicationForm, env: Environment)
    requires form.name.Some? && form.email.Some? && form.category.Some?
    ensures var a := ApplicationRecord(form, env);
      && a.name == form.name.value && a.email == form.email.value && a.category == form.category.value
      && (forall p :: p in [(form.message, a.message), (form.phone, a.phone), (form.profession, a.profession)] ==>
            (p.1 == "" <==> !Truthy(p.0)) && (Truthy(p.0) ==> p.1 == p.0.value))
      && a.ipAddress == (if Truthy(env.forwardedFor) then env.forwardedFor else env.remoteAddress)
  {
  }

  // ---------------------------------------------------------------------------------------
  // pages/api/applications.js

  /**
   * The replies applications.js may give: 405 for another method, an empty listing for a
   * missing file, 500 for a garbled one, and otherwise the stored applications rearranged
   * newest first by their parsed `submittedAt`, with their count. `instant` is `new Date(...)`
   * as epoch milliseconds; applications with equal instants may come in either order.
   */
  ghost predicate ListingReply(verb: string, contents: FileContents, instant: string -> int, reply: Reply<Body>) {
    if verb != "GET" then reply == Reply(405, map[], Notice("error", "Method not allowed"))
    else match contents
      case Missing => reply == Reply(200, map[], Listed("ok", [], 0))
      case Garbled => reply == Reply(500, map[], Notice("error", "Internal server error"))
      case Stored(list) =>
        && reply.code == 200 && reply.headers == map[] && reply.body.Listed? && reply.body.status == "ok"
        && NewestFirst(reply.body.applications, (a: Application) => instant(a.submittedAt))
        && multiset(reply.body.applications) == multiset(list)
        && reply.body.count == |reply.body.applications|
  }

  /** pages/api/applications.js `handler`: the parsed array is sorted in place, then sent with its length. */
  method ListApplications(verb: string, file: ApplicationsFile, res: ServerResponse<Body>, instant: string -> int)
    requires res.headers == map[] && res.body == None
    modifies res
    ensures res.Sent().Some? && ListingReply(verb, file.contents, instant, res.Sent().value)
  {
    if verb != "GET" {
      res.Send(405, Notice("error", "Method not allowed"));
      return;
    }
    match file.contents
    case Missing =>
      res.Send(200, Listed("ok", [], 0));
    case Garbled =>
      res.Send(500, Notice("error", "Internal server error"));
    case Stored(list) =>
      var applications := new Application[|list|](i requires 0 <= i < |list| => list[i]);
      assert applications[..] == list;
      SortNewestFirst(applications, (a: Application) => instant(a.submittedAt));
      res.Send(200, Listed("ok", applications[..], applications.Length));
  }

  /**
   * A successful listing holds every stored application as many times as it is stored and
   * nothing else, so its count is the number stored (0 for a missing file).
   */
  lemma ListingCountsEverything(verb: string, contents: FileContents, instant: string -> int, reply: Reply<Body>)
    requires ListingReply(verb, contents, instant, reply) && reply.code == 200
    ensures verb == "GET" && !contents.Garbled? && reply.body.Listed?
    ensures reply.body.count == |Existing(contents)|
    ensures forall a :: a in reply.body.applications <==> a in Existing(contents)
  {
    var listed := reply.body.applications;
    assert |multiset(listed)| == |listed|;
    assert |multiset(Existing(contents))| == |Existing(contents)|;
    forall a
      ensures a in listed <==> a in Existing(contents)
    {
      assert a in listed <==> a in multiset(listed);
    }
  }

  /**
   * Submitting and then listing: after a successful submission, the listing has one more
   * application than before, and the new one is among them.
   */
  lemma SubmittedApplicationIsListed(req: Request<ApplicationForm>, contents: FileContents, writable: bool,
                                     env: Environment, instant: string -> int, reply: Reply<Body>)
    requires SubmitOutcome(req, contents, writable, env).0.code == 200
    requires ListingReply("GET", SubmitOutcome(req, contents, writable, env).1, instant, reply)
    ensures reply.code == 200 && reply.body.Listed?
    ensures reply.body.count == |Existing(contents)| + 1
    ensures exists a :: a in reply.body.applications && a.id == SubmitOutcome(req, contents, writable, env).0.body.applicationId
  {
    SubmissionAppendsOne(req, contents, writable, env);
    var after := SubmitOutcome(req, contents, writable, env).1;
    ListingCountsEverything("GET", after, instant, reply);
    var added := after.applications[|Existing(contents)|];
    assert added in Existing(after);
  }

  // ---------------------------------------------------------------------------------------
  // getFeeInformation

  /** The `fees` object literal: category to fee text. */
  const Fees: map<string, string> := map[
    "Student" := "Your student membership is FREE! No payment required.",
    "Full Member" := "Annual membership fee: $20. Payment instructions will be sent separately.",
    "Associate" := "Annual membership fee: $15. Payment instructions will be sent separately.",
    "Honorary" := "Honorary membership is by invitation only. No fee required."]

  const DefaultFee: string := "Membership fee information will be provided."

  /** The properties every object literal inherits from `Object.prototype`; each holds a function or an object. */
  const InheritedNames: set<string> := {
    "constructor", "__proto__", "__defineGetter__", "__defineSetter__", "__lookupGetter__",
    "__lookupSetter__", "hasOwnProperty", "isPrototypeOf", "propertyIsEnumerable",
    "toString", "toLocaleString", "valueOf"}

  /** What `fees[category] || default` evaluates to: a string, or an inherited member (truthy, not a string). */
  datatype FeeLookup = FeeText(text: string) | InheritedMember(name: string)

  /** `getFeeInformation` as written: a property lookup that also finds inherited members. */
  function FeeInformationAsWritten(category: string): FeeLookup {
    if category in Fees then FeeText(Fees[category])
    else if category in InheritedNames then InheritedMember(category)
    else FeeText(DefaultFee)
  }

  /** "toString" is not a category, yet it does not get the default text: the lookup finds `Object.prototype.toString`. */
  lemma FeeLookupFindsInheritedMembers()
    ensures "toString" !in Fees
    ensures FeeInformationAsWritten("toString") != FeeText(DefaultFee)
  {
  }

  /** `getFeeInformation` as intended: the text of one of the four categories, else the default. */
  function FeeInformation(category: string): string {
    if category in Fees then Fees[category] else DefaultFee
  }

  /**
   * Each of the four categories gets its own text, and every other category, including the
   * names an object inherits, gets the default; on every name that is not inherited the
   * intended lookup agrees with the source's.
   */
  lemma FeeInformationCases(category: string)
    ensures category == "Student" ==> FeeInformation(category) == "Your student membership is FREE! No payment required."
    ensures category == "Full Member" ==>
      FeeInformation(category) == "Annual membership fee: $20. Payment instructions will be sent separately."
    ensures category == "Associate" ==>
      FeeInformation(category) == "Annual membership fee: $15. Payment instructions will be sent separately."
    ensures category == "Honorary" ==> FeeInformation(category) == "Honorary membership is by invitation only. No fee required."
    ensures category !in {"Student", "Full Member", "Associate", "Honorary"} ==> FeeInformation(category) == DefaultFee
    ensures category !in InheritedNames ==> FeeInformationAsWritten(category) == FeeText(FeeInformation(category))
  {
  }
}
