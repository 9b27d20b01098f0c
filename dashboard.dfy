/**
 * The logic of pages/admin/dashboard.tsx: the status filter and counts over the applications
 * the admin listing returned, the status badge, the feedback preview, which status changes
 * the buttons offer, and the client-side checks of the change-password form. The form is a
 * `PasswordForm` object whose fields are the component's state variables.
 */
module Dashboard {
  import opened Wrappers
  import opened RecordStore
  import AdminRecords
  import AdminSession

  // ---------------------------------------------------------------------------------------
  // Filter and counts

  /** `applications.filter(app => filter === 'all' || app.status === filter)`. */
  function Filtered<F>(apps: seq<Row<F>>, filter: string): (kept: seq<Row<F>>)
    ensures |kept| <= |apps|
    ensures forall a :: a in kept ==> a in apps && (filter == "all" || a.status == filter)
    ensures forall a :: a in apps && (filter == "all" || a.status == filter) ==> a in kept
  {
    if apps == [] then []
    else (if filter == "all" || apps[0].status == filter then [apps[0]] else []) + Filtered(apps[1..], filter)
  }

  /** Filtering distributes over concatenation, so the kept applications stay in their original order. */
  lemma {:induction false} FilteredAppend<F>(xs: seq<Row<F>>, ys: seq<Row<F>>, filter: string)
    ensures Filtered(xs + ys, filter) == Filtered(xs, filter) + Filtered(ys, filter)
  {
    if xs != [] {
      assert (xs + ys)[1..] == xs[1..] + ys;
      FilteredAppend(xs[1..], ys, filter);
    } else {
      assert xs + ys == ys;
    }
  }

  /** The filter `'all'` keeps every application, in order. */
  lemma {:induction false} FilterAllKeepsEverything<F>(apps: seq<Row<F>>)
    ensures Filtered(apps, "all") == apps
  {
    if apps != [] {
      FilterAllKeepsEverything(apps[1..]);
      assert apps == [apps[0]] + apps[1..];
    }
  }

  /** `stats`: the number of applications and of those pending, approved and rejected. */
  datatype Stats = Stats(total: nat, pending: nat, approved: nat, rejected: nat)

  function StatsOf<F>(apps: seq<Row<F>>): Stats {
    Stats(|apps|, |Filtered(apps, "pending")|, |Filtered(apps, "approved")|, |Filtered(apps, "rejected")|)
  }

  /** Every application's status is one of the three the counts look at. */
  predicate AllCounted<F>(apps: seq<Row<F>>) {
    forall i :: 0 <= i < |apps| ==> apps[i].status in {"pending", "approved", "rejected"}
  }

  /**
   * The three counts never exceed the total, and they add up to it exactly when every
   * status is pending, approved or rejected.
   */
  lemma {:induction false} StatsAddUp<F>(apps: seq<Row<F>>)
    ensures var s := StatsOf(apps);
      && s.total == |apps|
      && s.pending + s.approved + s.rejected <= s.total
      && (s.pending + s.approved + s.rejected == s.total <==> AllCounted(apps))
  {
    if apps != [] {
      StatsAddUp(apps[1..]);
      if !AllCounted(apps[1..]) {
        var i :| 0 <= i < |apps[1..]| && apps[1..][i].status !in {"pending", "approved", "rejected"};
        assert apps[i + 1] == apps[1..][i];
      }
      if AllCounted(apps) {
        forall i | 0 <= i < |apps[1..]|
          ensures apps[1..][i].status in {"pending", "approved", "rejected"}
        {
          assert apps[1..][i] == apps[i + 1];
        }
      }
    }
  }

  /** The filter buttons `all`, `pending`, `approved`, `rejected`. */
  const FilterButtons: seq<string> := ["all", "pending", "approved", "rejected"]

  /** The count a filter button shows: `stats.total` for `all`, else that status's count. */
  function ButtonCount(s: Stats, f: string): nat {
    if f == "all" then s.total
    else if f == "pending" then s.pending
    else if f == "approved" then s.approved
    else s.rejected
  }

  /** Each button shows the number of applications its filter keeps. */
  lemma ButtonCountsMatchFilter<F>(apps: seq<Row<F>>, f: string)
    requires f in FilterButtons
    ensures ButtonCount(StatsOf(apps), f) == |Filtered(apps, f)|
  {
    if f == "all" {
      FilterAllKeepsEverything(apps);
    }
  }

  // ---------------------------------------------------------------------------------------
  // Status badge

  /** A badge style: background, text colour and label. */
  datatype Style = Style(bg: string, color: string, text: string)

  const BadgeStyles: map<string, Style> := map[
    "pending" := Style("#fef3c7", "#92400e", "Pending"),
    "approved" := Style("#d1fae5", "#065f46", "Approved"),
    "rejected" := Style("#fee2e2", "#991b1b", "Rejected"),
    "unread" := Style("#dbeafe", "#1e40af", "Unread"),
    "read" := Style("#e0e7ff", "#4338ca", "Read"),
    "resolved" := Style("#d1fae5", "#065f46", "Resolved")]

  /** `getStatusBadge`: the style of the status, falling back to the pending style. */
  function StatusBadge(status: string): Style {
    if status in BadgeStyles then BadgeStyles[status] else BadgeStyles["pending"]
  }

  /**
   * The six known statuses get their own label; any other status shows the Pending badge.
   * Every status the admin handlers allow has a badge of its own.
   */
  lemma StatusBadgeCases(status: string)
    ensures status !in BadgeStyles ==> StatusBadge(status) == Style("#fef3c7", "#92400e", "Pending")
    ensures status == "pending" ==> StatusBadge(status).text == "Pending"
    ensures status == "approved" ==> StatusBadge(status).text == "Approved"
    ensures status == "rejected" ==> StatusBadge(status).text == "Rejected"
    ensures status == "unread" ==> StatusBadge(status).text == "Unread"
    ensures status == "read" ==> StatusBadge(status).text == "Read"
    ensures status == "resolved" ==> StatusBadge(status).text == "Resolved"
    ensures status in AdminRecords.Applications.statuses || status in AdminRecords.FeedbackItems.statuses ==>
      status in BadgeStyles
  {
  }

  // ---------------------------------------------------------------------------------------
  // Feedback preview

  /** The longest message shown whole. */
  const PreviewLength: nat := 200

  /** `message.length > 200 ? message.substring(0, 200) + '...' : message`. */
  function Preview(message: string): (shown: string)
    ensures |message| <= PreviewLength ==> shown == message
    ensures |message| > PreviewLength ==>
      |shown| == PreviewLength + 3 && shown[..PreviewLength] == message[..PreviewLength] && shown[PreviewLength..] == "..."
  {
    if |message| > PreviewLength then message[..PreviewLength] + "..." else message
  }

  // ---------------------------------------------------------------------------------------
  // Offered status changes

  /** The status changes the buttons offer for an application: approve or reject while pending. */
  function ApplicationActions(status: string): seq<string> {
    if status == "pending" then ["approved", "rejected"] else []
  }

  /** The status changes the buttons offer for feedback: read while unread, resolved while read. */
  function FeedbackActions(status: string): seq<string> {
    if status == "unread" then ["read"]
    else if status == "read" then ["resolved"]
    else []
  }

  /** How far along its workflow a status is. */
  function Progress(status: string): nat {
    if status in {"pending", "unread"} then 0
    else if status == "read" then 1
    else 2
  }

  /**
   * Every offered change is a status the admin handler accepts, so its PATCH is never
   * refused as "Invalid status"; every offered change moves the record forward, so no
   * sequence of button presses returns to an earlier status; and only `pending`, `unread` and
   * `read` offer anything.
   */
  lemma OfferedActionsAreValidAndAdvance(status: string)
    ensures forall s :: s in ApplicationActions(status) ==>
      s in AdminRecords.Applications.statuses && Progress(s) > Progress(status)
    ensures forall s :: s in FeedbackActions(status) ==>
      s in AdminRecords.FeedbackItems.statuses && Progress(s) > Progress(status)
    ensures ApplicationActions(status) != [] <==> status == "pending"
    ensures FeedbackActions(status) != [] <==> status == "unread" || status == "read"
  {
  }

  // ---------------------------------------------------------------------------------------
  // The change-password form

  /** `passwordMessage`: `type` is "success" or "error". */
  datatype FormMessage = FormMessage(kind: string, text: string)

  /** What `res.json()` of the change-password reply yields: its `status` and `message`. */
  datatype Answer = Answer(status: Option<string>, message: Option<string>)

  /** The checks made before anything is sent: matching passwords first, then the length. */
  function ClientRefusal(newPassword: string, confirmPassword: string): (refusal: Option<string>)
    ensures newPassword != confirmPassword ==> refusal == Some("New passwords do not match")
    ensures newPassword == confirmPassword ==>
      (refusal.Some? <==> |newPassword| < AdminSession.MinPasswordLength)
      && (refusal.Some? ==> refusal == Some("Password must be at least 6 characters"))
  {
    if newPassword != confirmPassword then Some("New passwords do not match")
    else if |newPassword| < 6 then Some("Password must be at least 6 characters")
    else None
  }

  /** The message shown once the request has been answered; `None` is a fetch or parse failure. */
  function AnswerMessage(answer: Option<Answer>): FormMessage {
    if answer.None? then FormMessage("error", "An error occurred")
    else if answer.value.status == Some("success") then FormMessage("success", "Password changed successfully!")
    else if answer.value.message.Some? && answer.value.message.value != "" then
      FormMessage("error", answer.value.message.value)
    else FormMessage("error", "Failed to change password")
  }

  /** The client never sends a new password the server would refuse as too short. */
  lemma ClientLengthCheckMatchesServer(newPassword: string)
    ensures ClientRefusal(newPassword, newPassword).None? <==> |newPassword| >= AdminSession.MinPasswordLength
  {
  }

  /** The settings form: the three password fields and the message shown. */
  class PasswordForm {
    var currentPassword: string
    var newPassword: string
    var confirmPassword: string
    var message: Option<FormMessage>

    constructor ()
      ensures currentPassword == "" && newPassword == "" && confirmPassword == "" && message == None
    {
      currentPassword, newPassword, confirmPassword := "", "", "";
      message := None;
    }

    /**
     * `handleChangePassword`. `sent` is the `{currentPassword, newPassword}` body posted, if
     * any; `answer` is what the post yields, used only when it is made.
     */
    method HandleChangePassword(answer: Option<Answer>) returns (sent: Option<(string, string)>)
      modifies this
      ensures sent.Some? <==> ClientRefusal(old(newPassword), old(confirmPassword)).None?
      ensures sent.Some? ==> sent.value == (old(currentPassword), old(newPassword))
      ensures sent.None? ==>
        && message == Some(FormMessage("error", ClientRefusal(old(newPassword), old(confirmPassword)).value))
        && currentPassword == old(currentPassword) && newPassword == old(newPassword)
        && confirmPassword == old(confirmPassword)
      ensures sent.Some? ==> message == Some(AnswerMessage(answer))
      ensures sent.Some? && message.value.kind == "success" ==>
        currentPassword == "" && newPassword == "" && confirmPassword == ""
      ensures sent.Some? && message.value.kind != "success" ==>
        currentPassword == old(currentPassword) && newPassword == old(newPassword)
        && confirmPassword == old(confirmPassword)
    {
      message := None;
      sent := None;
      if newPassword != confirmPassword {
        message := Some(FormMessage("error", "New passwords do not match"));
        return;
      }
      if |newPassword| < 6 {
        message := Some(FormMessage("error", "Password must be at least 6 characters"));
        return;
      }
      sent := Some((currentPassword, newPassword));
      if answer.None? {
        message := Some(FormMessage("error", "An error occurred"));
        return;
      }
      if answer.value.status == Some("success") {
        message := Some(FormMessage("success", "Password changed successfully!"));
        currentPassword, newPassword, confirmPassword := "", "", "";
      } else {
        var text := if answer.value.message.Some? && answer.value.message.value != "" then answer.value.message.value
                    else "Failed to change password";
        message := Some(FormMessage("error", text));
      }
    }
  }

  /**
   * The form's message is a success exactly when the server answered with status "success";
   * otherwise it is the server's message, or a fixed fallback.
   */
  lemma AnswerMessageCases(answer: Option<Answer>)
    ensures AnswerMessage(answer).kind == "success" <==> answer.Some? && answer.value.status == Some("success")
    ensures (answer.Some? && answer.value.status != Some("success") && answer.value.message.Some?
             && answer.value.message.value != "") ==> AnswerMessage(answer).text == answer.value.message.value
    ensures AnswerMessage(answer).kind != "success" ==> AnswerMessage(answer).text != ""
  {
  }
}
