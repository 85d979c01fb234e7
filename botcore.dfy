/**
 * The bot's handlers as they run: one object holds the shared bot data and the
 * per-user conversation data, and each handler updates its fields in place.
 * Every method is tied to the handler function of the same name in
 * `Lifecycle`, and keeps the store invariant `Lifecycle.Valid`.
 */
module BotCore {
  import opened Wrappers
  import opened PyText
  import opened NameRule
  import opened CallbackToken
  import opened Lifecycle

  class Bot {
    /** The administrator's id as configured (a string, compared with `str(user.id)`). */
    const adminId: string

    var pending: map<string, Submission>
    var approved: seq<Submission>
    var rejected: seq<Submission>
    var isManual: bool
    var seqNo: nat
    var drafts: map<int, Draft>

    function State(): BotState
      reads this
    {
      BotState(pending, approved, rejected, isManual, seqNo, drafts)
    }

    ghost predicate Valid()
      reads this
    {
      Lifecycle.Valid(State())
    }

    constructor (adminId: string)
      ensures this.adminId == adminId
      ensures State() == Initial && Valid()
    {
      this.adminId := adminId;
      pending, approved, rejected := map[], [], [];
      isManual, seqNo, drafts := true, 0, map[];
    }

    /** The scan over the approved records in `start_payment`. */
    method IsApprovedUser(uid: int) returns (found: bool)
      ensures found <==> IsApproved(approved, uid)
    {
      found := false;
      var i := 0;
      while i < |approved|
        invariant 0 <= i <= |approved|
        invariant found <==> exists j | 0 <= j < i :: approved[j].userId == uid
      {
        if approved[i].userId == uid {
          found := true;
        }
        i := i + 1;
      }
    }

    method StartPayment(uid: int) returns (next: Next, effects: seq<Effect>)
      ensures Step(State(), next, effects) == Lifecycle.StartPayment(State(), uid)
    {
      var member := IsApprovedUser(uid);
      if member {
        return End, [ReplyAlreadyMember];
      }
      if IntToString(uid) in pending {
        return End, [ReplyAlreadyPending];
      }
      return AwaitName, [AskFullName];
    }

    method GetName(uid: int, text: string) returns (next: Next, effects: seq<Effect>)
      requires Valid()
      modifies this
      ensures Valid()
      ensures Step(State(), next, effects) == Lifecycle.GetName(old(State()), uid, text)
    {
      if !FullMatchName(text) {
        return AwaitName, [ReplyInvalidName];
      }
      var d := if uid in drafts then drafts[uid] else NoDraft;
      drafts := drafts[uid := d.(fullName := Some(text))];
      return AwaitSex, [AskSex];
    }

    method GetSex(uid: int, choice: string) returns (next: Next, effects: seq<Effect>)
      requires Valid()
      modifies this
      ensures Valid()
      ensures Step(State(), next, effects) == Lifecycle.GetSex(old(State()), uid, choice)
    {
      var d := if uid in drafts then drafts[uid] else NoDraft;
      drafts := drafts[uid := d.(sex := Some(choice))];
      return AwaitPhoto, [AnswerCallback, ShowPaymentInstructions];
    }

    /** `photos` holds the file ids of the photo's size variants; the handler is
        reached only for messages that carry a photo. */
    method GetPhoto(uid: int, tgName: string, username: Option<string>, photos: seq<string>)
      returns (next: Next, effects: seq<Effect>)
      requires Valid() && |photos| > 0
      modifies this
      ensures Valid()
      ensures Step(State(), next, effects) == Lifecycle.GetPhoto(old(State()), uid, tgName, username, photos)
    {
      var d := if uid in drafts then drafts[uid] else NoDraft;
      var sub := NewSubmission(d, uid, tgName, username, photos);
      pending := pending[IntToString(uid) := sub];
      if isManual {
        effects := [SendReview(Manual, sub, MakeToken(Approve, Manual, uid), MakeToken(Reject, Manual, uid))];
      } else {
        effects := [SendReview(Auto, sub, MakeToken(Approve, Auto, uid), MakeToken(Reject, Auto, uid)),
                    SendJoinRequestPrompt(uid)];
      }
      next := Unchanged;
    }

    method Cancel(uid: int) returns (next: Next, effects: seq<Effect>)
      requires Valid()
      modifies this
      ensures Valid()
      ensures Step(State(), next, effects) == Lifecycle.Cancel(old(State()), uid)
    {
      effects := [ReplyCancelled];
      drafts := drafts[uid := NoDraft];
      next := End;
    }

    method ToggleMode(uid: int) returns (effects: seq<Effect>)
      requires Valid()
      modifies this
      ensures Valid()
      ensures Outcome(State(), effects) == Lifecycle.ToggleMode(old(State()), uid, adminId)
    {
      if IntToString(uid) != adminId {
        return [];
      }
      isManual := !isManual;
      effects := [ReplyModeChanged(isManual)];
    }

    /** `auditDelivered`: the audit-channel send went through;
        `inviteDelivered`: the invite link was created and sent to the user. */
    method ButtonHandler(data: string, auditDelivered: bool, inviteDelivered: bool) returns (effects: seq<Effect>)
      requires Valid()
      modifies this
      ensures Valid()
      ensures Outcome(State(), effects) == Lifecycle.ButtonHandler(old(State()), data, auditDelivered, inviteDelivered)
    {
      var parsed := ParseToken(data);
      if parsed.None? {
        return [AnswerCallback];
      }
      effects := Resolve(parsed.value, auditDelivered, inviteDelivered);
    }

    /** `pop(user_id_str, None)` and what follows it. */
    method Resolve(t: Token, auditDelivered: bool, inviteDelivered: bool) returns (effects: seq<Effect>)
      requires Valid()
      modifies this
      ensures Valid()
      ensures Outcome(State(), effects) == Lifecycle.Resolve(old(State()), t, auditDelivered, inviteDelivered)
    {
      if t.idText !in pending {
        // `pop` of an absent key leaves the store as it is.
        return [AnswerCallback, EditActionAlreadyTaken];
      }
      var sub := pending[t.idText];
      pending := pending - {t.idText};
      var notices := Decide(t, sub, auditDelivered, inviteDelivered);
      effects := [AnswerCallback] + notices + [DeleteReviewPrompt];
    }

    /** The part of `button_handler` after a successful pop, with the audit
        logging of `log_user_to_channel` inlined. */
    method Decide(t: Token, sub: Submission, auditDelivered: bool, inviteDelivered: bool) returns (notices: seq<Effect>)
      modifies this
      ensures State() == Record(old(State()), t.action, sub)
      ensures notices == DecisionEffects(t, sub, old(seqNo) + 1, auditDelivered, inviteDelivered)
    {
      notices := [];
      if t.action == "approve" {
        approved := approved + [sub];
        // The counter is written before the audit send is attempted.
        seqNo := seqNo + 1;
        notices := [SendAuditLog(seqNo, sub)];
        if !auditDelivered {
          notices := notices + [NotifyAdminAuditFailed(sub.fullName)];
        }
        if t.mode == "manual" {
          notices := notices + (if inviteDelivered then [SendSingleUseInvite(t.id)] else [NotifyAdminInviteFailed]);
        } else if t.mode == "auto" {
          notices := notices + [SendApprovalConfirmed(t.id)];
        }
      } else if t.action == "reject" {
        rejected := rejected + [sub];
        if t.mode == "manual" {
          notices := [SendPaymentNotVerified(t.id)];
        } else if t.mode == "auto" {
          notices := [SendJoinRequestDenied(t.id)];
        }
      }
    }
  }

  /** Two presses of the same button on a running bot: the first resolves the
      submission, the second changes nothing. */
  method DoublePress(bot: Bot, data: string) returns (first: seq<Effect>, second: seq<Effect>)
    requires bot.Valid() && ParseToken(data).Some?
    modifies bot
    ensures bot.Valid()
    ensures bot.State() == Lifecycle.ButtonHandler(old(bot.State()), data, true, true).state
    ensures first == Lifecycle.ButtonHandler(old(bot.State()), data, true, true).effects
    ensures second == [AnswerCallback, EditActionAlreadyTaken]
  {
    first := bot.ButtonHandler(data, true, true);
    second := bot.ButtonHandler(data, true, true);
    SecondPressChangesNothing(old(bot.State()), data, true, true, true, true);
  }
}
