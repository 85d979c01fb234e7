/**
 * The submission lifecycle of the payment-approval bot, as a value model: the
 * shared bot data (pending store, approved and rejected records, mode flag,
 * sequence counter) together with each user's conversation data, and one pure
 * function per handler giving the new state, the conversation state the handler
 * returns and the messaging operations it performs, in order.
 *
 * Messaging calls are `Effect` tags. Where a call sits inside a `try` whose
 * `except` branch does something else, whether the call went through is a
 * parameter (`auditDelivered`, `inviteDelivered`).
 */
module Lifecycle {
  import opened Wrappers
  import opened PyText
  import opened NameRule
  import opened PySplit
  import opened CallbackToken

  /** A submission record as stored in `pending_submissions` and copied into
      `approved_users` / `rejected_users`. */
  datatype Submission = Submission(
    userId: int,
    fullName: string,
    sex: string,
    tgName: string,
    username: string,
    photoId: string)

  /** A user's `user_data`: the keys the conversation fills in. */
  datatype Draft = Draft(fullName: Option<string>, sex: Option<string>)

  const NoDraft := Draft(None, None)

  /** `bot_data` and the per-user `user_data`. `is_manual_mode` and
      `user_sequence_number` are always read with the defaults `True` and `0`,
      so they start at those values here. */
  datatype BotState = BotState(
    pending: map<string, Submission>,
    approved: seq<Submission>,
    rejected: seq<Submission>,
    isManual: bool,
    seqNo: nat,
    drafts: map<int, Draft>)

  const Initial := BotState(map[], [], [], true, 0, map[])

  /** What a conversation handler returns: the next state, `END`, or nothing
      at all (Python `None`, which leaves the conversation where it is). */
  datatype Next = AwaitName | AwaitSex | AwaitPhoto | End | Unchanged

  /** The messaging operations the handlers perform. */
  datatype Effect =
    | AnswerCallback
    | ReplyAlreadyMember
    | ReplyAlreadyPending
    | AskFullName
    | ReplyInvalidName
    | AskSex
    | ShowPaymentInstructions
    | SendReview(mode: Mode, sub: Submission, approveData: string, rejectData: string)
    | SendJoinRequestPrompt(userId: int)
    | ReplyCancelled
    | ReplyModeChanged(isManual: bool)
    | EditActionAlreadyTaken
    | SendAuditLog(ordinal: nat, sub: Submission)
    | NotifyAdminAuditFailed(fullName: string)
    | SendSingleUseInvite(userId: int)
    | NotifyAdminInviteFailed
    | SendApprovalConfirmed(userId: int)
    | SendPaymentNotVerified(userId: int)
    | SendJoinRequestDenied(userId: int)
    | DeleteReviewPrompt

  /** The result of a conversation handler. */
  datatype Step = Step(state: BotState, next: Next, effects: seq<Effect>)

  /** The result of a handler outside the conversation. */
  datatype Outcome = Outcome(state: BotState, effects: seq<Effect>)

  /** The store invariant: every pending entry sits under the key `str(user_id)`
      of its own user, and the counter has moved once per approval. */
  predicate Valid(s: BotState) {
    && (forall k | k in s.pending :: k == IntToString(s.pending[k].userId))
    && s.seqNo == |s.approved|
  }

  function DraftOf(s: BotState, uid: int): Draft {
    if uid in s.drafts then s.drafts[uid] else NoDraft
  }

  /** `any(user['user_id'] == int(user_id) for user in approved_users)`;
      `int(str(uid))` is `uid` by `ParseIntOfIntToString`. */
  predicate IsApproved(approved: seq<Submission>, uid: int) {
    exists i | 0 <= i < |approved| :: approved[i].userId == uid
  }

  /** Only the conversation data changed, and only that of `uid`. */
  ghost predicate OnlyDraftOf(s: BotState, t: BotState, uid: int) {
    && t.(drafts := s.drafts) == s
    && forall u | u != uid :: DraftOf(t, u) == DraftOf(s, u)
  }

  // ---------------------------------------------------------------------
  // The conversation
  // ---------------------------------------------------------------------

  /** `start_payment`: the two entry gates. */
  function StartPayment(s: BotState, uid: int): (r: Step)
    ensures r.state == s
    ensures r.next == End <==> IsApproved(s.approved, uid) || IntToString(uid) in s.pending
    ensures r.next != End ==> r.next == AwaitName && r.effects == [AskFullName]
    ensures IsApproved(s.approved, uid) ==> r.effects == [ReplyAlreadyMember]
    ensures !IsApproved(s.approved, uid) && IntToString(uid) in s.pending ==> r.effects == [ReplyAlreadyPending]
  {
    if IsApproved(s.approved, uid) then Step(s, End, [ReplyAlreadyMember])
    else if IntToString(uid) in s.pending then Step(s, End, [ReplyAlreadyPending])
    else Step(s, AwaitName, [AskFullName])
  }

  /** `get_name`: the name step advances only on a name of letters and whitespace. */
  function GetName(s: BotState, uid: int, text: string): (r: Step)
    ensures r.next == AwaitSex <==> |text| > 0 && forall i | 0 <= i < |text| :: InNameClass(text[i])
    ensures r.next == AwaitSex ==>
      && OnlyDraftOf(s, r.state, uid)
      && DraftOf(r.state, uid) == DraftOf(s, uid).(fullName := Some(text))
      && r.effects == [AskSex]
    ensures r.next != AwaitSex ==> r.next == AwaitName && r.state == s && r.effects == [ReplyInvalidName]
  {
    FullMatchNameChars(text);
    if !FullMatchName(text) then Step(s, AwaitName, [ReplyInvalidName])
    else
      var d := DraftOf(s, uid).(fullName := Some(text));
      Step(s.(drafts := s.drafts[uid := d]), AwaitSex, [AskSex])
  }

  /** `get_sex`: whatever the pressed button carries becomes `sex`. */
  function GetSex(s: BotState, uid: int, choice: string): (r: Step)
    ensures r.next == AwaitPhoto
    ensures OnlyDraftOf(s, r.state, uid)
    ensures DraftOf(r.state, uid) == DraftOf(s, uid).(sex := Some(choice))
    ensures r.effects == [AnswerCallback, ShowPaymentInstructions]
  {
    var d := DraftOf(s, uid).(sex := Some(choice));
    Step(s.(drafts := s.drafts[uid := d]), AwaitPhoto, [AnswerCallback, ShowPaymentInstructions])
  }

  /** The `username` field: `"@" + username`, or `"Not set"` when it is missing or empty. */
  function UsernameField(username: Option<string>): (r: string)
    ensures username.Some? && username.value != "" ==> r == "@" + username.value
    ensures username.None? || username.value == "" ==> r == "Not set"
  {
    match username
    case Some(u) => if u != "" then "@" + u else "Not set"
    case None => "Not set"
  }

  /** The record `get_photo` builds; `photos` are the file ids of the photo's
      size variants, largest last. */
  function NewSubmission(d: Draft, uid: int, tgName: string, username: Option<string>, photos: seq<string>): Submission
    requires |photos| > 0
  {
    Submission(uid, d.fullName.GetOr("N/A"), d.sex.GetOr("N/A"), tgName,
               UsernameField(username), photos[|photos| - 1])
  }

  /** `get_photo`: store the record under `str(user.id)`, send it for review
      with buttons for the mode read now, and return nothing. */
  function GetPhoto(s: BotState, uid: int, tgName: string, username: Option<string>, photos: seq<string>): (r: Step)
    requires |photos| > 0
    ensures r.next == Unchanged
    ensures r.state.(pending := s.pending) == s
    ensures r.state.pending.Keys == s.pending.Keys + {IntToString(uid)}
    ensures forall k | k in s.pending && k != IntToString(uid) :: r.state.pending[k] == s.pending[k]
    ensures var sub := r.state.pending[IntToString(uid)];
      && sub.userId == uid
      && sub.fullName == (if DraftOf(s, uid).fullName.Some? then DraftOf(s, uid).fullName.value else "N/A")
      && sub.sex == (if DraftOf(s, uid).sex.Some? then DraftOf(s, uid).sex.value else "N/A")
      && sub.tgName == tgName
      && sub.username == UsernameField(username)
      && sub.photoId == photos[|photos| - 1]
      && (s.isManual ==>
            r.effects == [SendReview(Manual, sub, MakeToken(Approve, Manual, uid), MakeToken(Reject, Manual, uid))])
      && (!s.isManual ==>
            r.effects == [SendReview(Auto, sub, MakeToken(Approve, Auto, uid), MakeToken(Reject, Auto, uid)),
                          SendJoinRequestPrompt(uid)])
    ensures Valid(s) ==> Valid(r.state)
  {
    var sub := NewSubmission(DraftOf(s, uid), uid, tgName, username, photos);
    var t := s.(pending := s.pending[IntToString(uid) := sub]);
    if s.isManual then
      Step(t, Unchanged, [SendReview(Manual, sub, MakeToken(Approve, Manual, uid), MakeToken(Reject, Manual, uid))])
    else
      Step(t, Unchanged, [SendReview(Auto, sub, MakeToken(Approve, Auto, uid), MakeToken(Reject, Auto, uid)),
                          SendJoinRequestPrompt(uid)])
  }

  /** `cancel_payment`: clear the user's conversation data and end. */
  function Cancel(s: BotState, uid: int): (r: Step)
    ensures r.next == End
    ensures OnlyDraftOf(s, r.state, uid) && DraftOf(r.state, uid) == NoDraft
    ensures r.effects == [ReplyCancelled]
  {
    Step(s.(drafts := s.drafts[uid := NoDraft]), End, [ReplyCancelled])
  }

  // ---------------------------------------------------------------------
  // Administration
  // ---------------------------------------------------------------------

  /** `toggle_mode`: only the administrator flips the mode. */
  function ToggleMode(s: BotState, uid: int, adminId: string): (r: Outcome)
    ensures IntToString(uid) != adminId ==> r == Outcome(s, [])
    ensures IntToString(uid) == adminId ==>
      && r.state.(isManual := s.isManual) == s
      && r.state.isManual != s.isManual
      && r.effects == [ReplyModeChanged(r.state.isManual)]
  {
    if IntToString(uid) != adminId then Outcome(s, [])
    else Outcome(s.(isManual := !s.isManual), [ReplyModeChanged(!s.isManual)])
  }

  /** The operations after a pending entry has been popped: the audit log with
      its ordinal and the user's notice for approvals, the notice for
      rejections, nothing for any other action word. */
  function DecisionEffects(t: Token, sub: Submission, ordinal: nat, auditDelivered: bool, inviteDelivered: bool): (r: seq<Effect>)
    ensures t.action != "approve" && t.action != "reject" ==> r == []
    ensures t.action == "approve" ==> |r| > 0 && r[0] == SendAuditLog(ordinal, sub)
    ensures forall i | 0 < i < |r| :: !r[i].SendAuditLog?
    ensures t.action == "approve" && !auditDelivered ==> |r| > 1 && r[1] == NotifyAdminAuditFailed(sub.fullName)
    ensures t.action == "approve" ==>
      |r| == (if auditDelivered then 1 else 2) + (if t.mode == "manual" || t.mode == "auto" then 1 else 0)
    ensures t.action == "reject" ==> |r| == (if t.mode == "manual" || t.mode == "auto" then 1 else 0)
    ensures NotifyAdminAuditFailed(sub.fullName) in r <==> t.action == "approve" && !auditDelivered
    ensures SendSingleUseInvite(t.id) in r <==> t.action == "approve" && t.mode == "manual" && inviteDelivered
    ensures NotifyAdminInviteFailed in r <==> t.action == "approve" && t.mode == "manual" && !inviteDelivered
    ensures SendApprovalConfirmed(t.id) in r <==> t.action == "approve" && t.mode == "auto"
    ensures SendPaymentNotVerified(t.id) in r <==> t.action == "reject" && t.mode == "manual"
    ensures SendJoinRequestDenied(t.id) in r <==> t.action == "reject" && t.mode == "auto"
  {
    if t.action == "approve" then
      var audit := [SendAuditLog(ordinal, sub)] + (if auditDelivered then [] else [NotifyAdminAuditFailed(sub.fullName)]);
      var notice :=
        if t.mode == "manual" then (if inviteDelivered then [SendSingleUseInvite(t.id)] else [NotifyAdminInviteFailed])
        else if t.mode == "auto" then [SendApprovalConfirmed(t.id)]
        else [];
      audit + notice
    else if t.action == "reject" then
      if t.mode == "manual" then [SendPaymentNotVerified(t.id)]
      else if t.mode == "auto" then [SendJoinRequestDenied(t.id)]
      else []
    else []
  }

  /** The state change after the pop: approving appends to the approved records
      and moves the counter (before the audit send is tried), rejecting appends
      to the rejected records, any other action word records nothing. */
  function Record(s: BotState, action: string, sub: Submission): (r: BotState)
    ensures r.pending == s.pending && r.isManual == s.isManual && r.drafts == s.drafts
    ensures action == "approve" ==>
      r.approved == s.approved + [sub] && r.rejected == s.rejected && r.seqNo == s.seqNo + 1
    ensures action == "reject" ==>
      r.rejected == s.rejected + [sub] && r.approved == s.approved && r.seqNo == s.seqNo
    ensures action != "approve" && action != "reject" ==> r == s
  {
    if action == "approve" then s.(approved := s.approved + [sub], seqNo := s.seqNo + 1)
    else if action == "reject" then s.(rejected := s.rejected + [sub])
    else s
  }

  /** `button_handler` once the data has parsed: pop the raw id text from the
      pending store; an absent entry means the action was already taken,
      otherwise record the entry under its action and send the notices. */
  function Resolve(s: BotState, t: Token, auditDelivered: bool, inviteDelivered: bool): (r: Outcome)
    ensures t.idText !in s.pending ==> r == Outcome(s, [AnswerCallback, EditActionAlreadyTaken])
    ensures t.idText in s.pending ==>
      var sub := s.pending[t.idText];
      && r.state.pending == s.pending - {t.idText}
      && r.state.isManual == s.isManual && r.state.drafts == s.drafts
      && (t.action == "approve" ==>
            r.state.approved == s.approved + [sub] && r.state.rejected == s.rejected && r.state.seqNo == s.seqNo + 1)
      && (t.action == "reject" ==>
            r.state.rejected == s.rejected + [sub] && r.state.approved == s.approved && r.state.seqNo == s.seqNo)
      && (t.action != "approve" && t.action != "reject" ==>
            r.state.approved == s.approved && r.state.rejected == s.rejected && r.state.seqNo == s.seqNo)
      && r.effects == [AnswerCallback] + DecisionEffects(t, sub, s.seqNo + 1, auditDelivered, inviteDelivered) + [DeleteReviewPrompt]
    ensures Valid(s) ==> Valid(r.state)
  {
    if t.idText !in s.pending then Outcome(s, [AnswerCallback, EditActionAlreadyTaken])
    else
      var sub := s.pending[t.idText];
      var popped := s.(pending := s.pending - {t.idText});
      Outcome(Record(popped, t.action, sub),
              [AnswerCallback] + DecisionEffects(t, sub, s.seqNo + 1, auditDelivered, inviteDelivered) + [DeleteReviewPrompt])
  }

  /** `button_handler`: answer the query, parse the button data (malformed data
      stops there), then resolve the entry under the raw id text. */
  function ButtonHandler(s: BotState, data: string, auditDelivered: bool, inviteDelivered: bool): (r: Outcome)
    ensures ParseToken(data).None? ==> r == Outcome(s, [AnswerCallback])
    ensures ParseToken(data).Some? ==> r == Resolve(s, ParseToken(data).value, auditDelivered, inviteDelivered)
    ensures Valid(s) ==> Valid(r.state)
  {
    match ParseToken(data)
    case None => Outcome(s, [AnswerCallback])
    case Some(t) => Resolve(s, t, auditDelivered, inviteDelivered)
  }


  // ---------------------------------------------------------------------
  // Properties across handlers
  // ---------------------------------------------------------------------

  lemma InitialValid()
    ensures Valid(Initial)
  {
  }

  /** At most one pending submission per user: two keys holding entries of the
      same user are the same key. */
  lemma AtMostOnePendingPerUser(s: BotState, k1: string, k2: string)
    requires Valid(s)
    requires k1 in s.pending && k2 in s.pending
    requires s.pending[k1].userId == s.pending[k2].userId
    ensures k1 == k2
  {
  }

  /** The key a submission is stored under is the key its buttons pop. */
  lemma ReviewButtonsTargetStoredKey(d: Decision, m: Mode, uid: int)
    ensures ParseToken(MakeToken(d, m, uid)).Some?
    ensures ParseToken(MakeToken(d, m, uid)).value.idText == IntToString(uid)
    ensures ParseToken(MakeToken(d, m, uid)).value.id == uid
  {
    TokenRoundTrip(d, m, uid);
  }

  /** Malformed data (fewer than two underscores) changes nothing. */
  lemma MalformedDataIgnored(s: BotState, data: string, auditDelivered: bool, inviteDelivered: bool)
    requires Count(data, '_') < 2
    ensures ButtonHandler(s, data, auditDelivered, inviteDelivered) == Outcome(s, [AnswerCallback])
  {
    FewUnderscoresMalformed(data);
  }

  /** Idempotence: pressing the same button a second time, whatever the outcome
      of the foreign calls, changes no store or counter and only reports that
      the action was already taken. */
  lemma SecondPressChangesNothing(s: BotState, data: string, a1: bool, i1: bool, a2: bool, i2: bool)
    requires ParseToken(data).Some?
    ensures var first := ButtonHandler(s, data, a1, i1);
      ButtonHandler(first.state, data, a2, i2) == Outcome(first.state, [AnswerCallback, EditActionAlreadyTaken])
  {
    var t := ParseToken(data).value;
    var first := ButtonHandler(s, data, a1, i1);
    assert t.idText !in first.state.pending;
  }

  /** Data whose id part is not the canonical `str(id)` never finds its entry:
      on a store that keeps the invariant it is answered as already taken and
      changes nothing. */
  lemma NonCanonicalIdMisses(s: BotState, data: string, auditDelivered: bool, inviteDelivered: bool)
    requires Valid(s) && ParseToken(data).Some?
    requires ParseToken(data).value.idText != IntToString(ParseToken(data).value.id)
    ensures ParseToken(data).value.idText !in s.pending
    ensures ButtonHandler(s, data, auditDelivered, inviteDelivered) == Outcome(s, [AnswerCallback, EditActionAlreadyTaken])
  {
    var t := ParseToken(data).value;
    if t.idText in s.pending {
      var u := s.pending[t.idText].userId;
      ParseIntOfIntToString(u);
      assert false;
    }
  }

  /** A resolution removes exactly one entry from the store and adds at most
      one record: exactly one for `approve` or `reject`, none otherwise. */
  lemma ResolutionMovesOneEntry(s: BotState, data: string, auditDelivered: bool, inviteDelivered: bool)
    requires ParseToken(data).Some? && ParseToken(data).value.idText in s.pending
    ensures var t := ParseToken(data).value;
      var r := ButtonHandler(s, data, auditDelivered, inviteDelivered).state;
      && |r.pending| == |s.pending| - 1
      && |r.approved| + |r.rejected| ==
           |s.approved| + |s.rejected| + (if t.action == "approve" || t.action == "reject" then 1 else 0)
  {
    var t := ParseToken(data).value;
    var r := ButtonHandler(s, data, auditDelivered, inviteDelivered).state;
    assert r.pending.Keys == s.pending.Keys - {t.idText};
    assert |s.pending.Keys| == |r.pending.Keys| + 1 by {
      assert s.pending.Keys == r.pending.Keys + {t.idText};
    }
  }

  /** Toggling twice restores the mode and everything else. */
  lemma ToggleTwiceRestores(s: BotState, uid: int, adminId: string)
    ensures ToggleMode(ToggleMode(s, uid, adminId).state, uid, adminId).state == s
  {
  }

  lemma InWrapped(e: Effect, mid: seq<Effect>)
    ensures e in [AnswerCallback] + mid + [DeleteReviewPrompt] <==>
      e == AnswerCallback || e in mid || e == DeleteReviewPrompt
  {
  }

  /** The state right after `get_photo`, in one expression. */
  lemma PhotoState(s: BotState, uid: int, tgName: string, username: Option<string>, photos: seq<string>)
    requires |photos| > 0
    ensures GetPhoto(s, uid, tgName, username, photos).state ==
      s.(pending := s.pending[IntToString(uid) := NewSubmission(DraftOf(s, uid), uid, tgName, username, photos)])
  {
  }

  /** A submission's own button reaches the resolution step with its own key. */
  lemma OwnButtonParses(s: BotState, d: Decision, m: Mode, uid: int, auditDelivered: bool, inviteDelivered: bool)
    ensures ButtonHandler(s, MakeToken(d, m, uid), auditDelivered, inviteDelivered) ==
      Resolve(s, Token(DecisionText(d), ModeText(m), IntToString(uid), uid), auditDelivered, inviteDelivered)
  {
    TokenRoundTrip(d, m, uid);
  }

  /** Pressing a button built for `uid` while `str(uid)` is pending resolves
      exactly that entry. */
  lemma OwnButtonResolves(s: BotState, d: Decision, m: Mode, uid: int, auditDelivered: bool, inviteDelivered: bool)
    requires IntToString(uid) in s.pending
    ensures var key := IntToString(uid);
      var sub := s.pending[key];
      var t := Token(DecisionText(d), ModeText(m), key, uid);
      ButtonHandler(s, MakeToken(d, m, uid), auditDelivered, inviteDelivered) ==
        Outcome(Record(s.(pending := s.pending - {key}), DecisionText(d), sub),
                [AnswerCallback] + DecisionEffects(t, sub, s.seqNo + 1, auditDelivered, inviteDelivered) + [DeleteReviewPrompt])
  {
    OwnButtonParses(s, d, m, uid, auditDelivered, inviteDelivered);
  }


  lemma PutThenRemove(m: map<string, Submission>, k: string, v: Submission)
    ensures m[k := v] - {k} == m - {k}
  {
  }

  /** A submission decided with its own button, after anything that leaves
      the pending store alone (a mode toggle, say). */
  lemma DecideOwnSubmission(
    s: BotState, uid: int, sub: Submission, between: BotState, d: Decision, m: Mode,
    auditDelivered: bool, inviteDelivered: bool)
    requires between.pending == s.pending[IntToString(uid) := sub]
    requires between.approved == s.approved && between.rejected == s.rejected && between.seqNo == s.seqNo
    ensures var key := IntToString(uid);
      var o := ButtonHandler(between, MakeToken(d, m, uid), auditDelivered, inviteDelivered);
      && o.state.pending == s.pending - {key}
      && (d == Approve ==> o.state.approved == s.approved + [sub] && o.state.rejected == s.rejected && o.state.seqNo == s.seqNo + 1)
      && (d == Reject ==> o.state.rejected == s.rejected + [sub] && o.state.approved == s.approved && o.state.seqNo == s.seqNo)
  {
    OwnButtonResolves(between, d, m, uid, auditDelivered, inviteDelivered);
    PutThenRemove(s.pending, IntToString(uid), sub);
  }

  /** A submission's own approve button follows the mode that button was built
      with: toggling after the photo changes only the buttons of later photos.
      The invite link goes out exactly when the button was built in manual mode
      and link creation succeeded. */
  lemma DecisionFollowsSubmissionMode(
    s: BotState, uid: int, tgName: string, username: Option<string>, photos: seq<string>,
    toggler: int, adminId: string, auditDelivered: bool, inviteDelivered: bool)
    requires |photos| > 0
    ensures var p := GetPhoto(s, uid, tgName, username, photos);
      var sub := p.state.pending[IntToString(uid)];
      var toggled := ToggleMode(p.state, toggler, adminId).state;
      var o := ButtonHandler(toggled, p.effects[0].approveData, auditDelivered, inviteDelivered);
      && o.state.approved == s.approved + [sub]
      && o.state.seqNo == s.seqNo + 1
      && o.state.pending == s.pending - {IntToString(uid)}
      && (SendSingleUseInvite(uid) in o.effects <==> s.isManual && inviteDelivered)
      && (SendApprovalConfirmed(uid) in o.effects <==> !s.isManual)
  {
    var p := GetPhoto(s, uid, tgName, username, photos);
    var m := if s.isManual then Manual else Auto;
    var key := IntToString(uid);
    var sub := NewSubmission(DraftOf(s, uid), uid, tgName, username, photos);
    PhotoState(s, uid, tgName, username, photos);
    assert p.effects[0].approveData == MakeToken(Approve, m, uid);
    var toggled := ToggleMode(p.state, toggler, adminId).state;
    DecideOwnSubmission(s, uid, sub, toggled, Approve, m, auditDelivered, inviteDelivered);
    OwnButtonResolves(toggled, Approve, m, uid, auditDelivered, inviteDelivered);
    var e := DecisionEffects(Token("approve", ModeText(m), key, uid), sub, s.seqNo + 1, auditDelivered, inviteDelivered);
    InWrapped(SendSingleUseInvite(uid), e);
    InWrapped(SendApprovalConfirmed(uid), e);
  }

  /** A review prompt outlives the entry it showed. A photo in manual mode, a
      toggle to auto mode and a second photo leave the second record under the
      same key, and the first prompt's approve button then approves that second
      record by the manual path: an invite iff link creation succeeded, and no
      confirmation, although the second photo was sent in auto mode. */
  lemma StaleReviewButton(
    s: BotState, uid: int, tgName: string, username: Option<string>,
    photos1: seq<string>, photos2: seq<string>, toggler: int, adminId: string,
    auditDelivered: bool, inviteDelivered: bool)
    requires |photos1| > 0 && |photos2| > 0
    requires s.isManual && IntToString(toggler) == adminId
    ensures var p1 := GetPhoto(s, uid, tgName, username, photos1);
      var toggled := ToggleMode(p1.state, toggler, adminId).state;
      var p2 := GetPhoto(toggled, uid, tgName, username, photos2);
      var sub2 := p2.state.pending[IntToString(uid)];
      var o := ButtonHandler(p2.state, p1.effects[0].approveData, auditDelivered, inviteDelivered);
      && !toggled.isManual
      && sub2.photoId == photos2[|photos2| - 1]
      && o.state.approved == s.approved + [sub2]
      && o.state.pending == s.pending - {IntToString(uid)}
      && (SendSingleUseInvite(uid) in o.effects <==> inviteDelivered)
      && SendApprovalConfirmed(uid) !in o.effects
  {
    var key := IntToString(uid);
    var p1 := GetPhoto(s, uid, tgName, username, photos1);
    var sub1 := NewSubmission(DraftOf(s, uid), uid, tgName, username, photos1);
    PhotoState(s, uid, tgName, username, photos1);
    assert p1.effects[0].approveData == MakeToken(Approve, Manual, uid);
    var toggled := ToggleMode(p1.state, toggler, adminId).state;
    var sub2 := NewSubmission(DraftOf(toggled, uid), uid, tgName, username, photos2);
    PhotoState(toggled, uid, tgName, username, photos2);
    var p2s := GetPhoto(toggled, uid, tgName, username, photos2).state;
    assert p2s.pending == s.pending[key := sub1][key := sub2];
    PutThenRemove(s.pending[key := sub1], key, sub2);
    PutThenRemove(s.pending, key, sub1);
    OwnButtonResolves(p2s, Approve, Manual, uid, auditDelivered, inviteDelivered);
    var e := DecisionEffects(Token("approve", "manual", key, uid), sub2, p2s.seqNo + 1, auditDelivered, inviteDelivered);
    InWrapped(SendSingleUseInvite(uid), e);
    InWrapped(SendApprovalConfirmed(uid), e);
  }

  /** A rejection of a fresh submission records it as rejected only, moves no
      counter, and sends no invite. */
  lemma RejectionRecordsOnlyRejected(
    s: BotState, uid: int, tgName: string, username: Option<string>, photos: seq<string>,
    m: Mode, auditDelivered: bool, inviteDelivered: bool)
    requires |photos| > 0
    ensures var p := GetPhoto(s, uid, tgName, username, photos);
      var sub := p.state.pending[IntToString(uid)];
      var o := ButtonHandler(p.state, MakeToken(Reject, m, uid), auditDelivered, inviteDelivered);
      && o.state.rejected == s.rejected + [sub]
      && o.state.approved == s.approved
      && o.state.seqNo == s.seqNo
      && o.state.pending == s.pending - {IntToString(uid)}
      && SendSingleUseInvite(uid) !in o.effects
      && (SendPaymentNotVerified(uid) in o.effects <==> m == Manual)
  {
    var key := IntToString(uid);
    var sub := NewSubmission(DraftOf(s, uid), uid, tgName, username, photos);
    PhotoState(s, uid, tgName, username, photos);
    var p := GetPhoto(s, uid, tgName, username, photos);
    DecideOwnSubmission(s, uid, sub, p.state, Reject, m, auditDelivered, inviteDelivered);
    OwnButtonResolves(p.state, Reject, m, uid, auditDelivered, inviteDelivered);
    var e := DecisionEffects(Token("reject", ModeText(m), key, uid), sub, s.seqNo + 1, auditDelivered, inviteDelivered);
    InWrapped(SendSingleUseInvite(uid), e);
    InWrapped(SendPaymentNotVerified(uid), e);
  }

  /** The gates live in `start_payment` only: the photo step does not consult
      the approved records, and it leaves the conversation where it is. */
  lemma PhotoStepIgnoresApproval(s: BotState, uid: int, tgName: string, username: Option<string>, photos: seq<string>)
    requires |photos| > 0 && IsApproved(s.approved, uid)
    ensures var p := GetPhoto(s, uid, tgName, username, photos);
      IntToString(uid) in p.state.pending && p.next == Unchanged
  {
  }

  /** Approving a fresh manual-mode submission with its own button records it
      as approved, moves the counter once, empties its slot, and sends the
      single-use invite exactly when link creation succeeded. */
  lemma ManualApprovalOfSubmission(
    s: BotState, uid: int, tgName: string, username: Option<string>, photos: seq<string>,
    auditDelivered: bool, inviteDelivered: bool)
    requires |photos| > 0
    ensures var p := GetPhoto(s, uid, tgName, username, photos);
      var o := ButtonHandler(p.state, MakeToken(Approve, Manual, uid), auditDelivered, inviteDelivered);
      && o.state.approved == s.approved + [p.state.pending[IntToString(uid)]]
      && o.state.seqNo == s.seqNo + 1
      && o.state.pending == s.pending - {IntToString(uid)}
      && (SendSingleUseInvite(uid) in o.effects <==> inviteDelivered)
  {
    var key := IntToString(uid);
    var sub := NewSubmission(DraftOf(s, uid), uid, tgName, username, photos);
    PhotoState(s, uid, tgName, username, photos);
    var p := GetPhoto(s, uid, tgName, username, photos);
    DecideOwnSubmission(s, uid, sub, p.state, Approve, Manual, auditDelivered, inviteDelivered);
    OwnButtonResolves(p.state, Approve, Manual, uid, auditDelivered, inviteDelivered);
    var e := DecisionEffects(Token("approve", "manual", key, uid), sub, s.seqNo + 1, auditDelivered, inviteDelivered);
    InWrapped(SendSingleUseInvite(uid), e);
  }

  /** A button whose id text starts with an ASCII separator is only answered:
      no entry is popped and nothing else is sent. */
  lemma SeparatorIdIgnored(s: BotState, action: string, mode: string, c: char, rest: string,
                           auditDelivered: bool, inviteDelivered: bool)
    requires '_' !in action && '_' !in mode
    requires '\U{1c}' <= c <= '\U{1f}'
    ensures ButtonHandler(s, action + "_" + mode + "_" + ([c] + rest), auditDelivered, inviteDelivered)
            == Outcome(s, [AnswerCallback])
  {
    SeparatorIdMalformed(action, mode, c, rest);
  }

  /** The conversation part of a full run from the initial state: "Jane Doe" passes the name
      rule, and the three steps leave exactly that name and sex in `user_data`. */
  lemma JaneDoeConversation(uid: int)
    ensures var s0 := StartPayment(Initial, uid);
      var s1 := GetName(s0.state, uid, "Jane Doe");
      var s2 := GetSex(s1.state, uid, "Female");
      && s0.next == AwaitName && s1.next == AwaitSex && s2.next == AwaitPhoto
      && s2.state.(drafts := map[]) == Initial
      && DraftOf(s2.state, uid) == Draft(Some("Jane Doe"), Some("Female"))
  {
    var name := "Jane Doe";
    assert forall i | 0 <= i < |name| :: InNameClass(name[i]);
  }

  /** A full run from the initial state: "Jane Doe", "Female", a photo in manual
      mode, and an approval with a delivered invite. */
  lemma JaneDoeApproved(uid: int, photos: seq<string>)
    requires |photos| > 0
    ensures var s0 := StartPayment(Initial, uid);
      var s1 := GetName(s0.state, uid, "Jane Doe");
      var s2 := GetSex(s1.state, uid, "Female");
      var s3 := GetPhoto(s2.state, uid, "Jane", None, photos);
      var o := ButtonHandler(s3.state, MakeToken(Approve, Manual, uid), true, true);
      && o.state.approved == [Submission(uid, "Jane Doe", "Female", "Jane", "Not set", photos[|photos| - 1])]
      && o.state.seqNo == 1
      && o.state.pending == map[]
      && SendSingleUseInvite(uid) in o.effects
  {
    JaneDoeConversation(uid);
    var s2 := GetSex(GetName(StartPayment(Initial, uid).state, uid, "Jane Doe").state, uid, "Female").state;
    ManualApprovalOfSubmission(s2, uid, "Jane", None, photos, true, true);
  }
}
