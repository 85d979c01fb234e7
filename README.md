# ABJ payment-approval bot: the submission lifecycle in Dafny

The ABJ bot is a Telegram bot that sells access to a private channel. A user
starts a payment and enters a full name. The user then picks a sex and uploads
a payment screenshot. The administrator approves or rejects the submission
with a button. Every approval is logged to an audit channel. A user approved
in manual mode then gets a single-use invite link; one approved in auto mode
gets a confirmation.

This project models the bot's in-memory state machine (`abj.py`):

- the shared bot data: the pending store keyed by `str(user.id)`, the
  append-only approved and rejected records, the manual/auto mode flag, and
  the audit sequence counter;
- each user's conversation data (`user_data`);
- the handlers `start_payment`, `get_name`, `get_sex`, `get_photo`,
  `cancel_payment`, `toggle_mode` and `button_handler`;
- the callback data `{action}_{mode}_{id}` those buttons carry.

Layout:

- `wrappers.dfy`: `Option`.
- `pytext.dfy`: Python's `str(int)` and `int(str)`, the whitespace class of
  `str.isspace()` and the regex escape `\s`, and the narrower class that `int()`
  strips (it leaves the ASCII separators U+001C to U+001F in place and fails).
- `pysplit.dfy`: `str.split(sep, maxsplit)` and `str.join`.
- `namerule.dfy`: the name pattern `[A-Za-z\s]+` under `re.fullmatch`.
- `callbacktoken.dfy`: building and parsing the button data.
- `lifecycle.dfy`: the value model. `BotState` is all the state. There is one
  pure function per handler, returning the new state, the conversation state
  the handler returns, and the messaging operations it performs as `Effect`
  tags. The lemmas relate several handlers.
- `botcore.dfy`: class `Bot`, whose fields are that state. Its methods update
  the fields in place. Each handler method's postcondition ties the new fields
  and its outputs to the `Lifecycle` function of the same name, and keeps
  `Lifecycle.Valid`. Two helpers differ: `Bot.Decide` is tied to
  `Lifecycle.Record` and `Lifecycle.DecisionEffects`, and `Bot.IsApprovedUser`
  to `Lifecycle.IsApproved`.

Messaging calls are effect tags. Two calls sit in a `try` whose `except` branch
sends something else: the audit-log send and the invite creation plus send.
Whether each went through is a parameter of `ButtonHandler`
(`auditDelivered`, `inviteDelivered`).

Behaviour of the code that the model keeps, however surprising:

- `get_photo` has no `return`, so it yields `None`. The conversation therefore
  stays in the photo state (`Next.Unchanged`); it does not end. A further photo
  from the same user overwrites the pending entry. This happens even after the
  user has been approved: the approved-user gate exists only in
  `start_payment` (`Lifecycle.PhotoStepIgnoresApproval`).
- `sex` is whatever callback data the pressed button carries. It is not
  limited to `Male`/`Female`.
- The action and mode words of the callback data are free strings. An id part
  that `int()` accepts but that is not in the canonical form `str(id)`
  (`+12`, `1_2`, ` 12\n`: `PyText.SignedTextAccepted`,
  `PyText.UnderscoreTextAccepted`, `PyText.PaddedTextAccepted`) is popped under
  its raw text. That text never matches a stored key, so such data reports
  "action already taken" (`Lifecycle.NonCanonicalIdMisses`).
- The mode is carried by the button data, not by the stored record. A further
  photo overwrites the pending entry, but the earlier review prompt stays live.
  Its buttons then resolve the newer entry under the old prompt's mode. For
  example, after a photo in manual mode, a switch to auto mode and a second
  photo, the first prompt's approve button sends a single-use invite for the
  second record (`Lifecycle.StaleReviewButton`).
- An action word other than `approve`/`reject` with a valid id still pops the
  pending entry. The entry is then recorded nowhere, and the review prompt
  is deleted.
- The sequence counter is written before the audit send is tried. It moves
  on every approval, whatever the send's outcome. So `seqNo` always equals
  the number of approved records (`Lifecycle.Valid`).

## Model

| member | source | states |
|---|---|---|
| `PyText.IntToString` | abj.py:142 | `str(n)`, as used for the pending key at abj.py:142 and the gate at abj.py:113; no contract of its own, its meaning is fixed by `NatToDigits`, `ParseIntOfIntToString` and `IntToStringInjective` |
| `PyText.ParseInt` | abj.py:178 | `int(s)`, as at abj.py:178 and abj.py:114: `None` where Python raises `ValueError`; no contract of its own, its meaning is fixed by `ParseIntOfIntToString`, `LeadingSeparatorRejected` and the three accepted-text lemmas below |
| `PyText.LeadingSeparatorRejected` | abj.py:178 | `int()` rejects a text that starts with an ASCII separator U+001C to U+001F, whatever follows |
| `PyText.SignedTextAccepted` | abj.py:178 | `int("+12") == 12` |
| `PyText.UnderscoreTextAccepted` | abj.py:178 | `int("1_2") == 12` |
| `PyText.PaddedTextAccepted` | abj.py:178 | `int(" 12\n") == 12` |
| `PyText.ParseIntOfIntToString` | abj.py:113-114 | `int(str(n)) == n` for every integer, so the gate's `int(user_id)` recovers the user's id |
| `PyText.IntToStringInjective` | abj.py:142-145 | `str` is injective on integers: distinct users get distinct pending keys |
| `PyText.NatToDigits` | abj.py:142 | `str` of a natural is a non-empty run of decimal digits with no leading zero |
| `PySplit.Split` | abj.py:177 | `s.split(sep, k)` yields between 1 and k + 1 parts; `SplitJoin`, `SplitCount` and `SplitThreeParts` fix the parts themselves |
| `PySplit.SplitJoin` | abj.py:177 | joining the parts of `split(sep, k)` with `sep` gives back the input |
| `PySplit.IndexOfFirst` | abj.py:177 | the separator search finds the first occurrence, and finds none exactly when there is none |
| `PySplit.SplitCount` | abj.py:177 | `split(sep, k)` yields `min(k, s.count(sep)) + 1` parts |
| `PySplit.SplitThreeParts` | abj.py:177 | a three-part split is the input cut at its first two separators, and the first two parts contain none |
| `NameRule.FullMatchName` | abj.py:125 | `re.fullmatch(r'[A-Za-z\s]+', name)` succeeds; no contract of its own, its meaning is fixed by `FullMatchNameChars` and `RejectsForeignChar` |
| `NameRule.FullMatchNameChars` | abj.py:125 | `fullmatch('[A-Za-z\s]+')` succeeds exactly on non-empty strings of ASCII letters and Python whitespace |
| `NameRule.RejectsForeignChar` | abj.py:125-127 | one character outside the class anywhere makes the name invalid |
| `CallbackToken.MakeToken` | abj.py:155-160 | the button data `f"{action}_{mode}_{user.id}"`; no contract of its own, its meaning is fixed by `TokenRoundTrip` and `MakeTokenInjective` |
| `CallbackToken.ParseToken` | abj.py:177-178 | the three-way unpacking of `split("_", 2)` and `int()` of the id part, `None` where either raises `ValueError`; no contract of its own, its meaning is fixed by `ParseTokenOfParts`, `ParsedTokenLayout`, `FewUnderscoresMalformed` and `SeparatorIdMalformed` |
| `CallbackToken.TokenRoundTrip` | abj.py:155-160 | data built as `f"{approve,reject}_{manual,auto}_{id}"` parses back to the same action, mode and id, with id text `str(id)` |
| `CallbackToken.MakeTokenInjective` | abj.py:155-160 | the four buttons of different submissions never carry the same data |
| `CallbackToken.ParseTokenOfParts` | abj.py:177-178 | for words without `_` and an id text `int()` accepts, `a_m_t` parses to exactly those pieces |
| `CallbackToken.ParsedTokenLayout` | abj.py:177-178 | every accepted data string has the layout `a_m_t` with `_`-free `a`, `m` and `int(t)` defined (converse of the above) |
| `CallbackToken.SeparatorIdMalformed` | abj.py:176-181 | an id part starting with an ASCII separator U+001C to U+001F makes the token malformed, since `int()` does not strip it |
| `CallbackToken.FewUnderscoresMalformed` | abj.py:176-181 | data with fewer than two underscores is malformed (unpacking raises `ValueError`) |
| `Lifecycle.IsApproved` | abj.py:114 | the `any(user['user_id'] == int(user_id) ...)` gate over the approved records; no contract of its own, `BotCore.Bot.IsApprovedUser` computes it by a loop |
| `Lifecycle.StartPayment` | abj.py:112-121 | the state is unchanged; the result is END iff the user is in the approved records or `str(id)` is pending, with the matching reply; otherwise GET_NAME |
| `Lifecycle.GetName` | abj.py:123-131 | advances to GET_SEX iff the text is non-empty letters/whitespace, then storing `full_name` for that user only; otherwise stays in GET_NAME with the state unchanged |
| `Lifecycle.GetSex` | abj.py:133-138 | stores the button's data as `sex` for that user only and moves to GET_PHOTO |
| `Lifecycle.UsernameField` | abj.py:144 | `"@" + username` when the username is set and non-empty, else `"Not set"` |
| `Lifecycle.NewSubmission` | abj.py:143-144 | the stored record: name and sex from the draft with `"N/A"` defaults, the username field, the last photo; no contract of its own, `GetPhoto` states what is stored |
| `Lifecycle.GetPhoto` | abj.py:140-163 | exactly key `str(id)` is added or overwritten and all other keys and stores are unchanged; the record takes `N/A` defaults, the username rule and the last photo variant; the review buttons carry the mode read now; auto mode also prompts the user to request joining; no conversation state is returned; the invariant is kept |
| `Lifecycle.Cancel` | abj.py:166-169 | clears that user's conversation data only and ends |
| `Lifecycle.ToggleMode` | abj.py:88-93 | a non-administrator changes nothing and gets no reply; the administrator flips the mode and nothing else |
| `Lifecycle.DecisionEffects` | abj.py:189-230 | for approvals the audit log, with its ordinal, comes first and nowhere else; an approval yields one or two audit effects plus one notice for mode manual/auto, a rejection one notice for manual/auto and none otherwise; the admin hears of a failed audit send iff it failed; an invite goes out iff approve+manual and delivered; confirmation iff approve+auto; the two rejection notices iff reject+manual/auto; nothing for other actions |
| `Lifecycle.Record` | abj.py:211-226 | approve appends to approved and moves the counter by one; reject appends to rejected and leaves the counter; any other action records nothing |
| `Lifecycle.Resolve` | abj.py:183-232 | an id text that is not pending changes nothing and reports "already taken"; otherwise exactly that key is removed, the entry is recorded per action, the notices follow `DecisionEffects` with ordinal counter + 1 between the answer and the prompt deletion, and the invariant is kept |
| `Lifecycle.ButtonHandler` | abj.py:172-232 | the query is answered; malformed data changes nothing else; well-formed data is resolved under its raw id text; the invariant is kept |
| `Lifecycle.InitialValid` | abj.py:191-192 | the empty store with counter 0 satisfies the invariant |
| `Lifecycle.AtMostOnePendingPerUser` | abj.py:145 | under the invariant, two pending keys holding the same user's record are the same key |
| `Lifecycle.ReviewButtonsTargetStoredKey` | abj.py:155-160 | the buttons of a submission pop exactly the key it was stored under |
| `Lifecycle.SeparatorIdIgnored` | abj.py:174-181 | a button whose id part starts with U+001C to U+001F is only answered: the state is unchanged and nothing else is sent |
| `Lifecycle.MalformedDataIgnored` | abj.py:176-181 | data with fewer than two underscores leaves every store and the counter unchanged |
| `Lifecycle.SecondPressChangesNothing` | abj.py:183-186 | pressing the same button again, whatever the foreign calls did, changes nothing and reports "action already taken" |
| `Lifecycle.NonCanonicalIdMisses` | abj.py:177-186 | under the invariant, data whose id part is not `str(id)` finds no pending entry: only the answer and "action already taken", state unchanged |
| `Lifecycle.ResolutionMovesOneEntry` | abj.py:183-226 | a resolution shrinks pending by exactly one, and grows approved plus rejected by one for approve/reject and by none otherwise |
| `Lifecycle.ToggleTwiceRestores` | abj.py:88-91 | toggling twice restores the whole state |
| `Lifecycle.OwnButtonParses` | abj.py:176-183 | a submission's own button data reaches the pop with the key `str(id)` and the id it was built from |
| `Lifecycle.OwnButtonResolves` | abj.py:177-213 | pressing a submission's own button pops that entry and records it under its action |
| `Lifecycle.DecideOwnSubmission` | abj.py:183-226 | a freshly stored submission decided by its own button leaves pending as it was before the photo minus the key `str(id)` (so an earlier entry of the same user is gone too), and lands in approved (counter +1) or rejected (counter unchanged) |
| `Lifecycle.DecisionFollowsSubmissionMode` | abj.py:153-161 | after a mode toggle, a submission's own approve button follows the mode that button was built with: the invite iff it was manual and delivered, the confirmation iff it was auto |
| `Lifecycle.StaleReviewButton` | abj.py:145-219 | photo in manual mode, toggle to auto, second photo: the first prompt's approve button approves the second record (last photo of the second upload) by the manual path, so an invite iff link creation succeeded and no confirmation |
| `Lifecycle.RejectionRecordsOnlyRejected` | abj.py:225-230 | rejecting a fresh submission records it only as rejected, leaves the counter, sends no invite, and sends the payment notice iff manual |
| `Lifecycle.ManualApprovalOfSubmission` | abj.py:211-221 | approving a fresh manual submission records it, moves the counter by one, and sends the invite iff link creation succeeded |
| `Lifecycle.PhotoStepIgnoresApproval` | abj.py:140-163 | the photo step stores a record even for a user already approved, and returns no conversation state |
| `Lifecycle.JaneDoeConversation` | abj.py:123-138 | "Jane Doe" then "Female" from the initial state: GET_NAME, GET_SEX, GET_PHOTO, with exactly that name and sex stored |
| `Lifecycle.JaneDoeApproved` | abj.py:211-221 | that scenario ends with exactly one approved record, counter 1, an empty pending store and an invite sent |
| `BotCore.Bot.constructor` | abj.py:153 | the bot starts with empty stores, manual mode and counter 0 |
| `BotCore.Bot.IsApprovedUser` | abj.py:114 | the scan finds a record iff some approved record has the user's id |
| `BotCore.Bot.StartPayment` | abj.py:112-121 | result and (unchanged) state as `Lifecycle.StartPayment` |
| `BotCore.Bot.GetName` | abj.py:123-131 | new fields and result as `Lifecycle.GetName` of the old fields |
| `BotCore.Bot.GetSex` | abj.py:133-138 | new fields and result as `Lifecycle.GetSex` of the old fields |
| `BotCore.Bot.GetPhoto` | abj.py:140-163 | new fields and effects as `Lifecycle.GetPhoto`, invariant kept |
| `BotCore.Bot.Cancel` | abj.py:166-169 | new fields and result as `Lifecycle.Cancel` |
| `BotCore.Bot.ToggleMode` | abj.py:88-93 | new fields and effects as `Lifecycle.ToggleMode` for the configured administrator |
| `BotCore.Bot.ButtonHandler` | abj.py:172-232 | new fields and effects as `Lifecycle.ButtonHandler`, invariant kept |
| `BotCore.Bot.Resolve` | abj.py:183-232 | new fields and effects as `Lifecycle.Resolve`, invariant kept |
| `BotCore.Bot.Decide` | abj.py:189-230 | after the pop: the fields become `Lifecycle.Record` of the old ones, the effects `Lifecycle.DecisionEffects` with ordinal old counter + 1 |
| `BotCore.DoublePress` | abj.py:183-186 | on a running bot, the first press of a button has the effects and the state of `Lifecycle.ButtonHandler`; the second press of the same button yields only the answer and "action already taken" |

## Left out

- Telegram calls (`reply_*`, `send_photo`, `send_message`, `edit_message_text`, `delete_message`, `create_chat_invite_link`): they are effect tags. Sends outside a `try` are taken to succeed. In the code, a failing send raises and skips everything after it in the handler. For `query.answer()` (abj.py:135, abj.py:174) and `reply_text` in `cancel_payment` (abj.py:167) that is before any state change, so the state stays as it was. For later sends, such as `send_photo` (abj.py:157, abj.py:161) after the store at abj.py:145, the state change has already happened.
- The admin notice in the `except` of `log_user_to_channel` (abj.py:208) can itself fail. That is not modelled.
- abj.py:162 reads `REQUEST_TO_JOIN_LINK`, which is never defined. As written, the auto-mode join prompt therefore raises `NameError` after the entry is stored and the admin review is sent. The model emits the prompt as the effect `SendJoinRequestPrompt`.
- `ConversationHandler` routing, `main`, async dispatch and logging are framework plumbing. Handler methods return the state the source returns.
- `start`, `show_help`, `show_contact`, `show_demo`, `show_approved_users`, `show_rejected_users`, `get_admin_keyboard`, all message texts and keyboards: UI only.
- Environment configuration: the administrator id is the constructor's parameter. The bot token and the channel ids are not modelled.
- `PyText.ParseInt` accepts ASCII decimal digits only. Python's `int()` also accepts other Unicode decimal digits, and in recent versions it refuses inputs over 4300 digits. Telegram callback data is at most 64 bytes, so the limit cannot be reached.
- Callback queries without data (`query.data` is `None`) raise `AttributeError` in the source. The model takes the data as a string.
- Concurrent dispatch: the model runs one handler at a time.
