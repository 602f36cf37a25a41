/**
 * The `/chat` turn: the session-opening command, the empty-message error,
 * the one-step "offer tips" state machine, fact extraction, the reply, the
 * history writes and the detection of a tips offer in the reply.
 */
module Dialogue {
  import opened Wrappers
  import opened Text
  import opened Profiles
  import opened Memory
  import opened Extraction
  import opened Engine

  /** The value `pending_action` holds while an offer of tips awaits an answer. */
  const OfferTips: string := "offer_tips"

  /** The answers (after stripping and lower-casing) taken as accepting the offer. */
  const AffirmativeResponses: set<string> := {"sure", "yes", "ok", "okay", "fine", "yep", "please", "yes please"}

  /** The phrases whose presence in the lower-cased reply mark it as an offer of tips. */
  const OfferKeyword1: string := "would you like tips"
  const OfferKeyword2: string := "improve your pension?"
  const OfferKeyword3: string := "boost your pension?"

  /** The fixed reply given when an offer of tips is accepted. */
  const TipsReply: string :=
    "Great! Here are a few common "
    + "ways people in Ireland can look "
    + "into boosting their State Pension:\n\n"
    + "1.  **Keep Contributing:** Working "
    + "and paying PRSI for the full "
    + "40 years generally leads to "
    + "the maximum pension.\n"
    + "2.  **Check for Gaps & Voluntary "
    + "Contributions:** If you have "
    + "gaps in your record (e.g., time "
    + "abroad or not working), see "
    + "if you're eligible to make voluntary"
    + " contributions to fill them. "
    + "You can check this on MyWelfare.ie.\n"
    + "3.  **Look into Credits:** Certain "
    + "periods, like time spent caring "
    + "for children or incapacitated "
    + "individuals (HomeCaring Periods), "
    + "or receiving some social welfare "
    + "payments, might entitle you "
    + "to credits that count towards "
    + "your pension.\n\n"
    + "Does that make sense? It's always "
    + "best to check your personal "
    + "record on MyWelfare.ie or consult "
    + "with Citizens Information or "
    + "a financial advisor for advice "
    + "tailored to you."

  /** The reply used when the engine raises. */
  const ChatApology: string :=
    "I'm sorry, I encountered a technical"
    + " issue trying to process that. "
    + "Could you try rephrasing?"

  /** A `POST /chat` body; `tone` defaults to "". */
  datatype Request = Request(userId: string, message: string, tone: string)

  /** `{"response": ...}`, or the 400 "Message cannot be empty" error. */
  datatype Response = Reply(text: string) | BadRequest

  /** A turn's response, the store after it, and the request sent to the model, if one was. */
  datatype Turn = Turn(response: Response, store: Store, sent: Option<seq<Message>>)

  /** The user has a profile with the pending column, holding the tips offer. */
  predicate AwaitingTips(profile: Option<Profile>) {
    profile.Some? && profile.value.hasPendingAttr && profile.value.pendingAction == Some(OfferTips)
  }

  /** The `pending_action` value `save_user_profile` would see for the user. */
  function PendingOf(st: Store, uid: string): Option<string> {
    RowFor(st, uid).pendingAction
  }

  /** The lower-cased reply contains one of the offer phrases. */
  predicate OffersTips(reply: string) {
    var lower := Lower(reply);
    Contains(lower, OfferKeyword1) || Contains(lower, OfferKeyword2) || Contains(lower, OfferKeyword3)
  }

  /** The user's message, then the reply unless it is empty, appended to the history. */
  function Record(st: Store, uid: string, msg: string, reply: string): (r: Store)
    ensures r.profiles == st.profiles && r.names == st.names && r.pendingColumn == st.pendingColumn
    ensures uid != "" && msg != "" && reply != "" ==> r.log == st.log + [Entry(uid, "user", msg), Entry(uid, "assistant", reply)]
    ensures uid != "" && msg != "" && reply == "" ==> r.log == st.log + [Entry(uid, "user", msg)]
    ensures uid == "" ==> r.log == st.log
    ensures st.log <= r.log
  {
    var s := SaveChatMessage(st, uid, "user", msg);
    if reply != "" then SaveChatMessage(s, uid, "assistant", reply) else s
  }

  /** Sets the pending offer when the re-read profile has the column and the reply offers tips. */
  function MarkOffer(st: Store, uid: string, profile: Option<Profile>, reply: string): (r: Store)
    ensures ValidStore(st) ==> ValidStore(r)
    ensures r.log == st.log && r.names == st.names && r.pendingColumn == st.pendingColumn
    ensures forall u :: u != uid ==> GetUserProfile(r, u) == GetUserProfile(st, u)
  {
    if profile.Some? && profile.value.hasPendingAttr && OffersTips(reply)
    then SaveUserProfile(st, uid, SetPendingAction(Some(OfferTips)))
    else st
  }

  /** The reply of the standard flow: the engine's answer, or the apology when it raised. */
  function ReplyText(outcome: EngineResult): (reply: string)
    ensures outcome.Answered? ==> reply == outcome.reply
    ensures outcome.Raised? ==> reply == ChatApology
  {
    if outcome.Answered? then outcome.reply else ChatApology
  }

  /** The pending offer is "cleared": on an existing row a save of `None` is a no-op. */
  function ClearOffer(st: Store, uid: string): (r: Store)
    requires AwaitingTips(GetUserProfile(st, uid))
    ensures r == st
  {
    SaveUserProfile(st, uid, SetPendingAction(None))
  }

  /** The direct tips reply: the user's answer and the tips are stored, the model is not asked. */
  function AcceptOffer(st: Store, uid: string, msg: string): (t: Turn)
    ensures t.response == Reply(TipsReply) && t.sent == None
    ensures t.store == Record(st, uid, msg, TipsReply)
    ensures t.store.profiles == st.profiles && t.store.names == st.names && t.store.pendingColumn == st.pendingColumn
    ensures st.log <= t.store.log
    ensures ValidStore(st) ==> ValidStore(t.store)
    ensures forall u :: GetUserProfile(t.store, u) == GetUserProfile(st, u) && PendingOf(t.store, u) == PendingOf(st, u)
  {
    var r := Record(st, uid, msg, TipsReply);
    SameTables(r, st);
    Turn(Reply(TipsReply), r, None)
  }

  /** Two stores with the same profile table and attribute set agree on every profile read. */
  lemma SameTables(a: Store, b: Store)
    requires a.profiles == b.profiles && a.pendingColumn == b.pendingColumn
    ensures ValidStore(a) == ValidStore(b)
    ensures forall u :: GetUserProfile(a, u) == GetUserProfile(b, u) && PendingOf(a, u) == PendingOf(b, u)
  {
  }

  /**
   * The end of the standard flow, on the store `extracted` left by extraction
   * and the engine's `outcome`: the reply (or the apology) is stored after
   * the message, then the offer detection runs on the re-read profile.
   */
  function Conclude(extracted: Store, uid: string, msg: string, outcome: EngineResult): (t: Turn)
    ensures ValidStore(extracted) ==> ValidStore(t.store)
    ensures t.store.names == extracted.names && t.store.pendingColumn == extracted.pendingColumn
    ensures extracted.log <= t.store.log
    ensures forall u :: u != uid ==> GetUserProfile(t.store, u) == GetUserProfile(extracted, u)
    ensures t == Turn(Reply(ReplyText(outcome)), t.store, if outcome.Answered? then outcome.sent else None)
  {
    var reply := ReplyText(outcome);
    var recorded := Record(extracted, uid, msg, reply);
    Turn(Reply(reply), MarkOffer(recorded, uid, GetUserProfile(extracted, uid), reply), if outcome.Answered? then outcome.sent else None)
  }

  /** The standard flow: `extract_user_data` on the message, then the reply. */
  function StandardFlow(st: Store, uid: string, msg: string, tone: string, complete: seq<Message> -> Completion): (t: Turn)
    ensures ValidStore(st) ==> ValidStore(t.store)
    ensures t.store.names == st.names && t.store.pendingColumn == st.pendingColumn
    ensures st.log <= t.store.log
    ensures forall u :: u != uid ==> GetUserProfile(t.store, u) == GetUserProfile(st, u)
    ensures t.response.Reply?
  {
    var extracted := ExtractInto(st, uid, msg);
    Conclude(extracted, uid, msg, EngineReply(extracted, uid, msg, tone, complete))
  }

  /**
   * A non-empty message other than the session-opening command: a pending
   * offer is "cleared" (a save of `None`, which changes nothing), an
   * affirmative answer to it gets the fixed tips, and any other message goes
   * through the standard flow.
   */
  function Respond(st: Store, uid: string, msg: string, tone: string, complete: seq<Message> -> Completion): (t: Turn)
    ensures ValidStore(st) ==> ValidStore(t.store)
    ensures t.store.names == st.names && t.store.pendingColumn == st.pendingColumn
    ensures st.log <= t.store.log
    ensures forall u :: u != uid ==> GetUserProfile(t.store, u) == GetUserProfile(st, u)
    ensures t.response.Reply?
  {
    if AwaitingTips(GetUserProfile(st, uid)) then
      var cleared := ClearOffer(st, uid);
      if Lower(msg) in AffirmativeResponses then AcceptOffer(cleared, uid, msg)
      else StandardFlow(cleared, uid, msg, tone, complete)
    else StandardFlow(st, uid, msg, tone, complete)
  }

  /**
   * `chat(req)`. The model is the parameter `complete`. The message is
   * stripped; the session-opening command is answered by the engine (with
   * its greeting) and nothing is stored; an empty message is refused; any other message is
   * answered by `Respond`.
   */
  function Chat(st: Store, req: Request, complete: seq<Message> -> Completion): (t: Turn)
    ensures Strip(req.message) == InitCommand ==> t == Turn(Reply(InitGreeting(st, req.userId)), st, None)
    ensures Strip(req.message) == "" ==> t == Turn(BadRequest, st, None)
    ensures t.response.BadRequest? <==> Strip(req.message) == ""
    ensures ValidStore(st) ==> ValidStore(t.store)
    ensures t.store.names == st.names && t.store.pendingColumn == st.pendingColumn
    ensures st.log <= t.store.log
    ensures forall u :: u != req.userId ==> GetUserProfile(t.store, u) == GetUserProfile(st, u)
  {
    var msg := Strip(req.message);
    if msg == InitCommand then Turn(Reply(EngineReply(st, req.userId, msg, req.tone, complete).reply), st, None)
    else if msg == "" then Turn(BadRequest, st, None)
    else Respond(st, req.userId, msg, req.tone, complete)
  }

  // ---------------------------------------------------------------------------
  // Properties of a turn

  /** A stripped message that is an affirmative answer is neither empty nor the session-opening command. */
  lemma AffirmativeIsOrdinary(msg: string)
    requires Lower(msg) in AffirmativeResponses
    ensures msg != "" && msg != InitCommand
  {
  }

  /**
   * The session-opening command is answered with the engine's greeting
   * whatever the model would say: nothing is stored and nothing is sent.
   */
  lemma InitTurn(st: Store, req: Request, complete: seq<Message> -> Completion, other: seq<Message> -> Completion)
    requires Strip(req.message) == InitCommand
    ensures var t := Chat(st, req, complete);
      && t == Chat(st, req, other)
      && t.response == Reply(InitGreeting(st, req.userId))
      && t.store == st && t.sent == None
  {
    StripIdempotent(req.message);
  }


  /**
   * An affirmative answer to a pending offer gets the fixed tips whatever
   * the model would say; the profile table is unchanged (so the offer stays
   * pending), and the answer and the tips are appended to the history.
   */
  lemma AcceptedOffer(st: Store, req: Request, complete: seq<Message> -> Completion, other: seq<Message> -> Completion)
    requires AwaitingTips(GetUserProfile(st, req.userId))
    requires Lower(Strip(req.message)) in AffirmativeResponses
    ensures var t := Chat(st, req, complete);
      && t == Chat(st, req, other)
      && t.response == Reply(TipsReply) && t.sent == None
      && t.store.profiles == st.profiles
      && AwaitingTips(GetUserProfile(t.store, req.userId))
      && (req.userId != "" ==>
            t.store.log == st.log + [Entry(req.userId, "user", Strip(req.message)), Entry(req.userId, "assistant", TipsReply)])
  {
    AffirmativeIsOrdinary(Strip(req.message));
  }

  /** Any other answer to a pending offer takes the standard flow, and the offer stays pending afterwards. */
  lemma DeclinedOffer(st: Store, req: Request, complete: seq<Message> -> Completion)
    requires AwaitingTips(GetUserProfile(st, req.userId))
    requires Strip(req.message) != InitCommand && Strip(req.message) != ""
    requires Lower(Strip(req.message)) !in AffirmativeResponses
    ensures Chat(st, req, complete) == StandardFlow(st, req.userId, Strip(req.message), req.tone, complete)
    ensures AwaitingTips(GetUserProfile(Chat(st, req, complete).store, req.userId))
  {
    StandardKeepsOffer(st, req.userId, Strip(req.message), req.tone, complete);
  }

  /** The standard flow keeps the user's row, with its attribute set. */
  lemma StandardKeepsRow(st: Store, uid: string, msg: string, tone: string, complete: seq<Message> -> Completion)
    requires uid in st.profiles
    ensures var t := StandardFlow(st, uid, msg, tone, complete);
      uid in t.store.profiles && t.store.profiles[uid].hasPendingAttr == st.profiles[uid].hasPendingAttr
  {
  }

  /** A pending offer survives the standard flow. */
  lemma StandardKeepsOffer(st: Store, uid: string, msg: string, tone: string, complete: seq<Message> -> Completion)
    requires AwaitingTips(GetUserProfile(st, uid))
    ensures AwaitingTips(GetUserProfile(StandardFlow(st, uid, msg, tone, complete).store, uid))
  {
    StandardKeepsRow(st, uid, msg, tone, complete);
    StandardPending(st, uid, msg, tone, complete);
  }


  /**
   * The request of the standard flow: the system message is built from the
   * profile as updated by this very message's extraction; the history is the
   * user's rows from before this turn (its own message is not among them);
   * the message itself comes last. The request is sent unless the engine
   * fails before the call, and then nothing is sent.
   */
  lemma StandardRequest(st: Store, uid: string, msg: string, tone: string, complete: seq<Message> -> Completion)
    requires Strip(msg) != InitCommand
    ensures var t := StandardFlow(st, uid, msg, tone, complete);
      var request := ModelRequest(ExtractInto(st, uid, msg), uid, msg, tone);
      && (t.sent.Some? <==> complete(request) != EngineError)
      && (t.sent.Some? ==> t.sent.value == request)
      && |request| >= 2
      && request[0] == Message("system", SystemMessage(tone, FormatUserContext(GetUserProfile(ExtractInto(st, uid, msg), uid))))
      && request[1..|request| - 1] == Forwarded(GetChatHistory(st, uid, ChatHistoryLimit))
      && request[|request| - 1] == Message("user", msg)
  {
    var extracted := ExtractInto(st, uid, msg);
    EngineRequest(extracted, uid, msg, tone);
    HistoryReadsLog(extracted, st, uid, ChatHistoryLimit);
  }

  /** The history read depends on the log alone. */
  lemma HistoryReadsLog(a: Store, b: Store, uid: string, limit: nat)
    requires a.log == b.log
    ensures GetChatHistory(a, uid, limit) == GetChatHistory(b, uid, limit)
  {
  }

  /**
   * The reply of the standard flow: the model's text; the engine's apology
   * when the completion call fails inside the engine; the chat apology, with
   * nothing sent, when the engine raises before the call.
   */
  lemma StandardReply(st: Store, uid: string, msg: string, tone: string, complete: seq<Message> -> Completion)
    requires Strip(msg) != InitCommand
    ensures var t := StandardFlow(st, uid, msg, tone, complete);
      var request := ModelRequest(ExtractInto(st, uid, msg), uid, msg, tone);
      && (complete(request).Completed? ==> t.response == Reply(complete(request).text))
      && (complete(request) == ApiError ==> t.response == Reply(EngineApology))
      && (complete(request) == EngineError ==> t.response == Reply(ChatApology) && t.sent == None)
  {
  }

  /** The standard flow appends the user's message, then the reply unless it is empty, to the history. */
  lemma StandardLog(st: Store, uid: string, msg: string, tone: string, complete: seq<Message> -> Completion)
    requires uid != "" && msg != ""
    ensures var t := StandardFlow(st, uid, msg, tone, complete);
      && t.response.Reply?
      && (t.response.text != "" ==> t.store.log == st.log + [Entry(uid, "user", msg), Entry(uid, "assistant", t.response.text)])
      && (t.response.text == "" ==> t.store.log == st.log + [Entry(uid, "user", msg)])
  {
  }

  /** `Conclude` sets the offer exactly when the profile exists with the column and the reply offers tips, and touches no other column. */
  lemma ConcludePending(s: Store, uid: string, msg: string, outcome: EngineResult)
    ensures var t := Conclude(s, uid, msg, outcome);
      var marks := GetUserProfile(s, uid).Some? && RowFor(s, uid).hasPendingAttr && OffersTips(t.response.text);
      && (marks ==> PendingOf(t.store, uid) == Some(OfferTips))
      && (!marks ==> PendingOf(t.store, uid) == PendingOf(s, uid))
      && (forall f :: f != PendingAction ==> Get(RowFor(t.store, uid), f) == Get(RowFor(s, uid), f))
  {
    var t := Conclude(s, uid, msg, outcome);
    var reply := ReplyText(outcome);
    var recorded := Record(s, uid, msg, reply);
    assert RowFor(recorded, uid) == RowFor(s, uid);
    if GetUserProfile(s, uid).Some? && RowFor(s, uid).hasPendingAttr && OffersTips(reply) {
      assert Get(RowFor(t.store, uid), PendingAction) == Some(Text(OfferTips));
    }
  }

  /**
   * After the standard flow the profile columns are those extraction left,
   * and `pending_action` is set to the offer exactly when the re-read
   * profile exists with the column and the reply offers tips; otherwise it
   * is what it was before the turn.
   */
  lemma StandardPending(st: Store, uid: string, msg: string, tone: string, complete: seq<Message> -> Completion)
    ensures var t, extracted := StandardFlow(st, uid, msg, tone, complete), ExtractInto(st, uid, msg);
      var marks := GetUserProfile(extracted, uid).Some? && RowFor(extracted, uid).hasPendingAttr && OffersTips(t.response.text);
      && (marks ==> PendingOf(t.store, uid) == Some(OfferTips))
      && (!marks ==> PendingOf(t.store, uid) == PendingOf(st, uid))
      && (forall f :: f != PendingAction ==> Get(RowFor(t.store, uid), f) == Get(RowFor(extracted, uid), f))
  {
    var extracted := ExtractInto(st, uid, msg);
    ConcludePending(extracted, uid, msg, EngineReply(extracted, uid, msg, tone, complete));
    ApplyFactsColumns(st, uid, ExtractFacts(msg));
  }

  /**
   * Over any turn, `pending_action` either keeps its value or becomes the
   * offer because the reply offers tips: no turn ever clears a pending
   * offer, and only a reply containing an offer phrase sets one.
   */
  lemma PendingOnlyFromOffer(st: Store, req: Request, complete: seq<Message> -> Completion)
    ensures var t := Chat(st, req, complete);
      || PendingOf(t.store, req.userId) == PendingOf(st, req.userId)
      || (PendingOf(t.store, req.userId) == Some(OfferTips) && t.response.Reply? && OffersTips(t.response.text))
  {
    var msg := Strip(req.message);
    if msg != InitCommand && msg != "" {
      RespondPending(st, req.userId, msg, req.tone, complete);
    }
  }

  /** `Respond` keeps `pending_action`, or sets the offer because the reply offers tips. */
  lemma RespondPending(st: Store, uid: string, msg: string, tone: string, complete: seq<Message> -> Completion)
    ensures var t := Respond(st, uid, msg, tone, complete);
      || PendingOf(t.store, uid) == PendingOf(st, uid)
      || (PendingOf(t.store, uid) == Some(OfferTips) && t.response.Reply? && OffersTips(t.response.text))
  {
    if !(AwaitingTips(GetUserProfile(st, uid)) && Lower(msg) in AffirmativeResponses) {
      StandardPending(st, uid, msg, tone, complete);
    }
  }

  /** A turn writes history rows only for its own user. */
  lemma OtherUsersUntouched(st: Store, req: Request, complete: seq<Message> -> Completion, u: string)
    requires u != req.userId
    ensures GetUserProfile(Chat(st, req, complete).store, u) == GetUserProfile(st, u)
    ensures UserLog(Chat(st, req, complete).store.log, u) == UserLog(st.log, u)
  {
    var uid, msg := req.userId, Strip(req.message);
    if msg != InitCommand && msg != "" {
      var t := Respond(st, uid, msg, req.tone, complete);
      RespondRecords(st, uid, msg, req.tone, complete);
      RecordIsolation(st, uid, msg, t.response.text, u);
    }
  }

  /** `Record` touches no other user's history. */
  lemma RecordIsolation(st: Store, uid: string, msg: string, reply: string, u: string)
    requires u != uid
    ensures UserLog(Record(st, uid, msg, reply).log, u) == UserLog(st.log, u)
  {
    SaveChatMessageIsolation(st, uid, "user", msg, u);
    SaveChatMessageIsolation(SaveChatMessage(st, uid, "user", msg), uid, "assistant", reply, u);
  }

  /** The history `Record` leaves depends on the history alone. */
  lemma RecordReadsLog(a: Store, b: Store, uid: string, msg: string, reply: string)
    requires a.log == b.log
    ensures Record(a, uid, msg, reply).log == Record(b, uid, msg, reply).log
  {
  }

  /** The history after `Respond` is the message and its reply recorded on the history before it. */
  lemma RespondRecords(st: Store, uid: string, msg: string, tone: string, complete: seq<Message> -> Completion)
    ensures var t := Respond(st, uid, msg, tone, complete);
      t.response.Reply? && t.store.log == Record(st, uid, msg, t.response.text).log
  {
    if !(AwaitingTips(GetUserProfile(st, uid)) && Lower(msg) in AffirmativeResponses) {
      var extracted := ExtractInto(st, uid, msg);
      var reply := ReplyText(EngineReply(extracted, uid, msg, tone, complete));
      RecordReadsLog(extracted, st, uid, msg, reply);
    }
  }


  /**
   * Two turns: a user with a stored profile (and the pending column) gets a
   * reply offering tips, then answers "yes" in any case and spacing: the
   * second turn gets the fixed tips without asking the model, and the offer
   * is still pending after it.
   */
  lemma OfferThenAccept(st: Store, uid: string, first: string, second: string, tone: string,
                        offer: string, complete: seq<Message> -> Completion, later: seq<Message> -> Completion)
    requires uid in st.profiles && st.profiles[uid].hasPendingAttr
    requires !AwaitingTips(GetUserProfile(st, uid))
    requires Strip(first) != InitCommand && Strip(first) != ""
    requires forall ms :: complete(ms) == Completed(offer)
    requires OffersTips(offer)
    requires Lower(Strip(second)) in AffirmativeResponses
    ensures var t1 := Chat(st, Request(uid, first, tone), complete);
      var t2 := Chat(t1.store, Request(uid, second, tone), later);
      && t1.response == Reply(offer)
      && t2.response == Reply(TipsReply) && t2.sent == None
      && AwaitingTips(GetUserProfile(t2.store, uid))
  {
    var msg := Strip(first);
    var t1 := Chat(st, Request(uid, first, tone), complete);
    assert t1 == StandardFlow(st, uid, msg, tone, complete);
    StandardOffers(st, uid, msg, tone, complete, offer);
    AcceptedOffer(t1.store, Request(uid, second, tone), later, later);
  }

  /** A reply offering tips to a user whose row has the column leaves the offer pending. */
  lemma StandardOffers(st: Store, uid: string, msg: string, tone: string, complete: seq<Message> -> Completion, offer: string)
    requires uid in st.profiles && st.profiles[uid].hasPendingAttr
    requires Strip(msg) != InitCommand
    requires forall ms :: complete(ms) == Completed(offer)
    requires OffersTips(offer)
    ensures var t := StandardFlow(st, uid, msg, tone, complete);
      t.response == Reply(offer) && AwaitingTips(GetUserProfile(t.store, uid))
  {
    StandardReply(st, uid, msg, tone, complete);
    StandardKeepsRow(st, uid, msg, tone, complete);
    StandardPending(st, uid, msg, tone, complete);
    var extracted := ExtractInto(st, uid, msg);
    assert uid in extracted.profiles;
  }


  /**
   * When the profile records have no `pending_action` attribute, no offer is
   * ever pending: the tips shortcut is never taken and every turn leaves the
   * user's `pending_action` unset.
   */
  lemma WithoutColumnNoOffer(st: Store, req: Request, complete: seq<Message> -> Completion)
    requires ValidStore(st) && !st.pendingColumn
    ensures !AwaitingTips(GetUserProfile(st, req.userId))
    ensures PendingOf(Chat(st, req, complete).store, req.userId) == None
  {
    NoColumnNoPending(st, req.userId);
    NoColumnNoPending(Chat(st, req, complete).store, req.userId);
  }

  /** In a valid store without the column, no user has a pending action. */
  lemma NoColumnNoPending(st: Store, uid: string)
    requires ValidStore(st) && !st.pendingColumn
    ensures PendingOf(st, uid) == None && !AwaitingTips(GetUserProfile(st, uid))
  {
    if uid in st.profiles {
      assert Valid(st.profiles[uid]);
    }
  }

}
