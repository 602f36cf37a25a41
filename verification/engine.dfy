/**
 * The reply engine: the profile summary handed to the model, the tone
 * table, the session-opening greeting, the ordered message list and the
 * fallback when the completion call fails.
 */
module Engine {
  import opened Wrappers
  import opened Text
  import opened Profiles
  import opened Memory

  /** How many history rows are read for one reply. */
  const ChatHistoryLimit: nat := 10

  /** The message that opens a session instead of carrying user text. */
  const InitCommand: string := "__INIT__"

  const NoProfileContext: string := "User Profile: No profile information" + " stored yet."
  const NoDetailsContext: string := "User Profile: No specific details " + "stored in profile yet."
  const SummaryPrefix: string := "User Profile Summary: "

  /** The reply used when the completion call raises. */
  const EngineApology: string :=
    "I'm sorry, but I encountered "
    + "a technical difficulty while "
    + "processing your request. Please "
    + "try again in a few moments."

  /**
   * The fixed system prompt, cut at its two `{{tone_instruction}}`
   * placeholders. Its wording is not modelled: only where the tone goes.
   */
  const PromptSegments: seq<string> := ["<system prompt, part 1>", "<system prompt, part 2>", "<system prompt, part 3>"]

  // ---------------------------------------------------------------------------
  // Profile summary

  /** One entry of the profile summary. */
  datatype Part =
    | RegionPart(region: string)
    | AgePart(age: int)
    | IncomePart(symbol: char, income: int)
    | RetirementPart(retirementAge: int)
    | RiskPart(riskProfile: string)
    | PrsiPart(prsiYears: int)

  /** The position a part takes in the summary. */
  function Rank(p: Part): nat {
    match p
    case RegionPart(_) => 0
    case AgePart(_) => 1
    case IncomePart(_, _) => 2
    case RetirementPart(_) => 3
    case RiskPart(_) => 4
    case PrsiPart(_) => 5
  }

  function Render(p: Part): string {
    match p
    case RegionPart(r) => "Region: " + r
    case AgePart(a) => "Age: " + IntToString(a)
    case IncomePart(c, n) => "Income: " + [c] + Thousands(n)
    case RetirementPart(a) => "Desired Retirement Age: " + IntToString(a)
    case RiskPart(r) => "Risk Tolerance: " + r
    case PrsiPart(y) => "PRSI Contribution Years: " + IntToString(y)
  }

  /** Python truthiness of a nullable text column: set and non-empty. */
  predicate TruthyText(v: Option<string>) {
    v.Some? && v.value != ""
  }

  /** Python truthiness of a nullable number column: set and non-zero. */
  predicate TruthyNumber(v: Option<int>) {
    v.Some? && v.value != 0
  }

  /** The income currency: pounds for the UK, euros for every other region, unset included. */
  function CurrencySymbol(region: Option<string>): (c: char)
    ensures c == '£' <==> region == Some("UK")
    ensures c == '€' <==> region != Some("UK")
  {
    if region == Some("UK") then '£' else '€'
  }

  /** The six candidate parts, the one of rank `k` at index `k`, present when `format_user_context` includes it. */
  function Candidates(p: Profile): (cs: seq<Option<Part>>)
    ensures |cs| == 6
    ensures forall k :: 0 <= k < 6 && cs[k].Some? ==> Rank(cs[k].value) == k
  {
    [ if TruthyText(p.region) then Some(RegionPart(p.region.value)) else None,
      if TruthyNumber(p.age) then Some(AgePart(p.age.value)) else None,
      if TruthyNumber(p.income) then Some(IncomePart(CurrencySymbol(p.region), p.income.value)) else None,
      if TruthyNumber(p.retirementAge) then Some(RetirementPart(p.retirementAge.value)) else None,
      if TruthyText(p.riskProfile) then Some(RiskPart(p.riskProfile.value)) else None,
      if p.prsiYears.Some? then Some(PrsiPart(p.prsiYears.value)) else None ]
  }

  /** The present candidates from index `i` on, in order. */
  function Present(cs: seq<Option<Part>>, i: nat): (parts: seq<Part>)
    requires i <= |cs|
    ensures |parts| <= |cs| - i
    decreases |cs| - i
  {
    if i == |cs| then []
    else if cs[i].Some? then [cs[i].value] + Present(cs, i + 1)
    else Present(cs, i + 1)
  }

  /** Every present part is the candidate at the index equal to its rank. */
  lemma {:induction false} PresentFromCandidates(cs: seq<Option<Part>>, i: nat)
    requires i <= |cs|
    requires forall k :: i <= k < |cs| && cs[k].Some? ==> Rank(cs[k].value) == k
    ensures forall a :: 0 <= a < |Present(cs, i)| ==>
      i <= Rank(Present(cs, i)[a]) < |cs| && cs[Rank(Present(cs, i)[a])] == Some(Present(cs, i)[a])
    decreases |cs| - i
  {
    if i < |cs| {
      PresentFromCandidates(cs, i + 1);
    }
  }

  /** The present parts are in strictly increasing rank. */
  lemma {:induction false} PresentSorted(cs: seq<Option<Part>>, i: nat)
    requires i <= |cs|
    requires forall k :: i <= k < |cs| && cs[k].Some? ==> Rank(cs[k].value) == k
    ensures forall a, b :: 0 <= a < b < |Present(cs, i)| ==> Rank(Present(cs, i)[a]) < Rank(Present(cs, i)[b])
    decreases |cs| - i
  {
    if i < |cs| {
      PresentSorted(cs, i + 1);
      PresentFromCandidates(cs, i + 1);
    }
  }

  /** Every candidate that is there is among the present parts. */
  lemma {:induction false} PresentComplete(cs: seq<Option<Part>>, i: nat, k: nat) returns (a: nat)
    requires i <= k < |cs| && cs[k].Some?
    ensures a < |Present(cs, i)| && Present(cs, i)[a] == cs[k].value
    decreases |cs| - i
  {
    if k == i {
      a := 0;
    } else if cs[i].Some? {
      var b := PresentComplete(cs, i + 1, k);
      a := b + 1;
    } else {
      a := PresentComplete(cs, i + 1, k);
    }
  }

  /** A part carries its profile column's value; the income part also its currency. */
  predicate Agrees(part: Part, p: Profile) {
    match part
    case RegionPart(r) => Some(r) == p.region
    case AgePart(n) => Some(n) == p.age
    case IncomePart(c, n) => Some(n) == p.income && c == CurrencySymbol(p.region)
    case RetirementPart(n) => Some(n) == p.retirementAge
    case RiskPart(r) => Some(r) == p.riskProfile
    case PrsiPart(n) => Some(n) == p.prsiYears
  }

  /** There is a part of rank `r`. */
  predicate HasRank(parts: seq<Part>, r: nat) {
    exists a :: 0 <= a < |parts| && Rank(parts[a]) == r
  }

  /** The entries of the profile summary: the candidates that are there, in rank order. */
  function SummaryParts(p: Profile): seq<Part> {
    Present(Candidates(p), 0)
  }

  /**
   * The entries of the profile summary: region, age, income, retirement age,
   * risk and PRSI years, always in that order; age, income, retirement age
   * and the text columns only when truthy (so 0 and "" are left out), PRSI
   * years whenever set (0 included); each carrying its column's value, the
   * income with the pound sign exactly when the region is "UK".
   */
  lemma SummaryContents(p: Profile)
    ensures var parts := SummaryParts(p);
      && (forall a, b :: 0 <= a < b < |parts| ==> Rank(parts[a]) < Rank(parts[b]))
      && (HasRank(parts, 0) <==> TruthyText(p.region))
      && (HasRank(parts, 1) <==> TruthyNumber(p.age))
      && (HasRank(parts, 2) <==> TruthyNumber(p.income))
      && (HasRank(parts, 3) <==> TruthyNumber(p.retirementAge))
      && (HasRank(parts, 4) <==> TruthyText(p.riskProfile))
      && (HasRank(parts, 5) <==> p.prsiYears.Some?)
      && (forall a :: 0 <= a < |parts| ==> Agrees(parts[a], p))
  {
    var cs := Candidates(p);
    var parts := Present(cs, 0);
    PresentFromCandidates(cs, 0);
    PresentSorted(cs, 0);
    forall r | 0 <= r < 6
      ensures HasRank(parts, r) <==> cs[r].Some?
    {
      if cs[r].Some? {
        var a := PresentComplete(cs, 0, r);
        assert Rank(parts[a]) == r;
      }
    }
  }

  /** The rendered parts, in order. */
  function RenderAll(parts: seq<Part>): (texts: seq<string>)
    ensures |texts| == |parts|
  {
    if parts == [] then [] else [Render(parts[0])] + RenderAll(parts[1..])
  }

  /** `format_user_context(profile)`. */
  function FormatUserContext(profile: Option<Profile>): (r: string)
    ensures profile.None? ==> r == NoProfileContext
    ensures profile.Some? && SummaryParts(profile.value) == [] ==> r == NoDetailsContext
    ensures profile.Some? && SummaryParts(profile.value) != [] ==>
              r == SummaryPrefix + Join(RenderAll(SummaryParts(profile.value)), "; ")
  {
    match profile
    case None => NoProfileContext
    case Some(p) =>
      var parts := SummaryParts(p);
      if parts == [] then NoDetailsContext
      else SummaryPrefix + Join(RenderAll(parts), "; ")
  }

  /**
   * A profile with no truthy column and no PRSI years gives the
   * "no specific details" line; any set column among them gives a summary.
   */
  lemma SummaryEmptyExactly(p: Profile)
    ensures SummaryParts(p) == [] <==>
      !TruthyText(p.region) && !TruthyNumber(p.age) && !TruthyNumber(p.income)
      && !TruthyNumber(p.retirementAge) && !TruthyText(p.riskProfile) && p.prsiYears.None?
  {
    var parts := SummaryParts(p);
    SummaryContents(p);
    if parts != [] {
      assert HasRank(parts, Rank(parts[0]));
    }
  }

  /** The income entry shows the currency, then the amount with thousands separators, which reads back as the stored amount. */
  lemma IncomeLineReadsBack(c: char, n: nat)
    ensures var line := Render(IncomePart(c, n));
      && |line| >= 9 && line[..9] == "Income: " + [c]
      && AllDigits(RemoveChar(line[9..], ','))
      && ParseDigits(RemoveChar(line[9..], ',')) == n
  {
    var line := Render(IncomePart(c, n));
    assert line[9..] == Thousands(n);
    ThousandsReadsBack(n);
  }

  // ---------------------------------------------------------------------------
  // Tone

  /** The five tone codes the engine knows. */
  const ToneCodes: set<string> := {"7", "14", "adult", "pro", "genius"}

  const ToneSeven: string :=
    "Use very simple language, short "
    + "sentences, and relatable examples "
    + "a 7-year-old could understand."
  const ToneFourteen: string :=
    "Explain ideas like you're talking "
    + "to a 14-year-old. Be clear and "
    + "concrete, avoid jargon."
  const ToneAdult: string :=
    "Use plain English suitable for "
    + "an average adult. Assume no "
    + "special knowledge."
  const TonePro: string :=
    "Use financial terminology and "
    + "industry language for a professional"
    + " audience."
  const ToneGenius: string :=
    "Use technical depth and precision "
    + "appropriate for a professor. "
    + "Do not simplify."

  /** The tone table: a fixed instruction per known code, "" (the default voice) for any other. */
  function ToneInstruction(tone: string): (r: string)
    ensures r != "" <==> tone in ToneCodes
  {
    if tone == "7" then ToneSeven
    else if tone == "14" then ToneFourteen
    else if tone == "adult" then ToneAdult
    else if tone == "pro" then TonePro
    else if tone == "genius" then ToneGenius
    else ""
  }

  /** Different known tone codes give different instructions. */
  lemma ToneTableInjective(a: string, b: string)
    requires a in ToneCodes && b in ToneCodes && a != b
    ensures ToneInstruction(a) != ToneInstruction(b)
  {
  }

  /** The prompt with `t` put in at both placeholders, a blank line, then `summary`. */
  function FillPrompt(t: string, summary: string): (r: string)
    ensures OccursAt(r, PromptSegments[0], 0)
    ensures OccursAt(r, t, |PromptSegments[0]|)
    ensures OccursAt(r, PromptSegments[1], |PromptSegments[0]| + |t|)
    ensures OccursAt(r, t, |PromptSegments[0]| + |t| + |PromptSegments[1]|)
    ensures |r| >= |summary| + 2 && r[|r| - |summary|..] == summary
    ensures r[|r| - |summary| - 2..|r| - |summary|] == "\n\n"
  {
    JoinThree(PromptSegments, t);
    TwicePlaces(PromptSegments[0], t, PromptSegments[1], PromptSegments[2] + "\n\n" + summary);
    Join(PromptSegments, t) + "\n\n" + summary
  }

  /**
   * The system message: the prompt with the tone instruction put in at both
   * placeholders, a blank line, then the profile summary.
   */
  function SystemMessage(tone: string, summary: string): (r: string)
    ensures OccursAt(r, PromptSegments[0], 0)
    ensures OccursAt(r, ToneInstruction(tone), |PromptSegments[0]|)
    ensures OccursAt(r, PromptSegments[1], |PromptSegments[0]| + |ToneInstruction(tone)|)
    ensures OccursAt(r, ToneInstruction(tone), |PromptSegments[0]| + |ToneInstruction(tone)| + |PromptSegments[1]|)
    ensures |r| >= |summary| + 2 && r[|r| - |summary|..] == summary
    ensures r[|r| - |summary| - 2..|r| - |summary|] == "\n\n"
  {
    FillPrompt(ToneInstruction(tone), summary)
  }

  // ---------------------------------------------------------------------------
  // Greeting

  /** `user.name if user and user.name else "there"`. */
  function DisplayName(st: Store, uid: string): (name: string)
    ensures name != ""
    ensures uid in st.names && st.names[uid].Some? && st.names[uid].value != "" ==> name == st.names[uid].value
    ensures !(uid in st.names && st.names[uid].Some? && st.names[uid].value != "") ==> name == "there"
  {
    if uid in st.names && st.names[uid].Some? && st.names[uid].value != "" then st.names[uid].value else "there"
  }

  const WelcomeOpening: string := "Welcome back, "
  const WelcomeMiddle: string :=
    "! It's good to see you again. "
    + "Just to refresh, here's what "
    + "I remember: "
  const WelcomeClosing: string := ". How can I assist you today?"
  const NewcomerIntroduction: string :=
    ", I'm Pension Guru, here to "
    + "help with your retirement planning. "
  const RegionQuestion: string :=
    "To get started and give you "
    + "the most relevant information, "
    + "could you let me know if you're "
    + "primarily based in the UK or "
    + "Ireland?"

  /** `a + name + m + c + d`, with `a`, `name`, `c` and `d` found at their places. */
  function Framed(a: string, name: string, m: string, c: string, d: string): (r: string)
    ensures |r| == |a| + |name| + |m| + |c| + |d|
    ensures OccursAt(r, a, 0) && OccursAt(r, name, |a|)
    ensures OccursAt(r, c, |a| + |name| + |m|) && OccursAt(r, d, |a| + |name| + |m| + |c|)
  {
    ConcatPlaces(a, name + m, c, d);
    OccursSplit(a + (name + m) + c + d, name, m, |a|);
    a + (name + m) + c + d
  }

  /**
   * The session-opening reply. A returning user (one with a profile) is
   * welcomed back by name with the profile summary quoted; a new user is
   * greeted and asked for their region.
   */
  function InitGreeting(st: Store, uid: string): (r: string)
    ensures GetUserProfile(st, uid).Some? ==>
      && OccursAt(r, WelcomeOpening, 0)
      && OccursAt(r, DisplayName(st, uid), |WelcomeOpening|)
      && OccursAt(r, FormatUserContext(GetUserProfile(st, uid)), |WelcomeOpening| + |DisplayName(st, uid)| + |WelcomeMiddle|)
    ensures GetUserProfile(st, uid).None? ==>
      && OccursAt(r, "Hello ", 0)
      && OccursAt(r, DisplayName(st, uid), 6)
      && |RegionQuestion| <= |r| && OccursAt(r, RegionQuestion, |r| - |RegionQuestion|)
  {
    var name := DisplayName(st, uid);
    match GetUserProfile(st, uid)
    case Some(p) => Framed(WelcomeOpening, name, WelcomeMiddle, FormatUserContext(Some(p)), WelcomeClosing)
    case None => Framed("Hello ", name, NewcomerIntroduction, [], RegionQuestion)
  }

  // ---------------------------------------------------------------------------
  // Messages sent to the model

  /** One `{"role": ..., "content": ...}` entry of the request. */
  datatype Message = Message(role: string, content: string)

  predicate ForwardedRole(role: string) {
    role == "user" || role == "assistant"
  }

  /** The history rows with role user or assistant, in order; any other role is skipped. */
  function Forwarded(history: seq<Entry>): (ms: seq<Message>)
    ensures |ms| <= |history|
    ensures forall k :: 0 <= k < |ms| ==> ForwardedRole(ms[k].role)
    decreases |history|
  {
    if |history| == 0 then []
    else
      var e := history[0];
      (if ForwardedRole(e.role) then [Message(e.role, e.content)] else []) + Forwarded(history[1..])
  }

  lemma {:induction false} ForwardedConcat(a: seq<Entry>, b: seq<Entry>)
    ensures Forwarded(a + b) == Forwarded(a) + Forwarded(b)
  {
    if |a| == 0 {
      assert a + b == b;
    } else {
      assert (a + b)[1..] == a[1..] + b;
      ForwardedConcat(a[1..], b);
    }
  }

  /** A history whose rows all have a forwarded role is passed on whole and in order. */
  lemma {:induction false} ForwardedKeepsValid(history: seq<Entry>)
    requires forall k :: 0 <= k < |history| ==> ForwardedRole(history[k].role)
    ensures |Forwarded(history)| == |history|
    ensures forall k :: 0 <= k < |history| ==> Forwarded(history)[k] == Message(history[k].role, history[k].content)
  {
    if |history| > 0 {
      ForwardedKeepsValid(history[1..]);
    }
  }

  /** A row with any other role never reaches the model. */
  lemma {:induction false} ForwardedDropsInvalid(history: seq<Entry>, k: nat)
    requires k < |history| && !ForwardedRole(history[k].role)
    ensures Forwarded(history) == Forwarded(history[..k]) + Forwarded(history[k + 1..])
  {
    assert history == history[..k] + ([history[k]] + history[k + 1..]);
    ForwardedConcat(history[..k], [history[k]] + history[k + 1..]);
    ForwardedConcat([history[k]], history[k + 1..]);
    assert Forwarded([history[k]]) == [] + Forwarded([]);
  }

  /** The request: one system entry, the forwarded history, then the user's message. */
  function BuildMessages(system: string, history: seq<Entry>, input: string): (ms: seq<Message>)
    ensures |ms| == |Forwarded(history)| + 2
    ensures ms[0] == Message("system", system)
    ensures ms[|ms| - 1] == Message("user", input)
    ensures ms[1..|ms| - 1] == Forwarded(history)
    ensures forall k :: 1 <= k < |ms| - 1 ==> ms[k].role != "system"
  {
    [Message("system", system)] + Forwarded(history) + [Message("user", input)]
  }

  // ---------------------------------------------------------------------------
  // The reply

  /**
   * What happens to the prepared request, decided by the environment: the
   * model answers with a text; the client call fails (caught by the engine,
   * which answers with its apology); or the engine fails before the call, in
   * the profile, user or history reads or while building the list, and the
   * error escapes to the chat handler with nothing sent.
   */
  datatype Completion = Completed(text: string) | ApiError | EngineError

  /** What `get_gpt_response` produced and the request it sent, if any; or that it raised before sending. */
  datatype EngineResult = Answered(reply: string, sent: Option<seq<Message>>) | Raised

  /**
   * The request for an ordinary input: the system message built from the
   * current profile and tone, the user's recent history rows, the input.
   */
  function ModelRequest(st: Store, uid: string, input: string, tone: string): seq<Message> {
    BuildMessages(SystemMessage(tone, FormatUserContext(GetUserProfile(st, uid))), GetChatHistory(st, uid, ChatHistoryLimit), input)
  }

  /** The engine's result once the completion call for `sent` has had `outcome`. */
  function Answer(outcome: Completion, sent: seq<Message>): (r: EngineResult)
    ensures outcome != EngineError <==> r.Answered?
    ensures r.Answered? ==> r.sent == Some(sent)
    ensures outcome.Completed? ==> r == Answered(outcome.text, Some(sent))
    ensures outcome == ApiError ==> r == Answered(EngineApology, Some(sent))
  {
    match outcome
    case Completed(text) => Answered(text, Some(sent))
    case ApiError => Answered(EngineApology, Some(sent))
    case EngineError => Raised
  }

  /**
   * `get_gpt_response(user_input, user_id, tone)`. The session-opening
   * command is answered with the greeting, with no history read and no
   * request sent; any other input is sent with the system message, the last
   * `ChatHistoryLimit` history rows and the input, and a failed call is
   * answered with the fixed apology. A failure before the call raises, and
   * then nothing was sent.
   */
  function EngineReply(st: Store, uid: string, input: string, tone: string, complete: seq<Message> -> Completion): (r: EngineResult)
    ensures Strip(input) == InitCommand ==> r == Answered(InitGreeting(st, uid), None)
    ensures Strip(input) != InitCommand && complete(ModelRequest(st, uid, input, tone)) != EngineError ==>
      r.Answered? && r.sent == Some(ModelRequest(st, uid, input, tone))
    ensures Strip(input) != InitCommand && complete(ModelRequest(st, uid, input, tone)) == ApiError ==>
      r.Answered? && r.reply == EngineApology
    ensures Strip(input) != InitCommand && complete(ModelRequest(st, uid, input, tone)).Completed? ==>
      r.Answered? && r.reply == complete(ModelRequest(st, uid, input, tone)).text
    ensures Strip(input) != InitCommand && complete(ModelRequest(st, uid, input, tone)) == EngineError ==> r == Raised
  {
    if Strip(input) == InitCommand then Answered(InitGreeting(st, uid), None)
    else
      var messages := ModelRequest(st, uid, input, tone);
      Answer(complete(messages), messages)
  }

  /**
   * The request sent for an ordinary message: the system message built from
   * the current profile and tone, then the user's most recent history rows
   * (at most `ChatHistoryLimit`, oldest first, other roles skipped), then the
   * input.
   */
  lemma EngineRequest(st: Store, uid: string, input: string, tone: string)
    ensures var sent := ModelRequest(st, uid, input, tone);
      && |sent| >= 2
      && sent[0] == Message("system", SystemMessage(tone, FormatUserContext(GetUserProfile(st, uid))))
      && sent[1..|sent| - 1] == Forwarded(GetChatHistory(st, uid, ChatHistoryLimit))
      && sent[|sent| - 1] == Message("user", input)
      && |sent| <= ChatHistoryLimit + 2
  {
  }
}
