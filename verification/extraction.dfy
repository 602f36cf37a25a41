/**
 * `extract_user_data`: the pattern-based fact extractor of the chat handler.
 * Each regular expression is modelled as a deterministic scanner with the
 * same leftmost-match and backtracking outcome as Python's `re.search`,
 * followed by the same post-match range gate.
 */
module Extraction {
  import opened Wrappers
  import opened Text
  import opened Profiles
  import opened Memory

  // ---------------------------------------------------------------------------
  // Scanning helpers

  /** `re.search`: the result at the first position in `[i, n)` where `at` matches. */
  function Leftmost(at: nat -> Option<int>, i: nat, n: nat): (r: Option<int>)
    ensures r.Some? ==> exists j :: i <= j < n && at(j) == r && forall k :: i <= k < j ==> at(k).None?
    ensures r.None? ==> forall k :: i <= k < n ==> at(k).None?
    decreases n - i
  {
    if i >= n then None else if at(i).Some? then at(i) else Leftmost(at, i + 1, n)
  }

  /** End of the maximal digit run starting at `j`. */
  function DigitRunEnd(s: string, j: nat): (e: nat)
    requires j <= |s|
    ensures j <= e <= |s|
    ensures AllDigits(s[j..e])
    ensures e == |s| || !IsDigit(s[e])
    decreases |s| - j
  {
    if j < |s| && IsDigit(s[j]) then DigitRunEnd(s, j + 1) else j
  }

  /** End of the maximal run of whitespace starting at `j` (greedy `\s*`). */
  function SkipSpaces(s: string, j: nat): (e: nat)
    requires j <= |s|
    ensures j <= e <= |s|
    ensures forall k :: j <= k < e ==> IsSpace(s[k])
    ensures e == |s| || !IsSpace(s[e])
    decreases |s| - j
  {
    if j < |s| && IsSpace(s[j]) then SkipSpaces(s, j + 1) else j
  }

  /** The number written by two digits at `i`. */
  function TwoDigitValue(s: string, i: nat): (v: nat)
    requires i + 2 <= |s| && IsDigit(s[i]) && IsDigit(s[i + 1])
    ensures v < 100
  {
    DigitValue(s[i]) * 10 + DigitValue(s[i + 1])
  }

  // ---------------------------------------------------------------------------
  // Region and risk: substring tests on the lower-cased message

  /** "ireland" wins over "uk" / "united kingdom"; no mention, no write. */
  function RegionMention(lower: string): Option<string> {
    if Contains(lower, "ireland") then Some("Ireland")
    else if Contains(lower, "uk") || Contains(lower, "united kingdom") then Some("UK")
    else None
  }

  /** Only when "risk" occurs: "low" wins over "high", which wins over "medium"/"moderate". */
  function RiskMention(lower: string): Option<string> {
    if !Contains(lower, "risk") then None
    else if Contains(lower, "low") then Some("Low")
    else if Contains(lower, "high") then Some("High")
    else if Contains(lower, "medium") || Contains(lower, "moderate") then Some("Medium")
    else None
  }

  // ---------------------------------------------------------------------------
  // Age: \b(\d{1,2})\s*(?:years?)?\s*old\b

  /** `\s*(?:years?)?\s*old\b` starting at `j`. */
  predicate OldTail(s: string, j: nat)
    requires j <= |s|
  {
    var j1 := SkipSpaces(s, j);
    var j2 := if OccursAt(s, "years", j1) then j1 + 5 else if OccursAt(s, "year", j1) then j1 + 4 else j1;
    var j3 := SkipSpaces(s, j2);
    OccursAt(s, "old", j3) && Boundary(s, j3 + 3)
  }

  /** The age pattern matched at position `i`, two digits tried before one. */
  function AgeAt(s: string, i: nat): (r: Option<int>)
    ensures r.Some? ==> 0 <= r.value < 100
  {
    if i < |s| && IsDigit(s[i]) && Boundary(s, i) then
      if i + 1 < |s| && IsDigit(s[i + 1]) && OldTail(s, i + 2) then Some(TwoDigitValue(s, i))
      else if OldTail(s, i + 1) then Some(DigitValue(s[i]))
      else None
    else None
  }

  function AgeMatch(lower: string): Option<int> {
    Leftmost((i: nat) => AgeAt(lower, i), 0, |lower|)
  }

  // ---------------------------------------------------------------------------
  // Income: (?:€|£)\s?(\d+)\s?([kK]?)\b on the message with commas removed

  predicate IsCurrency(c: char) {
    c == '€' || c == '£'
  }

  predicate IsK(c: char) {
    c == 'k' || c == 'K'
  }

  /** What follows the digit run ending at `e` with value `v`: `\s?([kK]?)\b`, with backtracking. */
  function IncomeSuffix(t: string, e: nat, v: nat): (r: Option<int>)
    requires 0 < e <= |t| && IsDigit(t[e - 1])
    ensures r.Some? ==> r.value == v || r.value == v * 1000
  {
    if e < |t| && IsSpace(t[e]) then
      if e + 1 < |t| && IsK(t[e + 1]) && Boundary(t, e + 2) then Some(v * 1000) else Some(v)
    else if e < |t| && IsK(t[e]) then
      if Boundary(t, e + 1) then Some(v * 1000) else None
    else if Boundary(t, e) then Some(v)
    else None
  }

  /**
   * The income pattern at position `i`. With `leadingBoundary` the pattern
   * starts with `\b` as the code writes it: since the currency symbol is
   * not a word character, that demands a word character right before it.
   */
  function IncomeAtWith(t: string, i: nat, leadingBoundary: bool): (r: Option<int>)
    ensures r.Some? ==> r.value >= 0
    ensures r.Some? ==> i < |t| && IsCurrency(t[i])
    ensures r.Some? && leadingBoundary ==> i > 0 && IsWordChar(t[i - 1])
  {
    if i < |t| && IsCurrency(t[i]) && (!leadingBoundary || Boundary(t, i)) then
      var d := if i + 1 < |t| && IsSpace(t[i + 1]) then i + 2 else i + 1;
      if d < |t| && IsDigit(t[d]) then
        var e := DigitRunEnd(t, d);
        IncomeSuffix(t, e, ParseDigits(t[d..e]))
      else None
    else None
  }

  /** The income pattern as written, `\b` before the currency symbol included. */
  function IncomeMatchAsWritten(msg: string): Option<int> {
    var t := RemoveChar(msg, ',');
    Leftmost((i: nat) => IncomeAtWith(t, i, true), 0, |t|)
  }

  /** The income pattern as evidently intended: a currency symbol anywhere. */
  function IncomeMatch(msg: string): Option<int> {
    var t := RemoveChar(msg, ',');
    Leftmost((i: nat) => IncomeAtWith(t, i, false), 0, |t|)
  }

  // ---------------------------------------------------------------------------
  // Retirement age: \b(?:retire|retirement)\b.*?\b(\d{2})\b

  /** End of the keyword `retire` or `retirement` standing as a whole word at `i`. */
  function RetireKeywordEnd(s: string, i: nat): (r: Option<nat>)
    ensures r.Some? ==> i < r.value <= |s|
    ensures r.Some? ==> Boundary(s, i) && Boundary(s, r.value)
    ensures r.Some? ==> (OccursAt(s, "retire", i) && r.value == i + 6) || (OccursAt(s, "retirement", i) && r.value == i + 10)
    ensures OccursAt(s, "retire", i) && Boundary(s, i) && Boundary(s, i + 6) ==> r == Some(i + 6)
  {
    if OccursAt(s, "retire", i) && Boundary(s, i) && Boundary(s, i + 6) then Some(i + 6)
    else if OccursAt(s, "retirement", i) && Boundary(s, i) && Boundary(s, i + 10) then Some(i + 10)
    else None
  }

  /** Exactly two digits standing alone at `j`: `\b\d{2}\b`. */
  predicate TwoDigitsAt(s: string, j: nat) {
    j + 2 <= |s| && IsDigit(s[j]) && IsDigit(s[j + 1]) && Boundary(s, j) && Boundary(s, j + 2)
  }

  /** `.*?\b(\d{2})\b` from `j`: the first standalone two-digit number before the next newline. */
  function LazyTwoDigits(s: string, j: nat): (r: Option<int>)
    requires j <= |s|
    ensures r.Some? ==> 0 <= r.value < 100
    ensures r.Some? ==>
      exists k :: j <= k < |s| && TwoDigitsAt(s, k) && r.value == TwoDigitValue(s, k) &&
        (forall m :: j <= m < k ==> s[m] != '\n' && !TwoDigitsAt(s, m))
    ensures r.None? ==> forall m :: j <= m < |s| && TwoDigitsAt(s, m) ==> exists q :: j <= q < m && s[q] == '\n'
    decreases |s| - j
  {
    if TwoDigitsAt(s, j) then Some(TwoDigitValue(s, j))
    else if j < |s| && s[j] != '\n' then LazyTwoDigits(s, j + 1)
    else None
  }

  function RetirementAt(s: string, i: nat): (r: Option<int>)
    ensures r.Some? ==> 0 <= r.value < 100
  {
    match RetireKeywordEnd(s, i)
    case None => None
    case Some(e) => LazyTwoDigits(s, e)
  }

  function RetirementMatch(lower: string): Option<int> {
    Leftmost((i: nat) => RetirementAt(lower, i), 0, |lower|)
  }

  // ---------------------------------------------------------------------------
  // PRSI years: (\d{1,2})\s+(?:years?|yrs?)\s+(?:of\s+)?(?:prsi|contributions?)

  /** End of `years?|yrs?` at `j`, the longer spelling first. */
  function UnitEnd(s: string, j: nat): (r: Option<nat>)
    ensures r.Some? ==> j < r.value <= |s| && s[j] == 'y'
  {
    if OccursAt(s, "years", j) then Some(j + 5)
    else if OccursAt(s, "year", j) then Some(j + 4)
    else if OccursAt(s, "yrs", j) then Some(j + 3)
    else if OccursAt(s, "yr", j) then Some(j + 2)
    else None
  }

  predicate PrsiKeyword(s: string, j: nat) {
    OccursAt(s, "prsi", j) || OccursAt(s, "contribution", j)
  }

  /** `\s+(?:years?|yrs?)\s+(?:of\s+)?(?:prsi|contributions?)` starting at `j`. */
  predicate PrsiTail(s: string, j: nat)
    requires j <= |s|
  {
    var j1 := SkipSpaces(s, j);
    j1 > j &&
    match UnitEnd(s, j1)
    case None => false
    case Some(j2) =>
      var j3 := SkipSpaces(s, j2);
      j3 > j2 &&
      ((OccursAt(s, "of", j3) && SkipSpaces(s, j3 + 2) > j3 + 2 && PrsiKeyword(s, SkipSpaces(s, j3 + 2)))
       || PrsiKeyword(s, j3))
  }

  /** The PRSI pattern at `i`; it has no leading `\b`, so it may start inside a longer number. */
  function PrsiAt(s: string, i: nat): (r: Option<int>)
    ensures r.Some? ==> 0 <= r.value < 100
  {
    if i < |s| && IsDigit(s[i]) then
      if i + 1 < |s| && IsDigit(s[i + 1]) && PrsiTail(s, i + 2) then Some(TwoDigitValue(s, i))
      else if PrsiTail(s, i + 1) then Some(DigitValue(s[i]))
      else None
    else None
  }

  function PrsiMatch(lower: string): Option<int> {
    Leftmost((i: nat) => PrsiAt(lower, i), 0, |lower|)
  }

  /** `re.fullmatch(r"\d{1,2}", msg.strip())`, with the number it spells. */
  function BareNumber(msg: string): (r: Option<int>)
    ensures r.Some? <==> 1 <= |Strip(msg)| <= 2 && AllDigits(Strip(msg))
    ensures r.Some? ==> r.value == ParseDigits(Strip(msg))
    ensures r.Some? ==> 0 <= r.value < 100
  {
    var s := Strip(msg);
    if 1 <= |s| <= 2 && AllDigits(s) then
      ShortNumberValue(s, 0, s);
      Some(if |s| == 1 then DigitValue(s[0]) else TwoDigitValue(s, 0))
    else None
  }

  // ---------------------------------------------------------------------------
  // The extractor

  /** The facts one message yields, one optional value per profile column. */
  datatype Facts = Facts(
    region: Option<string>,
    age: Option<int>,
    income: Option<int>,
    retirementAge: Option<int>,
    riskProfile: Option<string>,
    prsiYears: Option<int>)

  /** The fact found for a column, as a stored value; never one for `pending_action`. */
  function FactFor(facts: Facts, f: FieldName): Option<Value> {
    match f
    case Region => TextValue(facts.region)
    case Age => NumberValue(facts.age)
    case Income => NumberValue(facts.income)
    case RetirementAge => NumberValue(facts.retirementAge)
    case RiskProfile => TextValue(facts.riskProfile)
    case PrsiYears => NumberValue(facts.prsiYears)
    case PendingAction => None
  }

  /** The PRSI rule: an explicit "N years of PRSI" wins, unchecked; else a bare number up to 60. */
  function PrsiYearsFrom(lower: string, msg: string): Option<int> {
    var explicit := PrsiMatch(lower);
    if explicit.Some? then explicit
    else
      var bare := BareNumber(msg);
      if bare.Some? && 0 <= bare.value <= 60 then bare else None
  }

  /** A value kept only when it lies in `[lo, hi]`. */
  function Gate(v: Option<int>, lo: int, hi: int): (r: Option<int>)
    ensures r.Some? <==> v.Some? && lo <= v.value <= hi
    ensures r.Some? ==> r == v
  {
    if v.Some? && lo <= v.value <= hi then v else None
  }

  /** What `extract_user_data(user_id, msg)` finds in `msg`; every value it keeps passed its gate. */
  function ExtractFacts(msg: string): (facts: Facts)
    ensures facts.region.Some? ==> facts.region.value in {"Ireland", "UK"}
    ensures facts.age.Some? ==> 18 <= facts.age.value <= 100
    ensures facts.income.Some? ==> facts.income.value >= 0
    ensures facts.retirementAge.Some? ==> 50 <= facts.retirementAge.value <= 80
    ensures facts.riskProfile.Some? ==> facts.riskProfile.value in {"Low", "High", "Medium"}
    ensures facts.prsiYears.Some? ==> 0 <= facts.prsiYears.value < 100
  {
    var lower := Lower(msg);
    Facts(
      RegionMention(lower),
      Gate(AgeMatch(lower), 18, 100),
      IncomeMatch(msg),
      Gate(RetirementMatch(lower), 50, 80),
      RiskMention(lower),
      PrsiYearsFrom(lower, msg))
  }

  /** `if <matched>: save_user_profile(user_id, field, value)`. */
  function SaveIfFound(st: Store, uid: string, w: FieldWrite): (r: Store)
    ensures ValidStore(st) ==> ValidStore(r)
    ensures r.log == st.log && r.names == st.names && r.pendingColumn == st.pendingColumn
    ensures forall u :: u != uid ==> GetUserProfile(r, u) == GetUserProfile(st, u)
    ensures Payload(w).Some? ==> uid in r.profiles
    ensures Payload(w).None? ==> r == st
    ensures uid in st.profiles ==> uid in r.profiles
    ensures RowFor(r, uid).hasPendingAttr == RowFor(st, uid).hasPendingAttr
    ensures forall f :: Get(RowFor(r, uid), f) ==
              if f == Target(w) && Payload(w).Some? && Persisted(RowFor(st, uid), f) then Payload(w)
              else Get(RowFor(st, uid), f)
  {
    if Payload(w).Some? then SaveUserProfile(st, uid, w) else st
  }

  /** The six candidate saves of `extract_user_data`, in the code's order; a `None` one is skipped. */
  function FactWrites(facts: Facts): (ws: seq<FieldWrite>)
    ensures |ws| == 6
    ensures forall k :: 0 <= k < 6 ==> FieldOrder(Target(ws[k])) == k && Payload(ws[k]) == FactFor(facts, Target(ws[k]))
  {
    [SetRegion(facts.region), SetAge(facts.age), SetIncome(facts.income),
     SetRetirementAge(facts.retirementAge), SetRiskProfile(facts.riskProfile), SetPrsiYears(facts.prsiYears)]
  }

  /** The saves `ws[k..]`, each issued only when it carries a value. */
  function SaveEachFound(st: Store, uid: string, ws: seq<FieldWrite>, k: nat): (r: Store)
    requires k <= |ws|
    ensures ValidStore(st) ==> ValidStore(r)
    ensures r.log == st.log && r.names == st.names && r.pendingColumn == st.pendingColumn
    ensures forall u :: u != uid ==> GetUserProfile(r, u) == GetUserProfile(st, u)
    ensures uid in st.profiles ==> uid in r.profiles
    ensures RowFor(r, uid).hasPendingAttr == RowFor(st, uid).hasPendingAttr
    decreases |ws| - k
  {
    if k == |ws| then st else SaveEachFound(SaveIfFound(st, uid, ws[k]), uid, ws, k + 1)
  }

  /** The saves `extract_user_data` issues for the facts it found. */
  function ApplyFacts(st: Store, uid: string, facts: Facts): (r: Store)
    ensures ValidStore(st) ==> ValidStore(r)
    ensures r.log == st.log && r.names == st.names && r.pendingColumn == st.pendingColumn
    ensures forall u :: u != uid ==> GetUserProfile(r, u) == GetUserProfile(st, u)
    ensures uid in st.profiles ==> uid in r.profiles
    ensures RowFor(r, uid).hasPendingAttr == RowFor(st, uid).hasPendingAttr
  {
    SaveEachFound(st, uid, FactWrites(facts), 0)
  }

  /** `extract_user_data(user_id, msg)` on the store. */
  function ExtractInto(st: Store, uid: string, msg: string): Store {
    ApplyFacts(st, uid, ExtractFacts(msg))
  }

  /** After the first `k` columns' saves: those columns hold the found facts, the others their old values. */
  predicate Stage(cur: Store, before: Store, uid: string, facts: Facts, k: nat) {
    forall f :: Get(RowFor(cur, uid), f) ==
      if FieldOrder(f) < k && FactFor(facts, f).Some? then FactFor(facts, f) else Get(RowFor(before, uid), f)
  }

  /** One found fact replaces its column; the columns it does not name keep their values. */
  lemma SaveIfFoundStep(st: Store, uid: string, w: FieldWrite, facts: Facts, before: Store)
    requires Target(w) != PendingAction && Payload(w) == FactFor(facts, Target(w))
    requires Stage(st, before, uid, facts, FieldOrder(Target(w)))
    ensures Stage(SaveIfFound(st, uid, w), before, uid, facts, FieldOrder(Target(w)) + 1)
  {
    forall f
      ensures Get(RowFor(SaveIfFound(st, uid, w), uid), f) ==
        if FieldOrder(f) < FieldOrder(Target(w)) + 1 && FactFor(facts, f).Some? then FactFor(facts, f)
        else Get(RowFor(before, uid), f)
    {
      FieldOrderInjective(f, Target(w));
    }
  }

  lemma {:induction false} SaveEachFoundEffect(st: Store, uid: string, facts: Facts, k: nat, before: Store)
    requires k <= 6
    requires Stage(st, before, uid, facts, k)
    ensures Stage(SaveEachFound(st, uid, FactWrites(facts), k), before, uid, facts, 6)
    decreases 6 - k
  {
    var ws := FactWrites(facts);
    if k < 6 {
      FieldOrderInjective(Target(ws[k]), PendingAction);
      SaveIfFoundStep(st, uid, ws[k], facts, before);
      SaveEachFoundEffect(SaveIfFound(st, uid, ws[k]), uid, facts, k + 1, before);
    }
  }

  /**
   * After the saves, every column holds the fact found in the message when
   * there is one, whatever it held before (a region is overwritten, not set
   * once), and its old value otherwise; `pending_action` is never touched.
   */
  lemma ApplyFactsEffect(st: Store, uid: string, facts: Facts)
    ensures forall f :: Get(RowFor(ApplyFacts(st, uid, facts), uid), f) ==
              if FactFor(facts, f).Some? then FactFor(facts, f) else Get(RowFor(st, uid), f)
  {
    SaveEachFoundEffect(st, uid, facts, 0, st);
    var r := ApplyFacts(st, uid, facts);
    forall f
      ensures Get(RowFor(r, uid), f) == if FactFor(facts, f).Some? then FactFor(facts, f) else Get(RowFor(st, uid), f)
    {
      assert FieldOrder(f) < 6 || FactFor(facts, f).None?;
    }
  }

  // ---------------------------------------------------------------------------
  // Properties of the extractor on the store

  /** The effect of the saves column by column: a found fact replaces the column, otherwise it is kept. */
  lemma ApplyFactsColumns(st: Store, uid: string, facts: Facts)
    ensures var before, after := RowFor(st, uid), RowFor(ApplyFacts(st, uid, facts), uid);
      && after.region == (if facts.region.Some? then facts.region else before.region)
      && after.age == (if facts.age.Some? then facts.age else before.age)
      && after.income == (if facts.income.Some? then facts.income else before.income)
      && after.retirementAge == (if facts.retirementAge.Some? then facts.retirementAge else before.retirementAge)
      && after.riskProfile == (if facts.riskProfile.Some? then facts.riskProfile else before.riskProfile)
      && after.prsiYears == (if facts.prsiYears.Some? then facts.prsiYears else before.prsiYears)
      && after.pendingAction == before.pendingAction
      && after.hasPendingAttr == before.hasPendingAttr
  {
    ApplyFactsEffect(st, uid, facts);
    ColumnsFromGet(RowFor(st, uid), RowFor(ApplyFacts(st, uid, facts), uid), facts);
  }

  /** Column by column, what the field-level overlay of the facts means for the record. */
  lemma ColumnsFromGet(before: Profile, after: Profile, facts: Facts)
    requires forall f :: Get(after, f) == if FactFor(facts, f).Some? then FactFor(facts, f) else Get(before, f)
    ensures after.region == (if facts.region.Some? then facts.region else before.region)
    ensures after.age == (if facts.age.Some? then facts.age else before.age)
    ensures after.income == (if facts.income.Some? then facts.income else before.income)
    ensures after.retirementAge == (if facts.retirementAge.Some? then facts.retirementAge else before.retirementAge)
    ensures after.riskProfile == (if facts.riskProfile.Some? then facts.riskProfile else before.riskProfile)
    ensures after.prsiYears == (if facts.prsiYears.Some? then facts.prsiYears else before.prsiYears)
    ensures after.pendingAction == before.pendingAction
  {
    assert Get(after, Region) == TextValue(after.region) && Get(before, Region) == TextValue(before.region);
    assert Get(after, Age) == NumberValue(after.age) && Get(before, Age) == NumberValue(before.age);
    assert Get(after, Income) == NumberValue(after.income) && Get(before, Income) == NumberValue(before.income);
    assert Get(after, RetirementAge) == NumberValue(after.retirementAge);
    assert Get(before, RetirementAge) == NumberValue(before.retirementAge);
    assert Get(after, RiskProfile) == TextValue(after.riskProfile);
    assert Get(before, RiskProfile) == TextValue(before.riskProfile);
    assert Get(after, PrsiYears) == NumberValue(after.prsiYears) && Get(before, PrsiYears) == NumberValue(before.prsiYears);
    assert Get(after, PendingAction) == TextValue(after.pendingAction);
    assert Get(before, PendingAction) == TextValue(before.pendingAction);
  }

  /**
   * Region: a mention of "ireland" stores "Ireland" whatever was stored
   * before, even when "uk" is mentioned too; otherwise a mention of "uk" or
   * "united kingdom" stores "UK"; with neither, the region is kept.
   */
  lemma RegionRule(st: Store, uid: string, msg: string)
    ensures var lower, after := Lower(msg), RowFor(ExtractInto(st, uid, msg), uid);
      && (Contains(lower, "ireland") ==> after.region == Some("Ireland"))
      && (!Contains(lower, "ireland") && (Contains(lower, "uk") || Contains(lower, "united kingdom")) ==> after.region == Some("UK"))
      && (!Contains(lower, "ireland") && !Contains(lower, "uk") && !Contains(lower, "united kingdom") ==> after.region == RowFor(st, uid).region)
  {
    var facts := ExtractFacts(msg);
    assert facts.region == RegionMention(Lower(msg));
    ApplyFactsColumns(st, uid, facts);
  }

  /**
   * Risk: nothing changes unless "risk" occurs; then "low" beats "high",
   * which beats "medium"/"moderate".
   */
  lemma RiskRule(st: Store, uid: string, msg: string)
    ensures var lower, after := Lower(msg), RowFor(ExtractInto(st, uid, msg), uid);
      && (!Contains(lower, "risk") ==> after.riskProfile == RowFor(st, uid).riskProfile)
      && (Contains(lower, "risk") && Contains(lower, "low") ==> after.riskProfile == Some("Low"))
      && (Contains(lower, "risk") && !Contains(lower, "low") && Contains(lower, "high") ==> after.riskProfile == Some("High"))
      && ((Contains(lower, "risk") && !Contains(lower, "low") && !Contains(lower, "high")
           && (Contains(lower, "medium") || Contains(lower, "moderate"))) ==> after.riskProfile == Some("Medium"))
  {
    var facts := ExtractFacts(msg);
    assert facts.riskProfile == RiskMention(Lower(msg));
    ApplyFactsColumns(st, uid, facts);
  }

  /**
   * The range gates: a changed age lies in [18, 100], a changed retirement
   * age in [50, 80], a changed income is non-negative, and a changed PRSI
   * count is below 100, and at most 60 unless the explicit
   * "N years of PRSI/contributions" pattern matched.
   */
  lemma ExtractionGates(st: Store, uid: string, msg: string)
    ensures var before, after := RowFor(st, uid), RowFor(ExtractInto(st, uid, msg), uid);
      && (after.age != before.age ==> after.age.Some? && 18 <= after.age.value <= 100)
      && (after.retirementAge != before.retirementAge ==> after.retirementAge.Some? && 50 <= after.retirementAge.value <= 80)
      && (after.income != before.income ==> after.income.Some? && after.income.value >= 0)
      && (after.prsiYears != before.prsiYears ==> after.prsiYears.Some? && 0 <= after.prsiYears.value < 100)
      && (after.prsiYears != before.prsiYears && PrsiMatch(Lower(msg)).None? ==> after.prsiYears.value <= 60)
  {
    var facts := ExtractFacts(msg);
    assert facts.prsiYears == PrsiYearsFrom(Lower(msg), msg);
    ApplyFactsColumns(st, uid, facts);
  }

  /** The explicit PRSI pattern needs a unit spelled with a `y`. */
  lemma PrsiNeedsY(s: string, i: nat)
    requires PrsiAt(s, i).Some?
    ensures exists k :: 0 <= k < |s| && s[k] == 'y'
  {
    var j := if i + 1 < |s| && IsDigit(s[i + 1]) && PrsiTail(s, i + 2) then i + 2 else i + 1;
    assert PrsiTail(s, j);
    var j1 := SkipSpaces(s, j);
    assert s[j1] == 'y';
  }

  /** A message that strips to one or two digits is made of digits and spaces only. */
  lemma BareNumberChars(msg: string)
    requires BareNumber(msg).Some?
    ensures forall k :: 0 <= k < |msg| ==> IsSpace(msg[k]) || IsDigit(msg[k])
  {
    forall k | 0 <= k < |msg|
      ensures IsSpace(msg[k]) || IsDigit(msg[k])
    {
      BareNumberChar(msg, k);
    }
  }

  /** One character of such a message: a cut space or one of the digits. */
  lemma BareNumberChar(msg: string, k: nat)
    requires BareNumber(msg).Some? && k < |msg|
    ensures IsSpace(msg[k]) || IsDigit(msg[k])
  {
    var off := StripOffset(msg);
    var r := Strip(msg);
    if off <= k < off + |r| {
      assert msg[k] == r[k - off];
      assert AllDigits(r);
    } else {
      StripCutsSpaces(msg);
    }
  }

  lemma SpaceOrDigitIsNotY(c: char)
    requires IsSpace(c) || IsDigit(c)
    ensures LowerChar(c) != 'y'
  {
  }

  /** Lower-casing digits and spaces yields no `y`. */
  lemma BareNumberHasNoY(msg: string)
    requires BareNumber(msg).Some?
    ensures forall k :: 0 <= k < |Lower(msg)| ==> Lower(msg)[k] != 'y'
  {
    forall k | 0 <= k < |msg|
      ensures Lower(msg)[k] != 'y'
    {
      BareNumberChar(msg, k);
      SpaceOrDigitIsNotY(msg[k]);
    }
  }

  /** Text without a `y` never matches the explicit PRSI pattern. */
  lemma NoPrsiMatchWithoutY(s: string)
    requires forall k :: 0 <= k < |s| ==> s[k] != 'y'
    ensures PrsiMatch(s).None?
  {
    forall i: nat | i < |s|
      ensures PrsiAt(s, i).None?
    {
      if PrsiAt(s, i).Some? {
        PrsiNeedsY(s, i);
      }
    }
    LeftmostNone((i: nat) => PrsiAt(s, i), |s|);
  }

  /**
   * The bare-number rule is applied whatever came before: a message that is
   * only one or two digits sets the PRSI years when the number is at most 60,
   * and leaves them as they were otherwise, regardless of the profile or of
   * what the assistant last asked.
   */
  lemma BareNumberRule(st: Store, uid: string, msg: string)
    requires BareNumber(msg).Some?
    ensures BareNumber(msg).value <= 60 ==> RowFor(ExtractInto(st, uid, msg), uid).prsiYears == BareNumber(msg)
    ensures BareNumber(msg).value > 60 ==> RowFor(ExtractInto(st, uid, msg), uid).prsiYears == RowFor(st, uid).prsiYears
  {
    BareNumberHasNoY(msg);
    NoPrsiMatchWithoutY(Lower(msg));
    var facts := ExtractFacts(msg);
    assert facts.prsiYears == PrsiYearsFrom(Lower(msg), msg);
    ApplyFactsColumns(st, uid, facts);
  }

  // ---------------------------------------------------------------------------
  // Income: the `\b` before the currency symbol

  /** A leftmost search that finds nothing before `j` and a match at `j` returns that match. */
  lemma LeftmostAt(at: nat -> Option<int>, n: nat, j: nat)
    requires j < n && at(j).Some?
    requires forall k :: 0 <= k < j ==> at(k).None?
    ensures Leftmost(at, 0, n) == at(j)
  {
  }

  /** A leftmost search where nothing matches finds nothing. */
  lemma LeftmostNone(at: nat -> Option<int>, n: nat)
    requires forall k :: 0 <= k < n ==> at(k).None?
    ensures Leftmost(at, 0, n) == None
  {
  }

  /** A currency symbol followed by digits up to the end of the text matches, with those digits as the amount. */
  lemma IncomeToEnd(t: string, i: nat)
    requires i + 1 < |t| && IsCurrency(t[i])
    requires forall k :: i < k < |t| ==> IsDigit(t[k])
    ensures IncomeAtWith(t, i, false) == Some(ParseDigits(t[i + 1..]))
  {
    assert IsDigit(t[i + 1]);
    assert !IsSpace(t[i + 1]);
    var e := DigitRunEnd(t, i + 1);
    assert e == |t|;
    assert IsWordChar(t[e - 1]);
    assert t[i + 1..e] == t[i + 1..];
    assert Boundary(t, e);
    assert IncomeSuffix(t, e, ParseDigits(t[i + 1..e])) == Some(ParseDigits(t[i + 1..e]));
    assert IncomeAtWith(t, i, false) == IncomeSuffix(t, e, ParseDigits(t[i + 1..e]));
  }

  /** Removing commas from `p + "€" + d`, where `d` is digits, only touches `p`. */
  lemma RemoveCommasBeforeSymbol(p: string, d: string)
    requires AllDigits(d)
    ensures RemoveChar(p + "€" + d, ',') == RemoveChar(p, ',') + "€" + d
  {
    RemoveCharConcat(p + "€", d, ',');
    RemoveCharConcat(p, "€", ',');
    RemoveCharAbsent("€", ',');
    RemoveCharAbsent(d, ',');
  }

  /** The shape of the text the income pattern searches: symbol-free `q`, the symbol, then digits. */
  predicate SymbolThenDigits(t: string, i0: nat) {
    && i0 + 1 < |t| && t[i0] == '€'
    && (forall k :: 0 <= k < i0 ==> !IsCurrency(t[k]))
    && (forall k :: i0 < k < |t| ==> IsDigit(t[k]))
  }

  lemma AsWrittenMissesSymbolAfterNonWord(t: string, i0: nat)
    requires SymbolThenDigits(t, i0)
    requires i0 == 0 || !IsWordChar(t[i0 - 1])
    ensures Leftmost((i: nat) => IncomeAtWith(t, i, true), 0, |t|) == None
  {
    forall k: nat | k < |t|
      ensures IncomeAtWith(t, k, true).None?
    {
      if k == i0 {
        assert !Boundary(t, k);
      }
    }
    LeftmostNone((i: nat) => IncomeAtWith(t, i, true), |t|);
  }

  lemma IntendedFindsSymbol(t: string, i0: nat)
    requires SymbolThenDigits(t, i0)
    ensures Leftmost((i: nat) => IncomeAtWith(t, i, false), 0, |t|) == Some(ParseDigits(t[i0 + 1..]))
  {
    IncomeToEnd(t, i0);
    LeftmostAt((i: nat) => IncomeAtWith(t, i, false), |t|, i0);
  }

  /**
   * An amount written as a currency symbol followed by digits, after a space
   * or at the very start, is found by the intended pattern and missed by the
   * pattern as written, whose leading `\b` needs a word character before the
   * symbol.
   */
  lemma IncomeAfterNonWord(p: string, d: string)
    requires |d| >= 1 && AllDigits(d)
    requires forall k :: 0 <= k < |p| ==> !IsCurrency(p[k])
    requires var q := RemoveChar(p, ','); q == [] || !IsWordChar(q[|q| - 1])
    ensures IncomeMatch(p + "€" + d) == Some(ParseDigits(d))
    ensures IncomeMatchAsWritten(p + "€" + d) == None
  {
    var q := RemoveChar(p, ',');
    RemoveCommasBeforeSymbol(p, d);
    var t := q + "€" + d;
    var i0 := |q|;
    forall k | 0 <= k < i0
      ensures !IsCurrency(t[k])
    {
      RemoveCharSubset(p, ',', k);
    }
    assert SymbolThenDigits(t, i0) by {
      forall k | i0 < k < |t|
        ensures IsDigit(t[k])
      {
        assert t[k] == d[k - i0 - 1];
      }
    }
    AsWrittenMissesSymbolAfterNonWord(t, i0);
    IntendedFindsSymbol(t, i0);
    assert t[i0 + 1..] == d;
  }

  // ---------------------------------------------------------------------------
  // The patterns on characteristic phrases

  /** One or two digits spell the number `ParseDigits` gives. */
  lemma ShortNumberValue(s: string, i: nat, d: string)
    requires 1 <= |d| <= 2 && AllDigits(d) && i + |d| <= |s| && s[i..i + |d|] == d
    ensures |d| == 1 ==> DigitValue(s[i]) == ParseDigits(d)
    ensures |d| == 2 ==> TwoDigitValue(s, i) == ParseDigits(d)
  {
    assert s[i] == d[0];
    if |d| == 2 {
      assert s[i + 1] == d[1];
      assert d[..1][..0] == [];
    } else {
      assert d[..0] == [];
    }
  }

  /** The parts of `p + d + t` sit where they were put. */
  lemma ThreeParts(p: string, d: string, t: string)
    ensures (p + d + t)[|p|..|p| + |d|] == d
    ensures (p + d + t)[|p| + |d|..] == t
  {
  }

  /** A slice of a known tail is the same slice of the text. */
  lemma SliceOfTail(s: string, j: nat, t: string, a: nat, b: nat)
    requires j + |t| == |s| && s[j..] == t && a <= b <= |t|
    ensures s[j + a..j + b] == t[a..b]
  {
    forall k | 0 <= k < b - a
      ensures s[j + a..j + b][k] == t[a..b][k]
    {
      assert t[a + k] == s[j..][a + k];
    }
  }

  const YearsOld: string := " years old"

  /** `\s*(?:years?)?\s*old\b` matches " years old" at the end of the text. */
  lemma YearsOldTail(s: string, j: nat)
    requires j + 10 == |s| && s[j..] == YearsOld
    ensures OldTail(s, j)
  {
    assert s[j] == s[j..][0] == ' ';
    assert s[j + 1] == s[j..][1] == 'y';
    assert s[j + 6] == s[j..][6] == ' ';
    assert s[j + 7] == s[j..][7] == 'o';
    assert s[j + 9] == s[j..][9] == 'd';
    SliceOfTail(s, j, YearsOld, 1, 6);
    assert YearsOld[1..6] == "years";
    SliceOfTail(s, j, YearsOld, 7, 10);
    assert YearsOld[7..10] == "old";
    assert SkipSpaces(s, j + 1) == j + 1;
    assert SkipSpaces(s, j) == j + 1;
    assert SkipSpaces(s, j + 7) == j + 7;
    assert SkipSpaces(s, j + 6) == j + 7;
  }

  /** No age match starts at a character that is not a digit. */
  lemma NoAgeAtNonDigit(s: string, i: nat)
    requires i < |s| && !IsDigit(s[i])
    ensures AgeAt(s, i).None?
  {
  }

  /** A two-digit number starting a word and followed by the tail is an age. */
  lemma AgeAtTwo(s: string, i: nat)
    requires i + 1 < |s| && IsDigit(s[i]) && IsDigit(s[i + 1]) && Boundary(s, i) && OldTail(s, i + 2)
    ensures AgeAt(s, i) == Some(TwoDigitValue(s, i))
  {
  }

  /** A one-digit number starting a word and followed by the tail is an age. */
  lemma AgeAtOne(s: string, i: nat)
    requires i + 1 < |s| && IsDigit(s[i]) && !IsDigit(s[i + 1]) && Boundary(s, i) && OldTail(s, i + 1)
    ensures AgeAt(s, i) == Some(DigitValue(s[i]))
  {
  }

  /** A number of `n` (one or two) digits starting a word and followed by " years old" is an age. */
  lemma AgeAtNumber(s: string, i: nat, n: nat)
    requires n == 1 || n == 2
    requires i + 1 < |s| && IsDigit(s[i]) && Boundary(s, i)
    requires i + n + 10 == |s| && s[i + n..] == YearsOld
    requires n == 2 ==> IsDigit(s[i + 1])
    requires n == 1 ==> !IsDigit(s[i + 1])
    ensures AgeAt(s, i) == Some(if n == 2 then TwoDigitValue(s, i) else DigitValue(s[i]))
  {
    YearsOldTail(s, i + n);
    if n == 2 {
      AgeAtTwo(s, i);
    } else {
      AgeAtOne(s, i);
    }
  }

  /**
   * "N years old" after digit-free text ending in a non-word character (or
   * at the start) gives the age N, one or two digits.
   */
  lemma AgePhrase(p: string, d: string)
    requires 1 <= |d| <= 2 && AllDigits(d)
    requires forall k :: 0 <= k < |p| ==> !IsDigit(p[k])
    requires p == [] || !IsWordChar(p[|p| - 1])
    ensures AgeMatch(p + d + YearsOld) == Some(ParseDigits(d))
  {
    var s := p + d + YearsOld;
    AgePhraseAt(p, d);
    DigitFreePrefix(p, d, YearsOld);
    forall k | 0 <= k < |p|
      ensures AgeAt(s, k).None?
    {
      NoAgeAtNonDigit(s, k);
    }
    LeftmostAt((i: nat) => AgeAt(s, i), |s|, |p|);
  }

  /** The digits of "N years old" are an age match where they start. */
  lemma AgePhraseAt(p: string, d: string)
    requires 1 <= |d| <= 2 && AllDigits(d)
    requires p == [] || !IsWordChar(p[|p| - 1])
    ensures AgeAt(p + d + YearsOld, |p|) == Some(ParseDigits(d))
  {
    var s := p + d + YearsOld;
    ThreeParts(p, d, YearsOld);
    ShortNumberValue(s, |p|, d);
    NumberStart(p, d, YearsOld);
    AgeAtNumber(s, |p|, |d|);
  }

  /** A number of one or two digits between `p` and a tail starting with a space: its first digits and what follows them. */
  lemma NumberStart(p: string, d: string, t: string)
    requires 1 <= |d| <= 2 && AllDigits(d) && |t| > 0 && t[0] == ' '
    ensures var s := p + d + t;
      && |p| + 1 < |s| && IsDigit(s[|p|])
      && (|d| == 2 ==> IsDigit(s[|p| + 1]))
      && (|d| == 1 ==> !IsDigit(s[|p| + 1]))
      && ((p == [] || !IsWordChar(p[|p| - 1])) ==> Boundary(s, |p|))
  {
    var s := p + d + t;
    assert s[|p|] == d[0];
    if |d| == 2 {
      assert s[|p| + 1] == d[1];
    } else {
      assert s[|p| + 1] == t[0];
    }
    if |p| > 0 {
      assert s[|p| - 1] == p[|p| - 1];
    }
  }

  /** A digit-free prefix stays digit-free in the text. */
  lemma DigitFreePrefix(p: string, d: string, t: string)
    requires forall k :: 0 <= k < |p| ==> !IsDigit(p[k])
    ensures forall k :: 0 <= k < |p| ==> !IsDigit((p + d + t)[k])
  {
  }

  const YearsOfPrsi: string := " years of prsi"

  /** The PRSI tail matches " years of prsi" at the end of the text. */
  lemma YearsOfPrsiTail(s: string, j: nat)
    requires j + 14 == |s| && s[j..] == YearsOfPrsi
    ensures PrsiTail(s, j)
  {
    assert s[j] == s[j..][0] == ' ';
    assert s[j + 1] == s[j..][1] == 'y';
    assert s[j + 6] == s[j..][6] == ' ';
    assert s[j + 7] == s[j..][7] == 'o';
    assert s[j + 9] == s[j..][9] == ' ';
    assert s[j + 10] == s[j..][10] == 'p';
    SliceOfTail(s, j, YearsOfPrsi, 1, 6);
    assert YearsOfPrsi[1..6] == "years";
    SliceOfTail(s, j, YearsOfPrsi, 7, 9);
    assert YearsOfPrsi[7..9] == "of";
    SliceOfTail(s, j, YearsOfPrsi, 10, 14);
    assert YearsOfPrsi[10..14] == "prsi";
    assert UnitEnd(s, j + 1) == Some(j + 6);
    assert SkipSpaces(s, j + 1) == j + 1;
    assert SkipSpaces(s, j) == j + 1;
    assert SkipSpaces(s, j + 7) == j + 7;
    assert SkipSpaces(s, j + 6) == j + 7;
    assert SkipSpaces(s, j + 10) == j + 10;
    assert SkipSpaces(s, j + 9) == j + 10;
  }

  /** "N years of prsi" after digit-free text gives N years, with no range check on N. */
  lemma PrsiPhrase(p: string, d: string)
    requires 1 <= |d| <= 2 && AllDigits(d)
    requires forall k :: 0 <= k < |p| ==> !IsDigit(p[k])
    ensures PrsiMatch(p + d + YearsOfPrsi) == Some(ParseDigits(d))
  {
    var s := p + d + YearsOfPrsi;
    PrsiPhraseAt(p, d);
    DigitFreePrefix(p, d, YearsOfPrsi);
    forall k | 0 <= k < |p|
      ensures PrsiAt(s, k).None?
    {
      NoPrsiAtNonDigit(s, k);
    }
    LeftmostAt((i: nat) => PrsiAt(s, i), |s|, |p|);
  }

  /** The digits of "N years of prsi" are a PRSI match where they start. */
  lemma PrsiPhraseAt(p: string, d: string)
    requires 1 <= |d| <= 2 && AllDigits(d)
    ensures PrsiAt(p + d + YearsOfPrsi, |p|) == Some(ParseDigits(d))
  {
    var s := p + d + YearsOfPrsi;
    ThreeParts(p, d, YearsOfPrsi);
    ShortNumberValue(s, |p|, d);
    NumberStart(p, d, YearsOfPrsi);
    PrsiAtNumber(s, |p|, |d|);
  }

  /** A number of `n` (one or two) digits followed by " years of prsi" is a PRSI match. */
  lemma PrsiAtNumber(s: string, i: nat, n: nat)
    requires n == 1 || n == 2
    requires i + 1 < |s| && IsDigit(s[i])
    requires i + n + 14 == |s| && s[i + n..] == YearsOfPrsi
    requires n == 2 ==> IsDigit(s[i + 1])
    requires n == 1 ==> !IsDigit(s[i + 1])
    ensures PrsiAt(s, i) == Some(if n == 2 then TwoDigitValue(s, i) else DigitValue(s[i]))
  {
    YearsOfPrsiTail(s, i + n);
    if n == 2 {
      PrsiAtTwo(s, i);
    } else {
      PrsiAtOne(s, i);
    }
  }

  /** No PRSI match starts at a character that is not a digit. */
  lemma NoPrsiAtNonDigit(s: string, i: nat)
    requires i < |s| && !IsDigit(s[i])
    ensures PrsiAt(s, i).None?
  {
  }

  lemma PrsiAtTwo(s: string, i: nat)
    requires i + 1 < |s| && IsDigit(s[i]) && IsDigit(s[i + 1]) && PrsiTail(s, i + 2)
    ensures PrsiAt(s, i) == Some(TwoDigitValue(s, i))
  {
  }

  lemma PrsiAtOne(s: string, i: nat)
    requires i + 1 < |s| && IsDigit(s[i]) && !IsDigit(s[i + 1]) && PrsiTail(s, i + 1)
    ensures PrsiAt(s, i) == Some(DigitValue(s[i]))
  {
  }

  const RetireAt: string := "retire at "

  /** "retire" stands as a whole word at `i` when it is followed by a space and preceded by a non-word character or nothing. */
  lemma RetireWordAt(s: string, i: nat)
    requires i + 7 <= |s| && s[i..i + 7] == "retire "
    requires i == 0 || !IsWordChar(s[i - 1])
    ensures RetireKeywordEnd(s, i) == Some(i + 6)
  {
    assert s[i..i + 6] == s[i..i + 7][..6];
    assert s[i + 6] == s[i..i + 7][6] == ' ';
    assert s[i] == s[i..i + 7][0] == 'r';
    assert s[i + 5] == s[i..i + 7][5] == 'e';
  }

  /**
   * Where the only digits of the text are a standalone pair ending it, the
   * lazy scan from any position finds that pair or nothing.
   */
  lemma {:induction false} LazyFindsOnlyLast(s: string, j: nat)
    requires j <= |s| && 2 <= |s| && TwoDigitsAt(s, |s| - 2)
    requires forall k :: 0 <= k < |s| - 2 ==> !IsDigit(s[k])
    ensures LazyTwoDigits(s, j) == None || LazyTwoDigits(s, j) == Some(TwoDigitValue(s, |s| - 2))
    decreases |s| - j
  {
    if TwoDigitsAt(s, j) {
      assert j == |s| - 2;
    } else if j < |s| && s[j] != '\n' {
      LazyFindsOnlyLast(s, j + 1);
    }
  }

  /** The lazy scan passes over digit-free text without a newline up to a standalone pair. */
  lemma {:induction false} LazyReaches(s: string, j: nat, i0: nat)
    requires j <= i0 && TwoDigitsAt(s, i0)
    requires forall k :: j <= k < i0 ==> !IsDigit(s[k]) && s[k] != '\n'
    ensures LazyTwoDigits(s, j) == Some(TwoDigitValue(s, i0))
    decreases i0 - j
  {
    if j < i0 {
      LazyReaches(s, j + 1, i0);
    }
  }

  /** The text `p + "retire at " + d`, `d` two digits, ends in a standalone pair worth `d`. */
  lemma RetireAtShape(p: string, d: string)
    requires |d| == 2 && AllDigits(d)
    ensures var s := p + RetireAt + d;
      && s[|p|..|p| + 7] == "retire "
      && (forall k :: |p| + 6 <= k < |p| + 10 ==> !IsDigit(s[k]) && s[k] != '\n')
      && TwoDigitsAt(s, |s| - 2) && TwoDigitValue(s, |s| - 2) == ParseDigits(d)
      && (p == [] || !IsWordChar(p[|p| - 1]) ==> |p| == 0 || !IsWordChar(s[|p| - 1]))
  {
    var s := p + RetireAt + d;
    assert s[|p|..|p| + 10] == RetireAt;
    assert s[|p|..|p| + 7] == RetireAt[..7];
    forall k | |p| + 6 <= k < |p| + 10
      ensures !IsDigit(s[k]) && s[k] != '\n'
    {
      assert s[k] == RetireAt[k - |p|];
    }
    assert s[|s| - 3] == ' ';
    assert s[|s| - 2..] == d;
    ShortNumberValue(s, |s| - 2, d);
    if |p| > 0 {
      assert s[|p| - 1] == p[|p| - 1];
    }
  }

  /** "retire at NN" matches where "retire" starts, with the value NN. */
  lemma RetirementPhraseAt(p: string, d: string)
    requires |d| == 2 && AllDigits(d)
    requires p == [] || !IsWordChar(p[|p| - 1])
    ensures RetirementAt(p + RetireAt + d, |p|) == Some(ParseDigits(d))
  {
    var s := p + RetireAt + d;
    RetireAtShape(p, d);
    RetireWordAt(s, |p|);
    LazyReaches(s, |p| + 6, |s| - 2);
  }

  /**
   * "retire at NN" after digit-free text ending in a non-word character (or
   * at the start) gives the retirement age NN: whatever earlier match the
   * search finds reads the same two digits.
   */
  lemma RetirementPhrase(p: string, d: string)
    requires |d| == 2 && AllDigits(d)
    requires forall k :: 0 <= k < |p| ==> !IsDigit(p[k])
    requires p == [] || !IsWordChar(p[|p| - 1])
    ensures RetirementMatch(p + RetireAt + d) == Some(ParseDigits(d))
  {
    var s := p + RetireAt + d;
    RetireAtShape(p, d);
    RetirementPhraseAt(p, d);
    forall k | 0 <= k < |s| - 2
      ensures !IsDigit(s[k])
    {
      if k < |p| {
        assert s[k] == p[k];
      } else {
        assert s[k] == RetireAt[k - |p|];
      }
    }
    forall k: nat
      ensures RetirementAt(s, k) == None || RetirementAt(s, k) == Some(ParseDigits(d))
    {
      if RetireKeywordEnd(s, k).Some? {
        LazyFindsOnlyLast(s, RetireKeywordEnd(s, k).value);
      }
    }
    var at := (i: nat) => RetirementAt(s, i);
    assert at(|p|).Some?;
  }

  /** A currency symbol, digits, then `k` at the end of the text: the amount in thousands. */
  lemma IncomeThousandsAt(t: string, i: nat)
    requires i + 2 < |t| && IsCurrency(t[i]) && t[|t| - 1] == 'k'
    requires forall k :: i < k < |t| - 1 ==> IsDigit(t[k])
    ensures IncomeAtWith(t, i, false) == Some(ParseDigits(t[i + 1..|t| - 1]) * 1000)
  {
    assert IsDigit(t[i + 1]) && !IsSpace(t[i + 1]);
    var e := DigitRunEnd(t, i + 1);
    assert e == |t| - 1;
    assert !IsSpace(t[e]) && IsK(t[e]) && IsWordChar(t[e]);
    assert Boundary(t, e + 1);
  }

  /** The text the income pattern searches for "€Nk": symbol-free `q`, the symbol, digits, then `k`. */
  predicate SymbolDigitsK(t: string, i0: nat) {
    && i0 + 2 < |t| && t[i0] == '€' && t[|t| - 1] == 'k'
    && (forall k :: 0 <= k < i0 ==> !IsCurrency(t[k]))
    && (forall k :: i0 < k < |t| - 1 ==> IsDigit(t[k]))
  }

  lemma IntendedFindsThousands(t: string, i0: nat)
    requires SymbolDigitsK(t, i0)
    ensures Leftmost((i: nat) => IncomeAtWith(t, i, false), 0, |t|) == Some(ParseDigits(t[i0 + 1..|t| - 1]) * 1000)
  {
    IncomeThousandsAt(t, i0);
    LeftmostAt((i: nat) => IncomeAtWith(t, i, false), |t|, i0);
  }

  /** Removing commas from `p + "€" + d + "k"`, where `d` is digits, only touches `p`. */
  lemma RemoveCommasBeforeThousands(p: string, d: string)
    requires AllDigits(d)
    ensures RemoveChar(p + "€" + d + "k", ',') == RemoveChar(p, ',') + "€" + d + "k"
  {
    RemoveCommasBeforeSymbol(p, d);
    RemoveCharConcat(p + "€" + d, "k", ',');
    RemoveCharAbsent("k", ',');
  }

  /** The comma-free text of `p + "€" + d + "k"` has the shape `SymbolDigitsK` describes. */
  lemma ThousandsShape(p: string, d: string)
    requires |d| >= 1 && AllDigits(d)
    requires forall k :: 0 <= k < |p| ==> !IsCurrency(p[k])
    ensures SymbolDigitsK(RemoveChar(p, ',') + "€" + d + "k", |RemoveChar(p, ',')|)
  {
    var q := RemoveChar(p, ',');
    var t := q + "€" + d + "k";
    var i0 := |q|;
    forall k | 0 <= k < i0
      ensures !IsCurrency(t[k])
    {
      RemoveCharSubset(p, ',', k);
    }
    forall k | i0 < k < |t| - 1
      ensures IsDigit(t[k])
    {
      assert t[k] == d[k - i0 - 1];
    }
  }

  /** "€Nk" after a space or at the start is N thousand for the intended pattern. */
  lemma IncomeThousands(p: string, d: string)
    requires |d| >= 1 && AllDigits(d)
    requires forall k :: 0 <= k < |p| ==> !IsCurrency(p[k])
    ensures IncomeMatch(p + "€" + d + "k") == Some(ParseDigits(d) * 1000)
  {
    var q := RemoveChar(p, ',');
    RemoveCommasBeforeThousands(p, d);
    ThousandsShape(p, d);
    var t := q + "€" + d + "k";
    IntendedFindsThousands(t, |q|);
    assert t[|q| + 1..|t| - 1] == d;
  }

  /**
   * The explicit "N years of PRSI/contributions" pattern wins over the
   * bare-number fallback and is stored as found, with no range check.
   */
  lemma ExplicitPrsiRule(st: Store, uid: string, msg: string)
    requires PrsiMatch(Lower(msg)).Some?
    ensures RowFor(ExtractInto(st, uid, msg), uid).prsiYears == PrsiMatch(Lower(msg))
  {
    var facts := ExtractFacts(msg);
    assert facts.prsiYears == PrsiYearsFrom(Lower(msg), msg);
    ApplyFactsColumns(st, uid, facts);
  }

  /**
   * Age, income and retirement age on the store: each is replaced by the
   * value its pattern found when that value passes the column's gate, and
   * kept otherwise.
   */
  lemma NumberRules(st: Store, uid: string, msg: string)
    ensures var lower, before, after := Lower(msg), RowFor(st, uid), RowFor(ExtractInto(st, uid, msg), uid);
      && after.age == (if AgeMatch(lower).Some? && 18 <= AgeMatch(lower).value <= 100 then AgeMatch(lower) else before.age)
      && after.income == (if IncomeMatch(msg).Some? then IncomeMatch(msg) else before.income)
      && after.retirementAge == (if RetirementMatch(lower).Some? && 50 <= RetirementMatch(lower).value <= 80
                                 then RetirementMatch(lower) else before.retirementAge)
  {
    var facts := ExtractFacts(msg);
    assert facts.age == Gate(AgeMatch(Lower(msg)), 18, 100);
    assert facts.income == IncomeMatch(msg);
    assert facts.retirementAge == Gate(RetirementMatch(Lower(msg)), 50, 80);
    ApplyFactsColumns(st, uid, facts);
  }
}
