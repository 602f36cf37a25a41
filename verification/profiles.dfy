/**
 * The per-user profile record (the `UserProfile` table) and the single-field
 * writes that `save_user_profile` performs with `setattr`.
 */
module Profiles {
  import opened Wrappers

  /**
   * One stored profile. Every column is nullable. `hasPendingAttr` records
   * whether the record has a `pending_action` attribute at all (the table as
   * declared has none, which is why the controller guards with `hasattr`);
   * `pendingAction` is that attribute's value when it exists.
   */
  datatype Profile = Profile(
    region: Option<string>,
    age: Option<int>,
    income: Option<int>,
    retirementAge: Option<int>,
    riskProfile: Option<string>,
    prsiYears: Option<int>,
    hasPendingAttr: bool,
    pendingAction: Option<string>)

  /** A profile never holds a value for an attribute it does not have. */
  predicate Valid(p: Profile) {
    !p.hasPendingAttr ==> p.pendingAction == None
  }

  /** `UserProfile(user_id=...)`: every column NULL. */
  function EmptyProfile(hasPendingAttr: bool): (p: Profile)
    ensures Valid(p)
    ensures forall f :: Get(p, f) == None
  {
    Profile(None, None, None, None, None, None, hasPendingAttr, None)
  }

  /** The attribute names `save_user_profile` is called with. */
  datatype FieldName = Region | Age | Income | RetirementAge | RiskProfile | PrsiYears | PendingAction

  /** Column order of the table, which is also the order the extractor saves in. */
  function FieldOrder(f: FieldName): nat
  {
    match f
    case Region => 0
    case Age => 1
    case Income => 2
    case RetirementAge => 3
    case RiskProfile => 4
    case PrsiYears => 5
    case PendingAction => 6
  }

  lemma FieldOrderInjective(f: FieldName, g: FieldName)
    ensures FieldOrder(f) == FieldOrder(g) ==> f == g
  {
  }

  /** A stored value, as the uniform view of a column. */
  datatype Value = Text(s: string) | Number(n: int)

  /** A call `save_user_profile(user_id, field, value)`; `None` is Python's `None`. */
  datatype FieldWrite =
    | SetRegion(region: Option<string>)
    | SetAge(age: Option<int>)
    | SetIncome(income: Option<int>)
    | SetRetirementAge(retirementAge: Option<int>)
    | SetRiskProfile(riskProfile: Option<string>)
    | SetPrsiYears(prsiYears: Option<int>)
    | SetPendingAction(pendingAction: Option<string>)

  function TextValue(v: Option<string>): Option<Value> {
    match v
    case None => None
    case Some(s) => Some(Text(s))
  }

  function NumberValue(v: Option<int>): Option<Value> {
    match v
    case None => None
    case Some(n) => Some(Number(n))
  }

  /** `getattr(profile, f)` as a uniform value. */
  function Get(p: Profile, f: FieldName): Option<Value> {
    match f
    case Region => TextValue(p.region)
    case Age => NumberValue(p.age)
    case Income => NumberValue(p.income)
    case RetirementAge => NumberValue(p.retirementAge)
    case RiskProfile => TextValue(p.riskProfile)
    case PrsiYears => NumberValue(p.prsiYears)
    case PendingAction => TextValue(p.pendingAction)
  }

  /** The attribute a write names. */
  function Target(w: FieldWrite): FieldName {
    match w
    case SetRegion(_) => Region
    case SetAge(_) => Age
    case SetIncome(_) => Income
    case SetRetirementAge(_) => RetirementAge
    case SetRiskProfile(_) => RiskProfile
    case SetPrsiYears(_) => PrsiYears
    case SetPendingAction(_) => PendingAction
  }

  /** The value a write carries, `None` for Python's `None`. */
  function Payload(w: FieldWrite): Option<Value> {
    match w
    case SetRegion(v) => TextValue(v)
    case SetAge(v) => NumberValue(v)
    case SetIncome(v) => NumberValue(v)
    case SetRetirementAge(v) => NumberValue(v)
    case SetRiskProfile(v) => TextValue(v)
    case SetPrsiYears(v) => NumberValue(v)
    case SetPendingAction(v) => TextValue(v)
  }

  /** Whether a value written to `f` survives the commit: only declared attributes are persisted. */
  predicate Persisted(p: Profile, f: FieldName) {
    f != PendingAction || p.hasPendingAttr
  }

  /**
   * `if value is not None: setattr(profile, field, value)`, then commit.
   * A `None` write changes nothing; any other value, 0 and "" included, is
   * stored in the named attribute; every other attribute keeps its value.
   */
  function Assign(p: Profile, w: FieldWrite): (r: Profile)
    ensures Valid(p) ==> Valid(r)
    ensures r.hasPendingAttr == p.hasPendingAttr
    ensures Payload(w) == None ==> r == p
    ensures Payload(w) != None && Persisted(p, Target(w)) ==> Get(r, Target(w)) == Payload(w)
    ensures !Persisted(p, Target(w)) ==> r == p
    ensures forall f :: f != Target(w) ==> Get(r, f) == Get(p, f)
  {
    match w
    case SetRegion(v) => if v.Some? then p.(region := v) else p
    case SetAge(v) => if v.Some? then p.(age := v) else p
    case SetIncome(v) => if v.Some? then p.(income := v) else p
    case SetRetirementAge(v) => if v.Some? then p.(retirementAge := v) else p
    case SetRiskProfile(v) => if v.Some? then p.(riskProfile := v) else p
    case SetPrsiYears(v) => if v.Some? then p.(prsiYears := v) else p
    case SetPendingAction(v) => if v.Some? && p.hasPendingAttr then p.(pendingAction := v) else p
  }

  /** Two profiles with the same attribute set and the same value in every column are the same record. */
  lemma GetDetermines(p: Profile, q: Profile)
    requires p.hasPendingAttr == q.hasPendingAttr
    requires forall f :: Get(p, f) == Get(q, f)
    ensures p == q
  {
    assert Get(p, Region) == Get(q, Region);
    assert Get(p, Age) == Get(q, Age);
    assert Get(p, Income) == Get(q, Income);
    assert Get(p, RetirementAge) == Get(q, RetirementAge);
    assert Get(p, RiskProfile) == Get(q, RiskProfile);
    assert Get(p, PrsiYears) == Get(q, PrsiYears);
    assert Get(p, PendingAction) == Get(q, PendingAction);
  }
}
