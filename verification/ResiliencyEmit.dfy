/** Writing a resiliency configuration out: assembleResiliency of web/src/pages/resiliency-builder/reducer.ts. */
module ResiliencyEmit {
  import opened Basics
  import opened JsRecord
  import opened YamlEmit
  import opened Resiliency

  /** The field k if it is set, then the others. */
  function Field(k: string, v: Option<Value>, rest: Rec<Value>): Rec<Value> {
    if v.Some? then [(k, v.value)] + rest else rest
  }

  lemma FieldGet(k: string, v: Option<Value>, rest: Rec<Value>)
    requires !Has(rest, k)
    ensures forall x :: Get(Field(k, v, rest), x) == if x == k then v else Get(rest, x)
    ensures UniqueFields(rest) && (v.Some? ==> UniqueKeys(v.value)) ==> UniqueFields(Field(k, v, rest))
  {
    if v.Some? {
      assert ([(k, v.value)] + rest)[1..] == rest;
    }
  }

  function OptStr(s: Option<string>): Option<Value> {
    match s
    case None => None
    case Some(t) => Some(Str(t))
  }

  function RefKey(f: Resiliency.Field): string {
    match f
    case Timeout => "timeout"
    case Retry => "retry"
    case Breaker => "circuitBreaker"
  }

  function PolicyKey(f: Resiliency.Field): string {
    match f
    case Timeout => "timeouts"
    case Retry => "retries"
    case Breaker => "circuitBreakers"
  }

  function BreakerFields(leg: Refs): Rec<Value> {
    Field("circuitBreaker", OptStr(leg.breaker),
      Field("circuitBreakerScope", OptStr(leg.scope),
        Field("circuitBreakerCacheSize", match leg.cacheSize case None => None case Some(n) => Some(Num(n)), [])))
  }

  function LegFields(leg: Refs): Rec<Value> {
    Field("timeout", OptStr(leg.timeout), Field("retry", OptStr(leg.retry), BreakerFields(leg)))
  }

  function LegValue(): Refs -> Value {
    leg => Obj(LegFields(leg))
  }

  function OptLegValue(leg: Option<Refs>): Option<Value> {
    match leg
    case None => None
    case Some(l) => Some(LegValue()(l))
  }

  function ComponentFields(c: Component): Rec<Value> {
    if c.inboundFirst then Field("inbound", OptLegValue(c.inbound), Field("outbound", OptLegValue(c.outbound), []))
    else Field("outbound", OptLegValue(c.outbound), Field("inbound", OptLegValue(c.inbound), []))
  }

  function ComponentValue(): Component -> Value {
    c => Obj(ComponentFields(c))
  }

  function RecValue<T>(r: Option<Rec<T>>, g: T -> Value): Option<Value> {
    match r
    case None => None
    case Some(rec) => Some(Obj(Mapped(rec, g)))
  }

  function PolicyFields(pol: Policies): Rec<Value> {
    Field("timeouts", Some(Obj(pol.timeouts)),
      Field("retries", Some(Obj(pol.retries)), Field("circuitBreakers", Some(Obj(pol.breakers)), [])))
  }

  function TargetFields(t: Targets): Rec<Value> {
    Field("apps", RecValue(t.apps, LegValue()),
      Field("actors", RecValue(t.actors, LegValue()),
        Field("components", RecValue(t.components, ComponentValue()), [])))
  }

  /** config.spec as a value. */
  function Spec(s: State): Value {
    Obj(Field("policies", Some(Obj(PolicyFields(s.policies))),
      Field("targets", Some(Obj(TargetFields(s.targets))), [])))
  }

  // ------------------------------------------------------- the spec is a proper value

  lemma BreakerFieldsGet(leg: Refs)
    ensures Get(BreakerFields(leg), "circuitBreaker") == OptStr(leg.breaker)
    ensures !Has(BreakerFields(leg), "timeout") && !Has(BreakerFields(leg), "retry")
    ensures UniqueFields(BreakerFields(leg))
  {
    var size := match leg.cacheSize case None => None case Some(n) => Some(Num(n));
    FieldGet("circuitBreakerCacheSize", size, []);
    var rest := Field("circuitBreakerCacheSize", size, []);
    assert Get(rest, "circuitBreakerScope") == None;
    FieldGet("circuitBreakerScope", OptStr(leg.scope), rest);
    var rest' := Field("circuitBreakerScope", OptStr(leg.scope), rest);
    assert Get(rest', "circuitBreaker") == None;
    FieldGet("circuitBreaker", OptStr(leg.breaker), rest');
    assert Get(BreakerFields(leg), "timeout") == None && Get(BreakerFields(leg), "retry") == None;
  }

  lemma LegFieldsGet(leg: Refs)
    ensures forall f: Resiliency.Field :: Get(LegFields(leg), RefKey(f)) == OptStr(leg.Ref(f))
    ensures UniqueFields(LegFields(leg))
  {
    BreakerFieldsGet(leg);
    var rest := BreakerFields(leg);
    FieldGet("retry", OptStr(leg.retry), rest);
    var rest' := Field("retry", OptStr(leg.retry), rest);
    assert Get(rest', "timeout") == None;
    FieldGet("timeout", OptStr(leg.timeout), rest');
  }

  lemma ComponentFieldsGet(c: Component)
    ensures Get(ComponentFields(c), "outbound") == OptLegValue(c.outbound)
    ensures Get(ComponentFields(c), "inbound") == OptLegValue(c.inbound)
    ensures UniqueFields(ComponentFields(c))
  {
    if c.outbound.Some? { LegFieldsGet(c.outbound.value); }
    if c.inbound.Some? { LegFieldsGet(c.inbound.value); }
    FieldGet("inbound", OptLegValue(c.inbound), []);
    var rest := Field("inbound", OptLegValue(c.inbound), []);
    assert Get(rest, "outbound") == None;
    FieldGet("outbound", OptLegValue(c.outbound), rest);
    FieldGet("outbound", OptLegValue(c.outbound), []);
    var rest' := Field("outbound", OptLegValue(c.outbound), []);
    assert Get(rest', "inbound") == None;
    FieldGet("inbound", OptLegValue(c.inbound), rest');
  }

  lemma PolicyFieldsGet(pol: Policies)
    requires UniqueFields(pol.timeouts) && UniqueFields(pol.retries) && UniqueFields(pol.breakers)
    ensures forall f: Resiliency.Field :: Get(PolicyFields(pol), PolicyKey(f)) == Some(Obj(pol.Of(f)))
    ensures UniqueFields(PolicyFields(pol))
  {
    FieldGet("circuitBreakers", Some(Obj(pol.breakers)), []);
    var rest := Field("circuitBreakers", Some(Obj(pol.breakers)), []);
    assert Get(rest, "retries") == None;
    FieldGet("retries", Some(Obj(pol.retries)), rest);
    var rest' := Field("retries", Some(Obj(pol.retries)), rest);
    assert Get(rest', "timeouts") == None;
    FieldGet("timeouts", Some(Obj(pol.timeouts)), rest');
  }

  lemma TargetFieldsGet(t: Targets)
    requires Valid(OrEmpty(t.apps)) && Valid(OrEmpty(t.actors)) && Valid(OrEmpty(t.components))
    ensures Get(TargetFields(t), "apps") == RecValue(t.apps, LegValue())
    ensures Get(TargetFields(t), "actors") == RecValue(t.actors, LegValue())
    ensures Get(TargetFields(t), "components") == RecValue(t.components, ComponentValue())
    ensures UniqueFields(TargetFields(t))
  {
    UniqueRecs(t);
    FieldGet("components", RecValue(t.components, ComponentValue()), []);
    var rest := Field("components", RecValue(t.components, ComponentValue()), []);
    assert Get(rest, "actors") == None;
    FieldGet("actors", RecValue(t.actors, LegValue()), rest);
    var rest' := Field("actors", RecValue(t.actors, LegValue()), rest);
    assert Get(rest', "apps") == None;
    FieldGet("apps", RecValue(t.apps, LegValue()), rest');
  }

  ghost predicate UniqueOption(v: Option<Value>) {
    v.Some? ==> UniqueKeys(v.value)
  }

  lemma UniqueRecs(t: Targets)
    requires Valid(OrEmpty(t.apps)) && Valid(OrEmpty(t.actors)) && Valid(OrEmpty(t.components))
    ensures UniqueOption(RecValue(t.apps, LegValue())) && UniqueOption(RecValue(t.actors, LegValue()))
    ensures UniqueOption(RecValue(t.components, ComponentValue()))
  {
    forall leg ensures UniqueKeys(LegValue()(leg)) { LegFieldsGet(leg); }
    forall c ensures UniqueKeys(ComponentValue()(c)) { ComponentFieldsGet(c); }
    MappedUnique(OrEmpty(t.apps), LegValue());
    MappedUnique(OrEmpty(t.actors), LegValue());
    MappedUnique(OrEmpty(t.components), ComponentValue());
  }

  lemma {:induction false} MappedUnique<T(!new)>(r: Rec<T>, g: T -> Value)
    requires Valid(r) && forall v :: UniqueKeys(g(v))
    ensures UniqueFields(Mapped(r, g))
  {
    if r != [] {
      ValidTail(r);
      MappedUnique(r[1..], g);
      MappedAt(r[1..], g);
    }
  }

  lemma {:induction false} ValidIsUnique(r: Rec<Value>)
    requires Valid(r) && forall i :: 0 <= i < |r| ==> UniqueKeys(r[i].1)
    ensures UniqueFields(r)
  {
    if r != [] {
      ValidTail(r);
      ValidIsUnique(r[1..]);
    }
  }

  lemma PolicyRecordIsUnique(r: Rec<Value>)
    requires PolicyRecordOk(r)
    ensures UniqueFields(r)
  {
    forall i | 0 <= i < |r| ensures UniqueKeys(r[i].1) {
      EntryIsGot(r, i);
      assert UniqueCheck()(r[i].1);
    }
    ValidIsUnique(r);
  }

  lemma SpecGet(s: State)
    requires RecordsValid(s)
    ensures UniqueKeys(Spec(s))
    ensures Get(Spec(s).fields, "policies") == Some(Obj(PolicyFields(s.policies)))
    ensures Get(Spec(s).fields, "targets") == Some(Obj(TargetFields(s.targets)))
  {
    PolicyRecordIsUnique(s.policies.timeouts);
    PolicyRecordIsUnique(s.policies.retries);
    PolicyRecordIsUnique(s.policies.breakers);
    PolicyFieldsGet(s.policies);
    TargetFieldsGet(s.targets);
    FieldGet("targets", Some(Obj(TargetFields(s.targets))), []);
    var rest := Field("targets", Some(Obj(TargetFields(s.targets))), []);
    assert Get(rest, "policies") == None;
    FieldGet("policies", Some(Obj(PolicyFields(s.policies))), rest);
  }

  // ------------------------------------------------------- what is emitted

  /** The places a leg can be. */
  datatype Place = App(name: string) | Actor(name: string) | Outbound(name: string) | Inbound(name: string)

  function OptGet<T>(r: Option<Rec<T>>, k: string): Option<T> {
    Get(OrEmpty(r), k)
  }

  function LegAt(t: Targets, p: Place): Option<Refs> {
    match p
    case App(k) => OptGet(t.apps, k)
    case Actor(k) => OptGet(t.actors, k)
    case Outbound(k) => (match OptGet(t.components, k) case None => None case Some(c) => c.outbound)
    case Inbound(k) => (match OptGet(t.components, k) case None => None case Some(c) => c.inbound)
  }

  function LegPath(p: Place): seq<string> {
    match p
    case App(k) => ["targets", "apps", k]
    case Actor(k) => ["targets", "actors", k]
    case Outbound(k) => ["targets", "components", k, "outbound"]
    case Inbound(k) => ["targets", "components", k, "inbound"]
  }

  lemma AtStep(v: Value, k: string, rest: seq<string>)
    requires v.Obj?
    ensures At(v, [k] + rest) == match Get(v.fields, k) case None => None case Some(w) => At(w, rest)
  {
    assert ([k] + rest)[1..] == rest;
  }

  lemma RecAt<T>(r: Option<Rec<T>>, g: T -> Value, k: string, rest: seq<string>)
    ensures (match RecValue(r, g) case None => None case Some(w) => At(w, [k] + rest))
            == match OptGet(r, k) case None => None case Some(v) => At(g(v), rest)
  {
    if r.Some? {
      MappedGet(r.value, g, k);
      AtStep(Obj(Mapped(r.value, g)), k, rest);
    }
  }

  lemma TargetAt(s: State, p: Place, rest: seq<string>)
    requires RecordsValid(s)
    ensures At(Spec(s), LegPath(p) + rest)
            == match LegAt(s.targets, p) case None => None case Some(leg) => At(LegValue()(leg), rest)
  {
    var t := s.targets;
    SpecGet(s);
    TargetFieldsGet(t);
    var k := p.name;
    match p
    case App(_) =>
      assert LegPath(p) + rest == ["targets"] + (["apps"] + ([k] + rest));
      AtStep(Spec(s), "targets", ["apps"] + ([k] + rest));
      AtStep(Obj(TargetFields(t)), "apps", [k] + rest);
      RecAt(t.apps, LegValue(), k, rest);
    case Actor(_) =>
      assert LegPath(p) + rest == ["targets"] + (["actors"] + ([k] + rest));
      AtStep(Spec(s), "targets", ["actors"] + ([k] + rest));
      AtStep(Obj(TargetFields(t)), "actors", [k] + rest);
      RecAt(t.actors, LegValue(), k, rest);
    case Outbound(_) =>
      ComponentAt(s, k, "outbound", rest);
      assert LegPath(p) + rest == ["targets", "components", k, "outbound"] + rest;
    case Inbound(_) =>
      ComponentAt(s, k, "inbound", rest);
      assert LegPath(p) + rest == ["targets", "components", k, "inbound"] + rest;
  }

  lemma ComponentAt(s: State, k: string, side: string, rest: seq<string>)
    requires RecordsValid(s) && (side == "outbound" || side == "inbound")
    ensures At(Spec(s), ["targets", "components", k, side] + rest)
            == match OptGet(s.targets.components, k)
               case None => None
               case Some(c) =>
                 match (if side == "outbound" then c.outbound else c.inbound)
                 case None => None
                 case Some(leg) => At(LegValue()(leg), rest)
  {
    var rest' := [side] + rest;
    assert ["targets", "components", k, side] + rest == ["targets"] + (["components"] + ([k] + rest'));
    ComponentRecAt(s, k, rest');
    if OptGet(s.targets.components, k).Some? {
      SideAt(OptGet(s.targets.components, k).value, side, rest);
    }
  }

  lemma ComponentRecAt(s: State, k: string, rest: seq<string>)
    requires RecordsValid(s)
    ensures At(Spec(s), ["targets"] + (["components"] + ([k] + rest)))
            == match OptGet(s.targets.components, k)
               case None => None
               case Some(c) => At(ComponentValue()(c), rest)
  {
    var t := s.targets;
    SpecGet(s);
    TargetFieldsGet(t);
    AtStep(Spec(s), "targets", ["components"] + ([k] + rest));
    AtStep(Obj(TargetFields(t)), "components", [k] + rest);
    RecAt(t.components, ComponentValue(), k, rest);
  }

  lemma SideAt(c: Component, side: string, rest: seq<string>)
    requires side == "outbound" || side == "inbound"
    ensures At(ComponentValue()(c), [side] + rest)
            == match (if side == "outbound" then c.outbound else c.inbound)
               case None => None
               case Some(leg) => At(LegValue()(leg), rest)
  {
    ComponentFieldsGet(c);
    AtStep(ComponentValue()(c), side, rest);
  }

  /** The cleaned spec, as it is written. */
  function Emitted(s: State): Value {
    Clean(Spec(s))
  }

  predicate EmitsRef(s: State, p: Place, f: Resiliency.Field, name: string) {
    At(Emitted(s), LegPath(p) + [RefKey(f)]) == Some(Str(name))
  }

  predicate EmitsPolicy(s: State, f: Resiliency.Field, name: string) {
    At(Emitted(s), ["policies", PolicyKey(f), name]).Some?
  }

  /** A leg's reference is written exactly when it is there and not blank. */
  lemma RefIsEmitted(s: State, p: Place, f: Resiliency.Field, name: string)
    requires RecordsValid(s) && !IsBlank(name)
    ensures EmitsRef(s, p, f, name) <==> LegAt(s.targets, p).Some? && LegAt(s.targets, p).value.Ref(f) == Some(name)
  {
    var path := LegPath(p) + [RefKey(f)];
    SpecGet(s);
    TargetAt(s, p, [RefKey(f)]);
    if LegAt(s.targets, p).Some? {
      LegHasRef(LegAt(s.targets, p).value, f, name);
    }
    LeavesAreKept(Spec(s), path, Str(name));
  }

  lemma LegHasRef(leg: Refs, f: Resiliency.Field, name: string)
    ensures At(LegValue()(leg), [RefKey(f)]) == Some(Str(name)) <==> leg.Ref(f) == Some(name)
  {
    LegFieldsGet(leg);
    assert [RefKey(f)] == [RefKey(f)] + [];
    AtStep(LegValue()(leg), RefKey(f), []);
    assert OptStr(leg.Ref(f)) == Some(Str(name)) <==> leg.Ref(f) == Some(name);
  }

  /** One step below a cleaned object, when there is more of the path to go. */
  lemma AtCleanStep(fields: Rec<Value>, k: string, rest: seq<string>)
    requires UniqueFields(fields) && rest != []
    ensures At(Clean(Obj(fields)), [k] + rest)
            == match Get(fields, k) case None => None case Some(w) => At(Clean(w), rest)
  {
    AtStep(Clean(Obj(fields)), k, rest);
    CleanGet(fields, k);
  }

  lemma BelowPolicies(s: State, rest: seq<string>)
    requires RecordsValid(s) && rest != []
    ensures At(Emitted(s), ["policies"] + rest) == At(Clean(Obj(PolicyFields(s.policies))), rest)
  {
    SpecGet(s);
    AtCleanStep(Spec(s).fields, "policies", rest);
  }

  lemma PolicyAt(s: State, f: Resiliency.Field, name: string)
    requires RecordsValid(s)
    ensures At(Emitted(s), ["policies", PolicyKey(f), name]) == Get(CleanFields(s.policies.Of(f)), name)
  {
    UniquePolicies(s);
    var rest := [PolicyKey(f)] + ([name] + []);
    assert ["policies", PolicyKey(f), name] == ["policies"] + rest;
    BelowPolicies(s, rest);
    PolicyBelow(s.policies, f, name);
  }

  lemma PolicyBelow(pol: Policies, f: Resiliency.Field, name: string)
    requires UniqueFields(pol.timeouts) && UniqueFields(pol.retries) && UniqueFields(pol.breakers)
    ensures At(Clean(Obj(PolicyFields(pol))), [PolicyKey(f)] + ([name] + [])) == Get(CleanFields(pol.Of(f)), name)
  {
    PolicyFieldsGet(pol);
    AtCleanStep(PolicyFields(pol), PolicyKey(f), [name] + []);
    AtStep(Clean(Obj(pol.Of(f))), name, []);
  }

  /** A policy is written exactly when it is there and has something in it. */
  lemma PolicyIsEmitted(s: State, f: Resiliency.Field, name: string)
    requires RecordsValid(s)
    ensures EmitsPolicy(s, f, name)
            <==> Get(s.policies.Of(f), name).Some? && !Blank(Get(s.policies.Of(f), name).value)
  {
    PolicyAt(s, f, name);
    UniquePolicies(s);
    CleanGet(s.policies.Of(f), name);
    if Has(s.policies.Of(f), name) {
      VanishesIffBlank(Get(s.policies.Of(f), name).value);
    }
  }

  lemma UniquePolicies(s: State)
    requires RecordsValid(s)
    ensures forall f: Resiliency.Field :: UniqueFields(s.policies.Of(f))
    ensures UniqueFields(s.policies.timeouts) && UniqueFields(s.policies.retries) && UniqueFields(s.policies.breakers)
  {
    PolicyRecordIsUnique(s.policies.timeouts);
    PolicyRecordIsUnique(s.policies.retries);
    PolicyRecordIsUnique(s.policies.breakers);
  }

  /** Every reference in the output names a policy in the output. */
  ghost predicate NoDanglingRef(s: State) {
    forall p, f, name :: EmitsRef(s, p, f, name) ==> EmitsPolicy(s, f, name)
  }

  predicate Refers(s: State, p: Place, f: Resiliency.Field, name: string) {
    LegAt(s.targets, p).Some? && LegAt(s.targets, p).value.Ref(f) == Some(name)
  }

  /** No policy that a leg names (by a name that is not blank) is blank all through. */
  ghost predicate ReferredPoliciesAreFilled(s: State) {
    forall p, f, name :: Refers(s, p, f, name) && !IsBlank(name) && Has(s.policies.Of(f), name)
      ==> !Blank(Get(s.policies.Of(f), name).value)
  }

  lemma {:induction false} CleanedAt(v: Value, path: seq<string>)
    requires UniqueKeys(v) && path != [] && At(Clean(v), path).Some?
    ensures !Dropped(At(Clean(v), path).value)
    decreases |path|
  {
    CleanGet(v.fields, path[0]);
    var w := Get(v.fields, path[0]).value;
    UniqueGet(v.fields, path[0]);
    if |path| > 1 {
      CleanedAt(w, path[1..]);
    }
  }

  lemma ReferenceIsOk(s: State, p: Place, f: Resiliency.Field, name: string)
    requires Inv(s) && Refers(s, p, f, name)
    ensures Has(s.policies.Of(f), name)
  {
    var leg := LegAt(s.targets, p).value;
    assert LegCheck(s.policies)(leg) by {
      assert p.Outbound? || p.Inbound? ==> ComponentCheck(s.policies)(OptGet(s.targets.components, p.name).value);
    }
    assert RefOk(s.policies, leg, f);
  }

  lemma EmittedRefIsReference(s: State, p: Place, f: Resiliency.Field, name: string)
    requires RecordsValid(s)
    ensures EmitsRef(s, p, f, name) <==> Refers(s, p, f, name) && !IsBlank(name)
  {
    if IsBlank(name) {
      SpecGet(s);
      if EmitsRef(s, p, f, name) {
        CleanedAt(Spec(s), LegPath(p) + [RefKey(f)]);
      }
    } else {
      RefIsEmitted(s, p, f, name);
    }
  }

  /** The output has a dangling reference exactly when a policy in use is blank all through. */
  lemma EmittedReferencesResolve(s: State)
    requires Inv(s)
    ensures NoDanglingRef(s) <==> ReferredPoliciesAreFilled(s)
  {
    forall p, f, name
      ensures EmitsRef(s, p, f, name) <==> Refers(s, p, f, name) && !IsBlank(name)
      ensures EmitsPolicy(s, f, name) <==> Has(s.policies.Of(f), name) && !Blank(Get(s.policies.Of(f), name).value)
      ensures Refers(s, p, f, name) ==> Has(s.policies.Of(f), name)
    {
      EmittedRefIsReference(s, p, f, name);
      PolicyIsEmitted(s, f, name);
      if Refers(s, p, f, name) {
        ReferenceIsOk(s, p, f, name);
      }
    }
  }

  /** Over every allowed session. */
  lemma SessionsEmitNoDanglingRef(actions: seq<Action>)
    requires AllAllowed(INITIAL, actions)
    ensures NoDanglingRef(Run(INITIAL, actions)) <==> ReferredPoliciesAreFilled(Run(INITIAL, actions))
  {
    NoReferenceDangles(actions);
    EmittedReferencesResolve(Run(INITIAL, actions));
  }

  /** A circuit breaker that is blank all through is dropped while the reference to it stays. */
  lemma BlankBreakerDangles(blank: Value)
    requires UniqueKeys(blank) && Blank(blank)
    ensures var actions := [
              UpsertPolicy(Breaker, "cb", blank),
              UpsertApp("app", Refs(None, None, Some("cb"), None, None))];
            AllAllowed(INITIAL, actions) && !NoDanglingRef(Run(INITIAL, actions))
  {
    var leg := Refs(None, None, Some("cb"), None, None);
    var a, b := UpsertPolicy(Breaker, "cb", blank), UpsertApp("app", leg);
    var s1 := Reduce(INITIAL, a);
    var s2 := Reduce(s1, b);
    assert s1.policies.breakers[0].0 == "cb";
    assert [a, b][1..] == [b] && [b][1..] == [];
    assert Run(s1, [b]) == s2 && AllAllowed(s1, [b]);
    assert Run(INITIAL, [a, b]) == s2 && AllAllowed(INITIAL, [a, b]);
    SessionsEmitNoDanglingRef([a, b]);
    assert Refers(s2, App("app"), Breaker, "cb");
    assert Get(s2.policies.Of(Breaker), "cb") == Some(blank);
    assert !IsSpace("cb"[0]);
  }

  /**
   * What the circuit breaker dialog saves when its fields are cleared
   * (web/src/pages/resiliency-builder/policyDialogs.tsx).
   */
  const CLEARED_BREAKER := Obj([("maxRequests", Undefined), ("timeout", Str("")), ("trip", Str("")),
    ("interval", Str(""))])

  /** The dialog lets such a policy be saved, and it is blank: a target that names it then dangles. */
  lemma ClearedDialogDangles()
    ensures UniqueKeys(CLEARED_BREAKER) && Blank(CLEARED_BREAKER)
    ensures var actions := [
              UpsertPolicy(Breaker, "cb", CLEARED_BREAKER),
              UpsertApp("app", Refs(None, None, Some("cb"), None, None))];
            AllAllowed(INITIAL, actions) && !NoDanglingRef(Run(INITIAL, actions))
  {
    ClearedIsBlank();
    BlankBreakerDangles(CLEARED_BREAKER);
  }

  lemma BlankCons(k: string, v: Value, rest: Rec<Value>)
    requires Blank(v) && UniqueKeys(v) && AllBlank(rest) && UniqueFields(rest) && !Has(rest, k)
    ensures AllBlank([(k, v)] + rest) && UniqueFields([(k, v)] + rest)
  {
    var all: Rec<Value> := [(k, v)] + rest;
    assert all[0] == (k, v) && all[1..] == rest;
  }

  lemma ClearedIsBlank()
    ensures UniqueKeys(CLEARED_BREAKER) && Blank(CLEARED_BREAKER)
  {
    var one: Rec<Value> := [("interval", Str(""))];
    BlankCons("interval", Str(""), []);
    assert |"trip"| != |"interval"|;
    BlankCons("trip", Str(""), one);
    var two: Rec<Value> := [("trip", Str(""))] + one;
    assert |"timeout"| != |"trip"| && |"timeout"| != |"interval"|;
    BlankCons("timeout", Str(""), two);
    var three: Rec<Value> := [("timeout", Str(""))] + two;
    assert |"maxRequests"| > |"interval"| > |"timeout"| > |"trip"|;
    BlankCons("maxRequests", Undefined, three);
    assert CLEARED_BREAKER.fields == [("maxRequests", Undefined)] + three;
  }
}
