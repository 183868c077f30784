/** The resiliency builder's state machine: web/src/pages/resiliency-builder/reducer.ts. */
module Resiliency {
  import opened Basics
  import opened JsRecord
  import opened YamlEmit

  /** The three policy kinds; the reducer treats them alike. */
  datatype Field = Timeout | Retry | Breaker

  /** A target or leg: its policy references, and the two settings only actors have. */
  datatype Refs = Refs(timeout: Option<string>, retry: Option<string>, breaker: Option<string>, scope: Option<string>,
    cacheSize: Option<real>)
  {
    function Ref(f: Field): Option<string> {
      match f
      case Timeout => timeout
      case Retry => retry
      case Breaker => breaker
    }

    function WithRef(f: Field, name: Option<string>): Refs {
      match f
      case Timeout => this.(timeout := name)
      case Retry => this.(retry := name)
      case Breaker => this.(breaker := name)
    }
  }

  /** A component's legs, and whether its inbound leg is listed before its outbound one. */
  datatype Component = Component(outbound: Option<Refs>, inbound: Option<Refs>, inboundFirst: bool)
  {
    predicate Proper() {
      inboundFirst ==> outbound.Some? && inbound.Some?
    }

    /** One of the legs refers to the policy. */
    predicate Names(f: Field, name: string) {
      (outbound.Some? && outbound.value.Ref(f) == Some(name)) || (inbound.Some? && inbound.value.Ref(f) == Some(name))
    }
  }

  datatype Targets = Targets(apps: Option<Rec<Refs>>, actors: Option<Rec<Refs>>, components: Option<Rec<Component>>)

  /** Policies by name; the reducer never looks inside one. */
  datatype Policies = Policies(timeouts: Rec<Value>, retries: Rec<Value>, breakers: Rec<Value>)
  {
    function Of(f: Field): Rec<Value> {
      match f
      case Timeout => timeouts
      case Retry => retries
      case Breaker => breakers
    }

    function With(f: Field, r: Rec<Value>): Policies {
      match f
      case Timeout => this.(timeouts := r)
      case Retry => this.(retries := r)
      case Breaker => this.(breakers := r)
    }
  }

  datatype State = State(name: string, namespace: Option<string>, policies: Policies, targets: Targets, activeStep: int)

  datatype Action =
    | SetName(name: string)
    | SetNamespace(namespace: string)
    | UpsertPolicy(field: Field, name: string, policy: Value)
    | RemovePolicy(field: Field, name: string)
    | RenamePolicy(field: Field, from: string, to: string)
    | UpsertApp(name: string, target: Refs)
    | RemoveApp(name: string)
    | UpsertActor(name: string, target: Refs)
    | RemoveActor(name: string)
    | UpsertComponent(name: string, component: Component)
    | RemoveComponent(name: string)
    | Next
    | Back

  const INITIAL := State("", Some("default"), Policies([], [], []), Targets(Some([]), Some([]), Some([])), 0)

  /** Points a leg's reference to `from` at `to`, or clears it, with the breaker settings that need it. */
  function RemapRef(leg: Refs, f: Field, from: string, to: Option<string>): Refs {
    if leg.Ref(f) != Some(from) then leg
    else if to.Some? then leg.WithRef(f, to)
    else if f == Breaker then leg.(breaker := None, scope := None, cacheSize := None)
    else leg.WithRef(f, None)
  }

  function MapOption<T, U>(o: Option<T>, g: T -> U): Option<U> {
    match o
    case None => None
    case Some(v) => Some(g(v))
  }

  function Remapper(f: Field, from: string, to: Option<string>): Refs -> Refs {
    leg => RemapRef(leg, f, from, to)
  }

  /** A component that names `from` is built anew, outbound leg first; any other is left alone. */
  function RemapComponent(c: Component, f: Field, from: string, to: Option<string>): Component {
    if !c.Names(f, from) then c
    else Component(MapOption(c.outbound, Remapper(f, from, to)), MapOption(c.inbound, Remapper(f, from, to)), false)
  }

  lemma RemapLegs(c: Component, f: Field, from: string, to: Option<string>)
    ensures RemapComponent(c, f, from, to).outbound == MapOption(c.outbound, Remapper(f, from, to))
    ensures RemapComponent(c, f, from, to).inbound == MapOption(c.inbound, Remapper(f, from, to))
  {
  }

  function ComponentRemapper(f: Field, from: string, to: Option<string>): Component -> Component {
    c => RemapComponent(c, f, from, to)
  }

  function MapRec<T, U>(r: Option<Rec<T>>, g: T -> U): Option<Rec<U>> {
    match r
    case None => None
    case Some(rec) => Some(Mapped(rec, g))
  }

  function RemapPolicyRefs(t: Targets, f: Field, from: string, to: Option<string>): Targets {
    Targets(
      MapRec(t.apps, Remapper(f, from, to)),
      MapRec(t.actors, Remapper(f, from, to)),
      MapRec(t.components, ComponentRemapper(f, from, to)))
  }

  function OrEmpty<T>(r: Option<Rec<T>>): Rec<T> {
    match r
    case None => []
    case Some(rec) => rec
  }

  function Reduce(s: State, a: Action): State {
    var pol, tgt := s.policies, s.targets;
    match a
    case SetName(name) => s.(name := name)
    case SetNamespace(namespace) => s.(namespace := Some(namespace))
    case UpsertPolicy(f, name, policy) => s.(policies := pol.With(f, Put(pol.Of(f), name, policy)))
    case RemovePolicy(f, name) =>
      s.(policies := pol.With(f, Remove(pol.Of(f), name)), targets := RemapPolicyRefs(tgt, f, name, None))
    case RenamePolicy(f, from, to) =>
      s.(policies := pol.With(f, RenamedKey(pol.Of(f), from, to)), targets := RemapPolicyRefs(tgt, f, from, Some(to)))
    case UpsertApp(name, target) => s.(targets := tgt.(apps := Some(Put(OrEmpty(tgt.apps), name, target))))
    case RemoveApp(name) => s.(targets := tgt.(apps := Some(Remove(OrEmpty(tgt.apps), name))))
    case UpsertActor(name, target) => s.(targets := tgt.(actors := Some(Put(OrEmpty(tgt.actors), name, target))))
    case RemoveActor(name) => s.(targets := tgt.(actors := Some(Remove(OrEmpty(tgt.actors), name))))
    case UpsertComponent(name, c) => s.(targets := tgt.(components := Some(Put(OrEmpty(tgt.components), name, c))))
    case RemoveComponent(name) => s.(targets := tgt.(components := Some(Remove(OrEmpty(tgt.components), name))))
    case Next => s.(activeStep := s.activeStep + 1)
    case Back => s.(activeStep := if s.activeStep > 1 then s.activeStep - 1 else 0)
  }

  // ------------------------------------------------------- no dangling references

  predicate RefOk(pol: Policies, leg: Refs, f: Field) {
    leg.Ref(f).Some? ==> Has(pol.Of(f), leg.Ref(f).value)
  }

  /** Every reference of the leg names an existing policy, and breaker settings need a breaker. */
  predicate LegOk(pol: Policies, leg: Refs) {
    && RefOk(pol, leg, Timeout) && RefOk(pol, leg, Retry) && RefOk(pol, leg, Breaker)
    && (leg.scope.Some? || leg.cacheSize.Some? ==> leg.breaker.Some?)
  }

  predicate OptionLegOk(pol: Policies, leg: Option<Refs>) {
    leg.Some? ==> LegOk(pol, leg.value)
  }

  predicate ComponentOk(pol: Policies, c: Component) {
    OptionLegOk(pol, c.outbound) && OptionLegOk(pol, c.inbound)
  }

  ghost predicate AllOk<T>(r: Option<Rec<T>>, ok: T -> bool) {
    r.Some? ==> forall k :: Get(r.value, k).Some? ==> ok(Get(r.value, k).value)
  }

  function LegCheck(pol: Policies): Refs -> bool {
    leg => LegOk(pol, leg)
  }

  function ComponentCheck(pol: Policies): Component -> bool {
    c => ComponentOk(pol, c)
  }

  ghost predicate TargetsOk(pol: Policies, t: Targets) {
    AllOk(t.apps, LegCheck(pol)) && AllOk(t.actors, LegCheck(pol)) && AllOk(t.components, ComponentCheck(pol))
  }

  ghost function UniqueCheck(): Value -> bool {
    v => UniqueKeys(v)
  }

  ghost predicate PolicyRecordOk(r: Rec<Value>) {
    Valid(r) && AllOk(Some(r), UniqueCheck())
  }

  /** Every record of the state is one JavaScript can hold. */
  ghost predicate RecordsValid(s: State) {
    && PolicyRecordOk(s.policies.timeouts) && PolicyRecordOk(s.policies.retries) && PolicyRecordOk(s.policies.breakers)
    && Valid(OrEmpty(s.targets.apps)) && Valid(OrEmpty(s.targets.actors)) && Valid(OrEmpty(s.targets.components))
  }

  ghost predicate Inv(s: State) {
    RecordsValid(s) && TargetsOk(s.policies, s.targets)
  }

  /**
   * The only demand on actions: a target is saved with references to policies that exist.
   * (A policy is a JavaScript object, so it has no key twice; and a missing leg is not listed.)
   */
  ghost predicate Allowed(s: State, a: Action) {
    match a
    case UpsertPolicy(_, _, policy) => UniqueKeys(policy)
    case UpsertApp(_, target) => LegOk(s.policies, target)
    case UpsertActor(_, target) => LegOk(s.policies, target)
    case UpsertComponent(_, c) => ComponentOk(s.policies, c) && c.Proper()
    case _ => true
  }

  lemma PutKeepsOk<T>(r: Option<Rec<T>>, ok: T -> bool, k: string, v: T)
    requires AllOk(r, ok) && ok(v)
    ensures AllOk(Some(Put(OrEmpty(r), k, v)), ok)
  {
    forall x ensures Get(Put(OrEmpty(r), k, v), x) == if x == k then Some(v) else Get(OrEmpty(r), x) {
      PutGet(OrEmpty(r), k, v, x);
    }
  }

  lemma RemoveKeepsOk<T>(r: Option<Rec<T>>, ok: T -> bool, k: string)
    requires AllOk(r, ok)
    ensures AllOk(Some(Remove(OrEmpty(r), k)), ok)
  {
    forall x ensures Get(Remove(OrEmpty(r), k), x) == if x == k then None else Get(OrEmpty(r), x) {
      RemoveGet(OrEmpty(r), k, x);
    }
  }

  lemma MapKeepsOk<T(!new), U>(r: Option<Rec<T>>, g: T -> U, ok: T -> bool, ok': U -> bool)
    requires AllOk(r, ok) && forall v :: ok(v) ==> ok'(g(v))
    ensures AllOk(MapRec(r, g), ok')
  {
    if r.Some? {
      forall x ensures Get(Mapped(r.value, g), x) == MapOption(Get(r.value, x), g) {
        MappedGet(r.value, g, x);
      }
    }
  }

  /** The policies of one kind change so that remapped legs still resolve. */
  ghost predicate Carries(pol: Policies, pol': Policies, f: Field, from: string, to: Option<string>) {
    && (forall g :: g != f ==> pol'.Of(g) == pol.Of(g))
    && (forall x :: x != from && Has(pol.Of(f), x) ==> Has(pol'.Of(f), x))
    && (to.Some? && Has(pol.Of(f), from) ==> Has(pol'.Of(f), to.value))
  }

  lemma RemapKeepsRefOk(pol: Policies, pol': Policies, f: Field, from: string, to: Option<string>, leg: Refs, g: Field)
    requires RefOk(pol, leg, g) && Carries(pol, pol', f, from, to)
    ensures RefOk(pol', RemapRef(leg, f, from, to), g)
  {
    if g == f {
      assert leg.Ref(f).Some? ==> Has(pol.Of(f), leg.Ref(f).value);
      assert RemapRef(leg, f, from, to).Ref(f) == if leg.Ref(f) == Some(from) then to else leg.Ref(f);
    } else {
      assert pol'.Of(g) == pol.Of(g);
      assert RemapRef(leg, f, from, to).Ref(g) == leg.Ref(g);
    }
  }

  lemma RemapKeepsLegOk(pol: Policies, pol': Policies, f: Field, from: string, to: Option<string>, leg: Refs)
    requires LegOk(pol, leg) && Carries(pol, pol', f, from, to)
    ensures LegOk(pol', RemapRef(leg, f, from, to))
  {
    RemapKeepsRefOk(pol, pol', f, from, to, leg, Timeout);
    RemapKeepsRefOk(pol, pol', f, from, to, leg, Retry);
    RemapKeepsRefOk(pol, pol', f, from, to, leg, Breaker);
  }

  lemma RemapKeepsComponentOk(pol: Policies, pol': Policies, f: Field, from: string, to: Option<string>, c: Component)
    requires ComponentOk(pol, c) && Carries(pol, pol', f, from, to)
    ensures ComponentOk(pol', RemapComponent(c, f, from, to))
  {
    RemapLegs(c, f, from, to);
    if c.outbound.Some? {
      RemapKeepsLegOk(pol, pol', f, from, to, c.outbound.value);
    }
    if c.inbound.Some? {
      RemapKeepsLegOk(pol, pol', f, from, to, c.inbound.value);
    }
  }

  lemma RemapKeepsTargetsOk(pol: Policies, pol': Policies, f: Field, from: string, to: Option<string>, t: Targets)
    requires TargetsOk(pol, t) && Carries(pol, pol', f, from, to)
    ensures TargetsOk(pol', RemapPolicyRefs(t, f, from, to))
  {
    forall leg | LegOk(pol, leg) ensures LegOk(pol', RemapRef(leg, f, from, to)) {
      RemapKeepsLegOk(pol, pol', f, from, to, leg);
    }
    forall c | ComponentOk(pol, c) ensures ComponentOk(pol', RemapComponent(c, f, from, to)) {
      RemapKeepsComponentOk(pol, pol', f, from, to, c);
    }
    RemapRecords(pol, pol', f, from, to, t);
  }

  lemma RemapRecords(pol: Policies, pol': Policies, f: Field, from: string, to: Option<string>, t: Targets)
    requires TargetsOk(pol, t)
    requires forall leg :: LegOk(pol, leg) ==> LegOk(pol', RemapRef(leg, f, from, to))
    requires forall c :: ComponentOk(pol, c) ==> ComponentOk(pol', RemapComponent(c, f, from, to))
    ensures TargetsOk(pol', RemapPolicyRefs(t, f, from, to))
  {
    MapKeepsOk(t.apps, Remapper(f, from, to), LegCheck(pol), LegCheck(pol'));
    MapKeepsOk(t.actors, Remapper(f, from, to), LegCheck(pol), LegCheck(pol'));
    MapKeepsOk(t.components, ComponentRemapper(f, from, to), ComponentCheck(pol), ComponentCheck(pol'));
  }

  /** Policies are only added or replaced: every leg still resolves. */
  lemma MoreKeepsTargetsOk(pol: Policies, pol': Policies, t: Targets)
    requires TargetsOk(pol, t)
    requires forall f, x :: Has(pol.Of(f), x) ==> Has(pol'.Of(f), x)
    ensures TargetsOk(pol', t)
  {
    forall leg | LegOk(pol, leg) ensures LegOk(pol', leg) {
      forall f ensures RefOk(pol, leg, f) ==> RefOk(pol', leg, f) {
      }
    }
  }

  lemma {:induction false} RenameIntoKeepsOk<V>(next: Rec<V>, entries: Rec<V>, from: string, to: string, ok: V -> bool)
    requires AllOk(Some(next), ok) && forall i :: 0 <= i < |entries| ==> ok(entries[i].1)
    ensures AllOk(Some(RenameInto(next, entries, from, to)), ok)
    decreases |entries|
  {
    if entries != [] {
      var k := Renamed(entries[0].0, from, to);
      PutKeepsOk(Some(next), ok, k, entries[0].1);
      RenameIntoKeepsOk(Put(next, k, entries[0].1), entries[1..], from, to, ok);
    }
  }

  lemma {:induction false} EntryIsGot<V>(r: Rec<V>, i: nat)
    requires Valid(r) && i < |r|
    ensures Get(r, r[i].0) == Some(r[i].1)
  {
    if i > 0 {
      ValidTail(r);
      EntryIsGot(r[1..], i - 1);
    }
  }

  /** What a rename does to one policy record, with no condition on the new name. */
  lemma RenameKeepsRecord(r: Rec<Value>, from: string, to: string)
    requires PolicyRecordOk(r)
    ensures PolicyRecordOk(RenamedKey(r, from, to))
    ensures forall x :: x != from && Has(r, x) ==> Has(RenamedKey(r, from, to), x)
    ensures Has(r, from) ==> Has(RenamedKey(r, from, to), to)
  {
    if Has(r, from) {
      forall i | 0 <= i < |r| ensures UniqueCheck()(r[i].1) {
        EntryIsGot(r, i);
      }
      RenameIntoKeepsOk([], r, from, to, UniqueCheck());
      RenameIntoValid([], r, from, to);
      forall x ensures Has(RenamedKey(r, from, to), x) <==> x == to || (x != from && Has(r, x)) {
        RenamedKeyKeys(r, from, to, x);
      }
    }
  }

  lemma UpsertKeepsInv(s: State, f: Field, name: string, policy: Value)
    requires Inv(s) && UniqueKeys(policy)
    ensures Inv(Reduce(s, UpsertPolicy(f, name, policy)))
  {
    var pol, pol' := s.policies, Reduce(s, UpsertPolicy(f, name, policy)).policies;
    PutValid(pol.Of(f), name, policy);
    PutKeepsOk(Some(pol.Of(f)), UniqueCheck(), name, policy);
    forall g, x ensures Has(pol.Of(g), x) ==> Has(pol'.Of(g), x) {
      PutGet(pol.Of(f), name, policy, x);
    }
    MoreKeepsTargetsOk(pol, pol', s.targets);
  }

  lemma RemoveKeepsInv(s: State, f: Field, name: string)
    requires Inv(s)
    ensures Inv(Reduce(s, RemovePolicy(f, name)))
  {
    var pol, pol' := s.policies, Reduce(s, RemovePolicy(f, name)).policies;
    RemoveValid(pol.Of(f), name);
    RemoveKeepsOk(Some(pol.Of(f)), UniqueCheck(), name);
    forall x ensures x != name && Has(pol.Of(f), x) ==> Has(pol'.Of(f), x) {
      RemoveGet(pol.Of(f), name, x);
    }
    RemapKeepsTargetsOk(pol, pol', f, name, None, s.targets);
    RemapKeepsRecords(s.targets, f, name, None);
  }

  /** No freshness is asked of `to`: both policies' references end at the one that survives. */
  lemma RenameKeepsInv(s: State, f: Field, from: string, to: string)
    requires Inv(s)
    ensures Inv(Reduce(s, RenamePolicy(f, from, to)))
  {
    var pol, pol' := s.policies, Reduce(s, RenamePolicy(f, from, to)).policies;
    RenameKeepsRecord(pol.Of(f), from, to);
    RemapKeepsTargetsOk(pol, pol', f, from, Some(to), s.targets);
    RemapKeepsRecords(s.targets, f, from, Some(to));
  }

  lemma MappedValid<T, U>(r: Option<Rec<T>>, g: T -> U)
    requires Valid(OrEmpty(r))
    ensures Valid(OrEmpty(MapRec(r, g)))
  {
    if r.Some? {
      MappedAt(r.value, g);
    }
  }

  lemma RemapKeepsRecords(t: Targets, f: Field, from: string, to: Option<string>)
    requires Valid(OrEmpty(t.apps)) && Valid(OrEmpty(t.actors)) && Valid(OrEmpty(t.components))
    ensures var t' := RemapPolicyRefs(t, f, from, to);
            Valid(OrEmpty(t'.apps)) && Valid(OrEmpty(t'.actors)) && Valid(OrEmpty(t'.components))
  {
    MappedValid(t.apps, Remapper(f, from, to));
    MappedValid(t.actors, Remapper(f, from, to));
    MappedValid(t.components, ComponentRemapper(f, from, to));
  }

  lemma TargetStepKeepsInv(s: State, a: Action)
    requires Inv(s) && Allowed(s, a) && !(a.UpsertPolicy? || a.RemovePolicy? || a.RenamePolicy?)
    ensures Inv(Reduce(s, a))
  {
    var pol, t := s.policies, s.targets;
    match a
    case UpsertApp(name, target) =>
      PutValid(OrEmpty(t.apps), name, target);
      PutKeepsOk(t.apps, LegCheck(pol), name, target);
    case RemoveApp(name) =>
      RemoveValid(OrEmpty(t.apps), name);
      RemoveKeepsOk(t.apps, LegCheck(pol), name);
    case UpsertActor(name, target) =>
      PutValid(OrEmpty(t.actors), name, target);
      PutKeepsOk(t.actors, LegCheck(pol), name, target);
    case RemoveActor(name) =>
      RemoveValid(OrEmpty(t.actors), name);
      RemoveKeepsOk(t.actors, LegCheck(pol), name);
    case UpsertComponent(name, c) =>
      PutValid(OrEmpty(t.components), name, c);
      PutKeepsOk(t.components, ComponentCheck(pol), name, c);
    case RemoveComponent(name) =>
      RemoveValid(OrEmpty(t.components), name);
      RemoveKeepsOk(t.components, ComponentCheck(pol), name);
    case _ =>
  }

  lemma StepKeepsInv(s: State, a: Action)
    requires Inv(s) && Allowed(s, a)
    ensures Inv(Reduce(s, a))
  {
    match a
    case UpsertPolicy(f, name, policy) => UpsertKeepsInv(s, f, name, policy);
    case RemovePolicy(f, name) => RemoveKeepsInv(s, f, name);
    case RenamePolicy(f, from, to) => RenameKeepsInv(s, f, from, to);
    case _ => TargetStepKeepsInv(s, a);
  }

  function Run(s: State, actions: seq<Action>): State
    decreases |actions|
  {
    if actions == [] then s else Run(Reduce(s, actions[0]), actions[1..])
  }

  /** Each action is allowed when it is dispatched. */
  ghost predicate AllAllowed(s: State, actions: seq<Action>)
    decreases |actions|
  {
    actions == [] || (Allowed(s, actions[0]) && AllAllowed(Reduce(s, actions[0]), actions[1..]))
  }

  lemma {:induction false} RunKeepsInv(s: State, actions: seq<Action>)
    requires Inv(s) && AllAllowed(s, actions)
    ensures Inv(Run(s, actions))
    decreases |actions|
  {
    if actions != [] {
      StepKeepsInv(s, actions[0]);
      RunKeepsInv(Reduce(s, actions[0]), actions[1..]);
    }
  }

  /** After any allowed actions no reference dangles, in apps, actors and both component legs. */
  lemma NoReferenceDangles(actions: seq<Action>)
    requires AllAllowed(INITIAL, actions)
    ensures Inv(Run(INITIAL, actions))
  {
    RunKeepsInv(INITIAL, actions);
  }

  // ------------------------------------------------------- renaming keeps the meaning

  datatype Meaning = NoRef | Dangling | Means(policy: Value)

  /** The policy that applies to a leg. */
  function Resolve(pol: Policies, leg: Refs, f: Field): Meaning {
    ResolveIn(pol.Of(f), leg.Ref(f))
  }

  function ResolveIn(r: Rec<Value>, ref: Option<string>): Meaning {
    match ref
    case None => NoRef
    case Some(name) => match Get(r, name) case None => Dangling case Some(v) => Means(v)
  }

  /** The two legs mean the same and have the same breaker settings. */
  predicate SameMeaning(pol: Policies, leg: Refs, pol': Policies, leg': Refs) {
    && Resolve(pol, leg, Timeout) == Resolve(pol', leg', Timeout)
    && Resolve(pol, leg, Retry) == Resolve(pol', leg', Retry)
    && Resolve(pol, leg, Breaker) == Resolve(pol', leg', Breaker)
    && leg.scope == leg'.scope && leg.cacheSize == leg'.cacheSize
  }

  lemma RenameKeepsRef(pol: Policies, f: Field, from: string, to: string, leg: Refs, g: Field)
    requires Valid(pol.Of(f)) && Has(pol.Of(f), from) && !Has(pol.Of(f), to)
    ensures Resolve(pol, leg, g)
            == Resolve(pol.With(f, RenamedKey(pol.Of(f), from, to)), RemapRef(leg, f, from, Some(to)), g)
            <==> g != f || leg.Ref(f) != Some(to)
  {
    WithOf(pol, f, RenamedKey(pol.Of(f), from, to), g);
    RemappedRef(leg, f, from, to, g);
    if g == f {
      RenamedResolves(pol.Of(f), from, to, leg.Ref(f));
    }
  }

  lemma RenamedResolves(r: Rec<Value>, from: string, to: string, ref: Option<string>)
    requires Valid(r) && Has(r, from) && !Has(r, to)
    ensures ResolveIn(r, ref) == ResolveIn(RenamedKey(r, from, to), if ref == Some(from) then Some(to) else ref)
            <==> ref != Some(to)
  {
    RenamedKeyFresh(r, from, to);
  }

  lemma WithOf(pol: Policies, f: Field, r: Rec<Value>, g: Field)
    ensures pol.With(f, r).Of(g) == if g == f then r else pol.Of(g)
  {
  }

  lemma RemappedRef(leg: Refs, f: Field, from: string, to: string, g: Field)
    ensures RemapRef(leg, f, from, Some(to)).Ref(g)
            == if g == f && leg.Ref(f) == Some(from) then Some(to) else leg.Ref(g)
  {
  }

  /** One leg keeps its meaning exactly when it did not name the new name already. */
  lemma RenameKeepsLeg(pol: Policies, f: Field, from: string, to: string, leg: Refs)
    requires Valid(pol.Of(f)) && Has(pol.Of(f), from) && !Has(pol.Of(f), to)
    ensures SameMeaning(pol, leg, pol.With(f, RenamedKey(pol.Of(f), from, to)), RemapRef(leg, f, from, Some(to)))
            <==> leg.Ref(f) != Some(to)
  {
    RenameKeepsRef(pol, f, from, to, leg, Timeout);
    RenameKeepsRef(pol, f, from, to, leg, Retry);
    RenameKeepsRef(pol, f, from, to, leg, Breaker);
  }

  predicate NamesUnused<T>(r: Option<Rec<T>>, used: T -> bool) {
    r.Some? ==> forall i :: 0 <= i < |r.value| ==> !used(r.value[i].1)
  }

  function LegNames(f: Field, name: string): Refs -> bool {
    (leg: Refs) => leg.Ref(f) == Some(name)
  }

  function ComponentNames(f: Field, name: string): Component -> bool {
    (c: Component) => c.Names(f, name)
  }

  /** No leg of any target names the policy. */
  predicate Unreferenced(t: Targets, f: Field, name: string) {
    && NamesUnused(t.apps, LegNames(f, name)) && NamesUnused(t.actors, LegNames(f, name))
    && NamesUnused(t.components, ComponentNames(f, name))
  }

  lemma MissingIsUnused<T>(r: Option<Rec<T>>, ok: T -> bool, used: T -> bool)
    requires Valid(OrEmpty(r)) && AllOk(r, ok)
    requires r.Some? ==> forall i :: 0 <= i < |r.value| && ok(r.value[i].1) ==> !used(r.value[i].1)
    ensures NamesUnused(r, used)
  {
    if r.Some? {
      forall i | 0 <= i < |r.value| ensures ok(r.value[i].1) {
        EntryIsGot(r.value, i);
      }
    }
  }

  lemma OkLegAvoids(pol: Policies, leg: Refs, f: Field, name: string)
    requires LegOk(pol, leg) && !Has(pol.Of(f), name)
    ensures leg.Ref(f) != Some(name)
  {
    assert RefOk(pol, leg, f);
  }

  /** A missing policy is not referenced. */
  lemma MissingIsUnreferenced(s: State, f: Field, name: string)
    requires Inv(s) && !Has(s.policies.Of(f), name)
    ensures Unreferenced(s.targets, f, name)
  {
    var pol, t := s.policies, s.targets;
    forall leg | LegOk(pol, leg) ensures leg.Ref(f) != Some(name) {
      OkLegAvoids(pol, leg, f, name);
    }
    MissingIsUnused(t.apps, LegCheck(pol), LegNames(f, name));
    MissingIsUnused(t.actors, LegCheck(pol), LegNames(f, name));
    MissingIsUnused(t.components, ComponentCheck(pol), ComponentNames(f, name));
  }

  ghost predicate Aligned<T(!new)>(r: Option<Rec<T>>, r': Option<Rec<T>>, same: (T, T) -> bool) {
    && r.Some? == r'.Some?
    && (r.Some? ==>
         && |r.value| == |r'.value|
         && forall i :: 0 <= i < |r.value| ==> r.value[i].0 == r'.value[i].0 && same(r.value[i].1, r'.value[i].1))
  }

  function LegSame(pol: Policies, pol': Policies): (Refs, Refs) -> bool {
    (a, b) => SameMeaning(pol, a, pol', b)
  }

  predicate OptionSame(pol: Policies, a: Option<Refs>, pol': Policies, b: Option<Refs>) {
    a.Some? == b.Some? && (a.Some? ==> SameMeaning(pol, a.value, pol', b.value))
  }

  function ComponentSame(pol: Policies, pol': Policies): (Component, Component) -> bool {
    (a: Component, b: Component) =>
      OptionSame(pol, a.outbound, pol', b.outbound) && OptionSame(pol, a.inbound, pol', b.inbound)
  }

  /** The same targets in the same order, every leg of every target with the same meaning. */
  ghost predicate TargetsAgree(pol: Policies, t: Targets, pol': Policies, t': Targets) {
    && Aligned(t.apps, t'.apps, LegSame(pol, pol'))
    && Aligned(t.actors, t'.actors, LegSame(pol, pol'))
    && Aligned(t.components, t'.components, ComponentSame(pol, pol'))
  }

  lemma MappedAligned<T(!new)>(r: Option<Rec<T>>, g: T -> T, unused: T -> bool, same: (T, T) -> bool)
    requires NamesUnused(r, unused) && forall v :: !unused(v) ==> same(v, g(v))
    ensures Aligned(r, MapRec(r, g), same)
  {
    if r.Some? {
      MappedAt(r.value, g);
    }
  }

  lemma RemapAgrees(pol: Policies, t: Targets, f: Field, from: string, to: string)
    requires Valid(pol.Of(f)) && Has(pol.Of(f), from) && !Has(pol.Of(f), to) && Unreferenced(t, f, to)
    ensures TargetsAgree(pol, t, pol.With(f, RenamedKey(pol.Of(f), from, to)), RemapPolicyRefs(t, f, from, Some(to)))
  {
    var pol' := pol.With(f, RenamedKey(pol.Of(f), from, to));
    LegsKeepMeaning(pol, f, from, to);
    ComponentsKeepMeaning(pol, f, from, to);
    MappedAligned(t.apps, Remapper(f, from, Some(to)), LegNames(f, to), LegSame(pol, pol'));
    MappedAligned(t.actors, Remapper(f, from, Some(to)), LegNames(f, to), LegSame(pol, pol'));
    MappedAligned(t.components, ComponentRemapper(f, from, Some(to)), ComponentNames(f, to), ComponentSame(pol, pol'));
  }

  lemma LegsKeepMeaning(pol: Policies, f: Field, from: string, to: string)
    requires Valid(pol.Of(f)) && Has(pol.Of(f), from) && !Has(pol.Of(f), to)
    ensures var pol' := pol.With(f, RenamedKey(pol.Of(f), from, to));
            forall leg :: !LegNames(f, to)(leg) ==> LegSame(pol, pol')(leg, Remapper(f, from, Some(to))(leg))
  {
    var pol' := pol.With(f, RenamedKey(pol.Of(f), from, to));
    forall leg | !LegNames(f, to)(leg) ensures SameMeaning(pol, leg, pol', Remapper(f, from, Some(to))(leg)) {
      RenameKeepsLeg(pol, f, from, to, leg);
    }
  }

  lemma ComponentsKeepMeaning(pol: Policies, f: Field, from: string, to: string)
    requires Valid(pol.Of(f)) && Has(pol.Of(f), from) && !Has(pol.Of(f), to)
    ensures var pol' := pol.With(f, RenamedKey(pol.Of(f), from, to));
            forall c :: !ComponentNames(f, to)(c) ==>
              ComponentSame(pol, pol')(c, ComponentRemapper(f, from, Some(to))(c))
  {
    var pol' := pol.With(f, RenamedKey(pol.Of(f), from, to));
    LegsKeepMeaning(pol, f, from, to);
    forall c | !ComponentNames(f, to)(c) ensures ComponentSame(pol, pol')(c, ComponentRemapper(f, from, Some(to))(c)) {
      RemapLegs(c, f, from, Some(to));
    }
  }

  /** Listed inbound leg first before and after, unless the component names the policy. */
  function SameOrder(f: Field, name: string): (Component, Component) -> bool {
    (a: Component, b: Component) => b.inboundFirst == (a.inboundFirst && !a.Names(f, name))
  }

  lemma RemapKeepsOrder(t: Targets, f: Field, from: string, to: Option<string>)
    ensures Aligned(t.components, RemapPolicyRefs(t, f, from, to).components, SameOrder(f, from))
  {
    if t.components.Some? {
      MappedAt(t.components.value, ComponentRemapper(f, from, to));
    }
  }

  lemma RenamedPolicy(s: State, f: Field, from: string, to: string)
    requires Valid(s.policies.Of(f)) && Has(s.policies.Of(f), from) && !Has(s.policies.Of(f), to)
    ensures var s' := Reduce(s, RenamePolicy(f, from, to));
            forall x :: Get(s'.policies.Of(f), x)
                        == if x == to then Get(s.policies.Of(f), from)
                           else if x == from then None else Get(s.policies.Of(f), x)
  {
    RenamedKeyFresh(s.policies.Of(f), from, to);
  }

  /**
   * Renaming a policy to an unused name preserves every target's meaning and changes nothing
   * else, but that a component naming it comes to list its outbound leg first.
   */
  lemma RenamePreservesMeaning(s: State, f: Field, from: string, to: string)
    requires Inv(s) && Has(s.policies.Of(f), from) && !Has(s.policies.Of(f), to)
    ensures var s' := Reduce(s, RenamePolicy(f, from, to));
            && Aligned(s.targets.components, s'.targets.components, SameOrder(f, from))
            && TargetsAgree(s.policies, s.targets, s'.policies, s'.targets)
            && (forall x :: Get(s'.policies.Of(f), x)
                            == if x == to then Get(s.policies.Of(f), from)
                               else if x == from then None else Get(s.policies.Of(f), x))
            && (forall g :: g != f ==> s'.policies.Of(g) == s.policies.Of(g))
            && s'.name == s.name && s'.namespace == s.namespace && s'.activeStep == s.activeStep
  {
    RenamedPolicy(s, f, from, to);
    MissingIsUnreferenced(s, f, to);
    RemapAgrees(s.policies, s.targets, f, from, to);
    RemapKeepsOrder(s.targets, f, from, Some(to));
  }

  // ------------------------------------------------------- upserting and removing

  /** Saving a policy sets that one policy and leaves all else alone. */
  lemma UpsertTouchesOnePolicy(s: State, f: Field, name: string, policy: Value, g: Field, x: string)
    ensures var s' := Reduce(s, UpsertPolicy(f, name, policy));
            && Get(s'.policies.Of(g), x) == (if g == f && x == name then Some(policy) else Get(s.policies.Of(g), x))
            && NamesBut(s'.policies.Of(f), name) == NamesBut(s.policies.Of(f), name)
            && s' == s.(policies := s'.policies)
  {
    PutGet(s.policies.Of(f), name, policy, x);
    PutKeepsOthers(s.policies.Of(f), name, policy);
  }

  /** The record has the value under the name; its other entries are those it had, in their order. */
  ghost predicate Saved<T>(was: Option<Rec<T>>, now: Option<Rec<T>>, name: string, v: Option<T>) {
    && now.Some?
    && (forall x :: Get(now.value, x) == if x == name then v else if was.Some? then Get(was.value, x) else None)
    && NamesBut(now.value, name) == if was.Some? then NamesBut(was.value, name) else []
  }

  lemma PutSaves<T>(was: Option<Rec<T>>, name: string, v: T)
    ensures Saved(was, Some(Put(OrEmpty(was), name, v)), name, Some(v))
  {
    PutKeepsOthers(OrEmpty(was), name, v);
    forall x ensures Get(Put(OrEmpty(was), name, v), x) == if x == name then Some(v) else Get(OrEmpty(was), x) {
      PutGet(OrEmpty(was), name, v, x);
    }
  }

  lemma RemoveSaves<T>(was: Option<Rec<T>>, name: string)
    ensures Saved(was, Some(Remove(OrEmpty(was), name)), name, None)
  {
    RemoveKeepsOthers(OrEmpty(was), name);
    forall x ensures Get(Remove(OrEmpty(was), name), x) == if x == name then None else Get(OrEmpty(was), x) {
      RemoveGet(OrEmpty(was), name, x);
    }
  }

  /** Saving or removing an app changes that app alone; and so for actors and components below. */
  lemma AppActionsTouchOneApp(s: State, name: string, target: Refs)
    ensures var s' := Reduce(s, UpsertApp(name, target));
            Saved(s.targets.apps, s'.targets.apps, name, Some(target))
            && s' == s.(targets := s.targets.(apps := s'.targets.apps))
    ensures var s' := Reduce(s, RemoveApp(name));
            Saved(s.targets.apps, s'.targets.apps, name, None)
            && s' == s.(targets := s.targets.(apps := s'.targets.apps))
  {
    PutSaves(s.targets.apps, name, target);
    RemoveSaves(s.targets.apps, name);
  }

  lemma ActorActionsTouchOneActor(s: State, name: string, target: Refs)
    ensures var s' := Reduce(s, UpsertActor(name, target));
            Saved(s.targets.actors, s'.targets.actors, name, Some(target))
            && s' == s.(targets := s.targets.(actors := s'.targets.actors))
    ensures var s' := Reduce(s, RemoveActor(name));
            Saved(s.targets.actors, s'.targets.actors, name, None)
            && s' == s.(targets := s.targets.(actors := s'.targets.actors))
  {
    PutSaves(s.targets.actors, name, target);
    RemoveSaves(s.targets.actors, name);
  }

  lemma ComponentActionsTouchOneComponent(s: State, name: string, c: Component)
    ensures var s' := Reduce(s, UpsertComponent(name, c));
            Saved(s.targets.components, s'.targets.components, name, Some(c))
            && s' == s.(targets := s.targets.(components := s'.targets.components))
    ensures var s' := Reduce(s, RemoveComponent(name));
            Saved(s.targets.components, s'.targets.components, name, None)
            && s' == s.(targets := s.targets.(components := s'.targets.components))
  {
    PutSaves(s.targets.components, name, c);
    RemoveSaves(s.targets.components, name);
  }

  /** The other actions change one field; Back undoes Next and stops at the first step. */
  lemma FieldActions(s: State, text: string)
    ensures Reduce(s, SetName(text)) == s.(name := text)
    ensures Reduce(s, SetNamespace(text)) == s.(namespace := Some(text))
    ensures s.activeStep >= 0 ==>
              Reduce(Reduce(s, Next), Back) == s && Reduce(s, Next).activeStep == s.activeStep + 1
    ensures Reduce(s, Back).activeStep >= 0 && (s.activeStep == 0 ==> Reduce(s, Back) == s)
  {
  }

  /** The reference to the policy is gone, a breaker's settings with it, and nothing else changed. */
  predicate LosesRef(f: Field, name: string, leg: Refs, leg': Refs) {
    if leg.Ref(f) != Some(name) then leg' == leg
    else
      && leg'.Ref(f) == None && (forall g: Field :: g != f ==> leg'.Ref(g) == leg.Ref(g))
      && leg'.scope == (if f == Breaker then None else leg.scope)
      && leg'.cacheSize == (if f == Breaker then None else leg.cacheSize)
  }

  function LegLoses(f: Field, name: string): (Refs, Refs) -> bool {
    (a, b) => LosesRef(f, name, a, b)
  }

  predicate OptionLoses(f: Field, name: string, a: Option<Refs>, b: Option<Refs>) {
    a.Some? == b.Some? && (a.Some? ==> LosesRef(f, name, a.value, b.value))
  }

  function ComponentLoses(f: Field, name: string): (Component, Component) -> bool {
    (a: Component, b: Component) =>
      OptionLoses(f, name, a.outbound, b.outbound) && OptionLoses(f, name, a.inbound, b.inbound)
  }

  lemma RemapLoses(f: Field, name: string, leg: Refs)
    ensures LosesRef(f, name, leg, RemapRef(leg, f, name, None)) && RemapRef(leg, f, name, None).Ref(f) != Some(name)
  {
  }

  lemma MappedUnused<T(!new)>(r: Option<Rec<T>>, g: T -> T, used: T -> bool, same: (T, T) -> bool)
    requires forall v :: !used(g(v)) && same(v, g(v))
    ensures NamesUnused(MapRec(r, g), used) && Aligned(r, MapRec(r, g), same)
  {
    if r.Some? {
      MappedAt(r.value, g);
    }
  }

  /** Beside the targets only the policies of one kind differ. */
  ghost predicate OnlyPoliciesOf(s: State, s': State, f: Field) {
    && (forall g :: g != f ==> s'.policies.Of(g) == s.policies.Of(g))
    && s'.name == s.name && s'.namespace == s.namespace && s'.activeStep == s.activeStep
  }

  /** Removing a policy removes it alone, and takes exactly its references out of every leg. */
  lemma RemoveClearsReferences(s: State, f: Field, name: string)
    ensures var s' := Reduce(s, RemovePolicy(f, name));
            && Unreferenced(s'.targets, f, name)
            && Aligned(s.targets.apps, s'.targets.apps, LegLoses(f, name))
            && Aligned(s.targets.actors, s'.targets.actors, LegLoses(f, name))
            && Aligned(s.targets.components, s'.targets.components, ComponentLoses(f, name))
            && Aligned(s.targets.components, s'.targets.components, SameOrder(f, name))
            && (forall x :: Get(s'.policies.Of(f), x) == if x == name then None else Get(s.policies.Of(f), x))
            && NamesBut(s'.policies.Of(f), name) == NamesBut(s.policies.Of(f), name)
    ensures OnlyPoliciesOf(s, Reduce(s, RemovePolicy(f, name)), f)
  {
    RemovedRefs(s.targets, f, name);
    RemovedPolicy(s, f, name);
  }

  lemma RemovedRefs(t: Targets, f: Field, name: string)
    ensures var t' := RemapPolicyRefs(t, f, name, None);
            && Unreferenced(t', f, name)
            && Aligned(t.apps, t'.apps, LegLoses(f, name)) && Aligned(t.actors, t'.actors, LegLoses(f, name))
            && Aligned(t.components, t'.components, ComponentLoses(f, name))
            && Aligned(t.components, t'.components, SameOrder(f, name))
  {
    forall leg
      ensures LosesRef(f, name, leg, RemapRef(leg, f, name, None)) && RemapRef(leg, f, name, None).Ref(f) != Some(name)
    {
      RemapLoses(f, name, leg);
    }
    RemapKeepsOrder(t, f, name, None);
    MappedUnused(t.apps, Remapper(f, name, None), LegNames(f, name), LegLoses(f, name));
    MappedUnused(t.actors, Remapper(f, name, None), LegNames(f, name), LegLoses(f, name));
    MappedUnused(t.components, ComponentRemapper(f, name, None), ComponentNames(f, name), ComponentLoses(f, name));
  }

  lemma RemovedPolicy(s: State, f: Field, name: string)
    ensures var s' := Reduce(s, RemovePolicy(f, name));
            && (forall x :: Get(s'.policies.Of(f), x) == if x == name then None else Get(s.policies.Of(f), x))
            && NamesBut(s'.policies.Of(f), name) == NamesBut(s.policies.Of(f), name)
            && OnlyPoliciesOf(s, s', f)
  {
    RemoveKeepsOthers(s.policies.Of(f), name);
    forall x ensures Get(Remove(s.policies.Of(f), name), x) == if x == name then None else Get(s.policies.Of(f), x) {
      RemoveGet(s.policies.Of(f), name, x);
    }
  }

  // ------------------------------------------------------- renaming back

  lemma {:induction false} MappedBack<T(!new)>(r: Rec<T>, g: T -> T, h: T -> T)
    requires forall i :: 0 <= i < |r| ==> h(g(r[i].1)) == r[i].1
    ensures Mapped(Mapped(r, g), h) == r
  {
    MappedAt(r, g);
    MappedAt(Mapped(r, g), h);
  }

  lemma MapRecBack<T(!new)>(r: Option<Rec<T>>, g: T -> T, h: T -> T, unused: T -> bool)
    requires NamesUnused(r, unused) && forall v :: !unused(v) ==> h(g(v)) == v
    ensures MapRec(MapRec(r, g), h) == r
  {
    if r.Some? {
      MappedBack(r.value, g, h);
    }
  }

  /** No component that names the policy lists its inbound leg first. */
  predicate OutboundFirst(t: Targets, f: Field, name: string) {
    t.components.Some? ==>
      forall i :: 0 <= i < |t.components.value| ==>
        !(t.components.value[i].1.inboundFirst && t.components.value[i].1.Names(f, name))
  }

  lemma ComponentBack(c: Component, f: Field, from: string, to: string)
    requires !c.Names(f, to)
    ensures RemapComponent(RemapComponent(c, f, from, Some(to)), f, to, Some(from)) == c <==>
      !(c.inboundFirst && c.Names(f, from))
  {
  }

  lemma ComponentsBack(r: Option<Rec<Component>>, f: Field, from: string, to: string)
    requires NamesUnused(r, ComponentNames(f, to))
    ensures MapRec(MapRec(r, ComponentRemapper(f, from, Some(to))), ComponentRemapper(f, to, Some(from))) == r
            <==> (r.Some? ==> forall i :: 0 <= i < |r.value| ==>
                 !(r.value[i].1.inboundFirst && r.value[i].1.Names(f, from)))
  {
    if r.Some? {
      var g, h := ComponentRemapper(f, from, Some(to)), ComponentRemapper(f, to, Some(from));
      forall i | 0 <= i < |r.value|
        ensures h(g(r.value[i].1)) == r.value[i].1 <==> !(r.value[i].1.inboundFirst && r.value[i].1.Names(f, from))
      {
        ComponentBack(r.value[i].1, f, from, to);
      }
      MappedAt(r.value, g);
      MappedAt(Mapped(r.value, g), h);
      if i :| 0 <= i < |r.value| && h(g(r.value[i].1)) != r.value[i].1 {
        assert Mapped(Mapped(r.value, g), h)[i] != r.value[i];
      } else {
        MappedBack(r.value, g, h);
      }
    }
  }

  lemma RemapBack(t: Targets, f: Field, from: string, to: string)
    requires Unreferenced(t, f, to)
    ensures RemapPolicyRefs(RemapPolicyRefs(t, f, from, Some(to)), f, to, Some(from)) == t <==>
      OutboundFirst(t, f, from)
  {
    var g, h := Remapper(f, from, Some(to)), Remapper(f, to, Some(from));
    forall leg | !LegNames(f, to)(leg) ensures h(g(leg)) == leg {
    }
    MapRecBack(t.apps, g, h, LegNames(f, to));
    MapRecBack(t.actors, g, h, LegNames(f, to));
    ComponentsBack(t.components, f, from, to);
  }

  lemma WithTwice(pol: Policies, f: Field, r1: Rec<Value>, r2: Rec<Value>)
    ensures pol.With(f, r1).Of(f) == r1
    ensures pol.With(f, r1).With(f, r2) == pol.With(f, r2)
    ensures pol.With(f, r2) == pol <==> r2 == pol.Of(f)
  {
  }

  /** Two renames, there and back, can only differ from doing nothing in one policy record and the targets. */
  lemma RenameTwice(s: State, f: Field, from: string, to: string)
    ensures var r := s.policies.Of(f);
            Reduce(Reduce(s, RenamePolicy(f, from, to)), RenamePolicy(f, to, from))
            == s.(policies := s.policies.With(f, RenamedKey(RenamedKey(r, from, to), to, from)),
                  targets := RemapPolicyRefs(RemapPolicyRefs(s.targets, f, from, Some(to)), f, to, Some(from)))
  {
    var r := s.policies.Of(f);
    var s1 := Reduce(s, RenamePolicy(f, from, to));
    WithTwice(s.policies, f, RenamedKey(r, from, to), RenamedKey(RenamedKey(r, from, to), to, from));
    assert s1.policies.Of(f) == RenamedKey(r, from, to);
  }

  /**
   * Renaming to an unused name and back restores the whole state, key order included, exactly
   * when the name keeps its place in the policy record and no component that names it is
   * listed inbound leg first.
   */
  lemma RenameBackRestoresState(s: State, f: Field, from: string, to: string)
    requires Valid(s.policies.Of(f)) && Unreferenced(s.targets, f, to)
    requires Has(s.policies.Of(f), from) && !Has(s.policies.Of(f), to)
    ensures Reduce(Reduce(s, RenamePolicy(f, from, to)), RenamePolicy(f, to, from)) == s
            <==> (IsIndex(from) || !IsIndex(to) || FirstName(s.policies.Of(f), from))
                 && OutboundFirst(s.targets, f, from)
  {
    RenameTwice(s, f, from, to);
    RemapBack(s.targets, f, from, to);
    var r := s.policies.Of(f);
    RenameBackRestores(r, from, to);
    WithTwice(s.policies, f, [], RenamedKey(RenamedKey(r, from, to), to, from));
  }

  // ------------------------------------------------------- what the dialogs let through

  predicate IsLetter(c: char) {
    'a' <= c <= 'z' || 'A' <= c <= 'Z'
  }

  /** validateResourceName(name) === null (web/src/lib/validation.ts). */
  predicate ValidResourceName(name: string) {
    && name != "" && (forall i :: 0 <= i < |name| ==> IsLetter(name[i]) || IsDigit(name[i]) || name[i] == '-')
    && IsLetter(name[0])
  }

  /** No name a dialog accepts is an array index. */
  lemma ValidNameIsNoIndex(name: string)
    requires ValidResourceName(name)
    ensures !IsIndex(name)
  {
    assert !IsDigit(name[0]);
  }

  /** The component dialog sets the outbound leg before the inbound one. */
  predicate FromDialogs(t: Targets) {
    t.components.Some? ==> forall i :: 0 <= i < |t.components.value| ==> !t.components.value[i].1.inboundFirst
  }

  /** So in the builder renaming to an unused name and back always restores the state. */
  lemma RenameBackRestoresInBuilder(s: State, f: Field, from: string, to: string)
    requires Inv(s) && FromDialogs(s.targets) && ValidResourceName(to)
    requires Has(s.policies.Of(f), from) && !Has(s.policies.Of(f), to)
    ensures Reduce(Reduce(s, RenamePolicy(f, from, to)), RenamePolicy(f, to, from)) == s
  {
    MissingIsUnreferenced(s, f, to);
    ValidNameIsNoIndex(to);
    assert Valid(s.policies.Of(f));
    RenameBackRestoresState(s, f, from, to);
  }

  /** An action of the dialogs: components are built outbound leg first. */
  predicate FromDialog(a: Action) {
    a.UpsertComponent? ==> !a.component.inboundFirst
  }

  lemma DialogsKeepOrder(s: State, a: Action)
    requires FromDialogs(s.targets) && FromDialog(a)
    ensures FromDialogs(Reduce(s, a).targets)
  {
    var comps := OrEmpty(s.targets.components);
    if a.RemovePolicy? || a.RenamePolicy? {
      if s.targets.components.Some? {
        var (from, to) := if a.RemovePolicy? then (a.name, None) else (a.from, Some(a.to));
        MappedAt(comps, ComponentRemapper(a.field, from, to));
      }
    } else if a.UpsertComponent? {
      PutEntries(comps, a.name, a.component);
    } else if a.RemoveComponent? {
      RemoveEntries(comps, a.name);
    }
  }

  lemma {:induction false} PutEntries(r: Rec<Component>, k: string, c: Component)
    requires !c.inboundFirst && forall i :: 0 <= i < |r| ==> !r[i].1.inboundFirst
    ensures forall i :: 0 <= i < |Put(r, k, c)| ==> !Put(r, k, c)[i].1.inboundFirst
  {
    if r != [] {
      PutEntries(r[1..], k, c);
    }
  }

  lemma {:induction false} RemoveEntries(r: Rec<Component>, k: string)
    requires forall i :: 0 <= i < |r| ==> !r[i].1.inboundFirst
    ensures forall i :: 0 <= i < |Remove(r, k)| ==> !Remove(r, k)[i].1.inboundFirst
  {
    if r != [] {
      RemoveEntries(r[1..], k);
    }
  }

  /** In every session of the dialogs the components stay outbound leg first. */
  lemma {:induction false} DialogSessionsKeepOrder(s: State, actions: seq<Action>)
    requires FromDialogs(s.targets) && forall i :: 0 <= i < |actions| ==> FromDialog(actions[i])
    ensures FromDialogs(Run(s, actions).targets)
    decreases |actions|
  {
    if actions != [] {
      DialogsKeepOrder(s, actions[0]);
      DialogSessionsKeepOrder(Reduce(s, actions[0]), actions[1..]);
    }
  }
}
