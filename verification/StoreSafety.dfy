/** What every operation of the graph store keeps, over every run and whatever fails on the way. */
module StoreSafety {
  import opened Text
  import opened CanonicalJson
  import opened PortRefs
  import opened NbcStore
  import Hlc

  datatype Op =
    | DoRegister(id: string, name: string)
    | DoExtend(extend: ExtendInput)
    | DoExpose(expose: ExposeInput)
    | DoBind(bind: BindInput, timing: Option<Timing>)
    | DoExpirePort(portId: string)
    | DoExpireOffer(offerId: string)

  function Apply(policyOk: Json -> bool, s: Store, op: Op): Store {
    match op
    case DoRegister(id, name) => RegisterParty(s, id, name).0
    case DoExtend(input) => ExtendOffer(s, input).0
    case DoExpose(input) => ExposePort(policyOk, s, input).0
    case DoBind(input, timing) => BindPort(s, input, timing).0
    case DoExpirePort(id) => SetPortExpired(s, id)
    case DoExpireOffer(id) => SetOfferExpired(s, id)
  }

  /** The operation on the strategy itself. */
  method Execute(client: InMemoryStrategy, op: Op)
    modifies client
    ensures client.Model() == Apply(client.policyOk, old(client.Model()), op)
  {
    hide ExtendOffer, ExposePort, BindPort, SetPortExpired, SetOfferExpired, RegisterParty;
    match op {
      case DoRegister(id, name) => var pid := client.RegisterPartyNamed(id, name);
      case DoExtend(input) => var r := client.Extend(input);
      case DoExpose(input) => var r := client.Expose(input);
      case DoBind(input, timing) => var r := client.BindTo(input, timing);
      case DoExpirePort(id) => client.ExpirePortNow(id);
      case DoExpireOffer(id) => client.ExpireOfferNow(id);
    }
  }

  function Run(policyOk: Json -> bool, s: Store, ops: seq<Op>): Store {
    if |ops| == 0 then s else Apply(policyOk, Run(policyOk, s, ops[..|ops| - 1]), ops[|ops| - 1])
  }

  // ----- The invariant

  /** The canonical port of a bind's target. */
  function Target(s: Store, b: BindRow): string
    requires Resolve(s.ports, b.portId).Canonical?
  {
    Resolve(s.ports, b.portId).id
  }

  ghost predicate BindsResolve(s: Store) {
    forall i :: 0 <= i < |s.binds| ==>
      Resolve(s.ports, s.binds[i].portId).Canonical? && Target(s, s.binds[i]) in s.exposePolicies
  }

  /** No canonical port has more binds than its policy allows. */
  ghost predicate CapKept(s: Store) {
    forall c :: c in s.exposePolicies ==> Tally(s.binds, s.ports, c) <= s.exposePolicies[c].maxBindings
  }

  ghost predicate NoDuplicateBinds(s: Store) {
    forall i, j :: 0 <= i < j < |s.binds| ==>
      s.binds[i].offerId != s.binds[j].offerId || s.binds[i].portId != s.binds[j].portId
  }

  /** Keys name their values; everything that refers to a port or an offer refers to a stored one. */
  ghost predicate Tidy(s: Store) {
    && (forall id :: id in s.ports ==> s.ports[id].id == id)
    && s.exposePolicies.Keys <= s.ports.Keys
    && s.portNbc.Keys <= s.ports.Keys
    && s.offerNbc.Keys == s.offers.Keys
    && s.extenders.Keys == s.offers.Keys
    && (forall i :: 0 <= i < |s.exposes| ==> s.exposes[i].offerId in s.offers && s.exposes[i].portId in s.ports)
  }

  /** Offer ids were handed out by the counter. */
  ghost predicate IdsIssued(s: Store) {
    forall id :: id in s.offers ==> exists n: nat :: n <= s.seqNo && id == IdOf(n)
  }

  ghost predicate Good(s: Store) {
    Closed(s.ports) && Tidy(s) && IdsIssued(s) && BindsResolve(s) && CapKept(s) && NoDuplicateBinds(s)
  }

  /** The invariant does not look at parties and bind policies, and the counter may run ahead. */
  lemma UnreadFields(s: Store, t: Store)
    requires Good(s) && t.seqNo >= s.seqNo
    requires t == s.(parties := t.parties, seqNo := t.seqNo, bindPolicies := t.bindPolicies)
    ensures Good(t)
  {
    forall i | 0 <= i < |t.binds| ensures Target(s, s.binds[i]) in t.exposePolicies {}
    assert BindsResolve(t) && CapKept(t);
    forall id | id in t.offers ensures exists n: nat :: n <= t.seqNo && id == IdOf(n) {
      var n: nat :| n <= s.seqNo && id == IdOf(n);
    }
  }

  // ----- Fresh ids

  lemma IdOfInjective(n: nat, m: nat)
    requires IdOf(n) == IdOf(m)
    ensures n == m
  {
    assert IdOf(n)[3..] == Decimal(n) && IdOf(m)[3..] == Decimal(m);
    DecimalRoundTrip(n);
    DecimalRoundTrip(m);
  }

  lemma NextIdIsFresh(s: Store)
    requires IdsIssued(s)
    ensures IdOf(s.seqNo + 1) !in s.offers
  {
    if IdOf(s.seqNo + 1) in s.offers {
      var n: nat :| n <= s.seqNo && IdOf(s.seqNo + 1) == IdOf(n);
      IdOfInjective(s.seqNo + 1, n);
    }
  }

  // ----- Binding

  lemma AddBindKeepsGood(s: Store, b: BindRow)
    requires Good(s) && CapacityError(s, b.portId) == None && !HasBind(s, b.offerId, b.portId)
    ensures Good(s.(binds := s.binds + [b]))
  {
    var t := s.(binds := s.binds + [b]);
    forall c | c in s.exposePolicies ensures Tally(t.binds, t.ports, c) <= t.exposePolicies[c].maxBindings {
      TallyAppend(s.binds, b, s.ports, c);
    }
  }

  /** Whatever the NBC admission check lets through, the capacity check lets through. */
  lemma AdmissionImpliesCapacity(s: Store, offerId: string, portId: string, t: Timing)
    requires Good(s) && Admission(s, offerId, portId, t) == None
    ensures CapacityError(s, portId) == None
  {
    assert s.ports[portId].id == portId;
  }

  lemma BindKeepsGood(s: Store, input: BindInput, timing: Option<Timing>)
    requires Good(s)
    ensures Good(BindPort(s, input, timing).0)
  {
    if BindPort(s, input, timing).1.Ok? {
      if timing.Some? { AdmissionImpliesCapacity(s, input.offerId, input.portId, timing.value); }
      AddBindKeepsGood(s, Bind(input.offerId, input.portId, input.payload));
    }
  }

  // ----- Extending and exposing

  lemma StoreOfferKeepsGood(s: Store, partyId: string, kind: string, window: Window)
    requires Good(s)
    ensures
      var id := IdOf(s.seqNo + 1);
      Good(s.(seqNo := s.seqNo + 1, offers := s.offers[id := Offer(id, kind)],
              extenders := s.extenders[id := partyId], offerNbc := s.offerNbc[id := window]))
  {
    var id := IdOf(s.seqNo + 1);
    var t := s.(seqNo := s.seqNo + 1, offers := s.offers[id := Offer(id, kind)],
                extenders := s.extenders[id := partyId], offerNbc := s.offerNbc[id := window]);
    forall k | k in t.offers ensures exists n: nat :: n <= t.seqNo && k == IdOf(n) {
      if k == id { assert k == IdOf(t.seqNo); }
    }
    assert BindsResolve(t) && CapKept(t);
  }

  lemma ExtendKeepsGood(s: Store, input: ExtendInput)
    requires Good(s)
    ensures Good(ExtendOffer(s, input).0)
  {
    hide Good, CapacityError, HasBind, Trim, IdOf;
    StoreOfferKeepsGood(s, input.partyId, input.kind, input.window);
    var id := IdOf(s.seqNo + 1);
    var stored := s.(seqNo := s.seqNo + 1, offers := s.offers[id := Offer(id, input.kind)],
                     extenders := s.extenders[id := input.partyId], offerNbc := s.offerNbc[id := input.window]);
    var target := Trim(input.bindPortId);
    if target != "" && CapacityError(stored, target) == None && !HasBind(stored, id, target) {
      AddBindKeepsGood(stored, Bind(id, target, input.bindPayload));
    }
  }

  /** Storing one more resolvable port keeps every canonical id and every tally. */
  lemma GrowPorts(s: Store, port: Port)
    requires Good(s) && port.id !in s.ports && Resolve(s.ports[port.id := port], port.id).Canonical?
    ensures
      var grown := s.ports[port.id := port];
      && Closed(grown)
      && (forall id :: id in s.ports ==> Resolve(grown, id) == Resolve(s.ports, id))
      && (forall c :: Tally(s.binds, grown, c) == Tally(s.binds, s.ports, c))
      && Good(s.(ports := grown))
  {
    var grown := s.ports[port.id := port];
    forall id | id in s.ports ensures Resolve(grown, id) == Resolve(s.ports, id) {
      ResolveStable(s.ports, grown, id);
    }
    forall c ensures Tally(s.binds, grown, c) == Tally(s.binds, s.ports, c) {
      TallyStable(s.binds, s.ports, grown, c);
    }
    forall i | 0 <= i < |s.binds| ensures Resolve(grown, s.binds[i].portId) == Resolve(s.ports, s.binds[i].portId) {
      CanonicalIsStored(s.ports, s.binds[i].portId);
    }
  }

  /** A fresh port has no binds yet, so any positive limit is kept. */
  lemma {:induction false} NoBindsYet(binds: seq<BindRow>, ports: Ports, c: string)
    requires forall i :: 0 <= i < |binds| ==> !ResolvesTo(ports, binds[i].portId, c)
    ensures Tally(binds, ports, c) == 0
  {
    if |binds| > 0 { NoBindsYet(binds[..|binds| - 1], ports, c); }
  }

  lemma AddPolicyKeepsGood(s: Store, c: string, policy: Policy)
    requires Good(s) && c in s.ports && c !in s.exposePolicies && policy.maxBindings >= 1
    ensures Good(s.(exposePolicies := s.exposePolicies[c := policy]))
  {
    NoBindsYet(s.binds, s.ports, c);
  }

  lemma AddEdgeKeepsGood(s: Store, offerId: string, portId: string)
    requires Good(s) && offerId in s.offers && portId in s.ports
    ensures Good(s.(exposes := s.exposes + [Edge(offerId, portId)]))
  {
    assert BindsResolve(s.(exposes := s.exposes + [Edge(offerId, portId)]));
  }

  lemma SetWindowKeepsGood(s: Store, portId: string, w: Window)
    requires Good(s) && portId in s.ports
    ensures Good(s.(portNbc := s.portNbc[portId := w]))
  {
    assert BindsResolve(s.(portNbc := s.portNbc[portId := w]));
  }

  lemma NewPortHasNoPolicy(s: Store, portId: string)
    requires Good(s) && portId !in s.ports
    ensures portId !in s.exposePolicies
  {
  }

  lemma AddPortKeepsGood(s: Store, input: ExposeInput, port: Port)
    requires Good(s) && input.offerId in s.offers && port.id !in s.ports
    ensures Good(AddPort(s, input, port).0)
  {
    hide Good, Resolve, Tally;
    var grown := s.ports[port.id := port];
    if Resolve(grown, port.id).Canonical? {
      GrowPorts(s, port);
      NewPortHasNoPolicy(s, port.id);
      var stored := s.(ports := grown, bindPolicies := s.bindPolicies[port.id := input.bindPolicy]);
      UnreadFields(s.(ports := grown), stored);
      var max := NormalizeMaxBindings(input.maxBindings);
      if max.Some? {
        var policy := Policy(max.value, input.terminal);
        AddPolicyKeepsGood(stored, port.id, policy);
        var ruled := stored.(exposePolicies := stored.exposePolicies[port.id := policy]);
        AddEdgeKeepsGood(ruled, input.offerId, port.id);
        SetWindowKeepsGood(ruled.(exposes := ruled.exposes + [Edge(input.offerId, port.id)]), port.id, input.window);
      }
    }
  }

  /** exposePort in one of its five outcomes. */
  lemma ExposeCases(policyOk: Json -> bool, s: Store, input: ExposeInput) returns (t: Store, id: string)
    ensures t == s || t == s.(seqNo := s.seqNo + 1)
    ensures var r := ExposePort(policyOk, s, input).0;
      || r == s
      || r == t
      || (input.offerId in t.offers && id in t.ports && r == t.(exposes := t.exposes + [Edge(input.offerId, id)]))
      || (input.offerId in t.offers && id !in t.ports && r == AddPort(t, input, input.port.(id := id)).0)
  {
    var named := Trim(input.port.id) != "";
    id := if named then input.port.id else IdOf(s.seqNo + 1);
    t := if named then s else s.(seqNo := s.seqNo + 1);
  }

  lemma ExposeKeepsGood(policyOk: Json -> bool, s: Store, input: ExposeInput)
    requires Good(s)
    ensures Good(ExposePort(policyOk, s, input).0)
  {
    var t, id := ExposeCases(policyOk, s, input);
    UnreadFields(s, t);
    if input.offerId in t.offers {
      if id in t.ports {
        AddEdgeKeepsGood(t, input.offerId, id);
      } else {
        AddPortKeepsGood(t, input, input.port.(id := id));
      }
    }
  }

  // ----- Expiring

  lemma {:induction false} ExpireEdgesKeys(s: Store, offerId: string, n: nat)
    requires n <= |s.exposes| && s.portNbc.Keys <= s.ports.Keys
    ensures ExpireEdges(s, offerId, n).Keys <= s.ports.Keys
    ensures forall id :: id in s.portNbc ==> id in ExpireEdges(s, offerId, n)
    ensures forall id :: id in ExpireEdges(s, offerId, n) ==>
      ExpireEdges(s, offerId, n)[id] == EXPIRED_WINDOW ||
      (id in s.portNbc && ExpireEdges(s, offerId, n)[id] == s.portNbc[id])
  {
    if n > 0 { ExpireEdgesKeys(s, offerId, n - 1); }
  }

  /** Only the keys of the windows matter. */
  lemma WindowsKeepGood(s: Store, t: Store)
    requires Good(s) && t == s.(offerNbc := t.offerNbc, portNbc := t.portNbc)
    requires t.offerNbc.Keys == s.offers.Keys && t.portNbc.Keys <= s.ports.Keys
    ensures Good(t)
  {
    hide Resolve, Tally;
    assert Tidy(t) && IdsIssued(t) && BindsResolve(t) && CapKept(t) && NoDuplicateBinds(t);
  }

  lemma WindowKeys(s: Store)
    requires Tidy(s)
    ensures s.offerNbc.Keys == s.offers.Keys && s.portNbc.Keys <= s.ports.Keys
  {
  }

  lemma PortExpiryKeepsGood(s: Store, id: string)
    requires Good(s)
    ensures Good(SetPortExpired(s, id))
  {
    assert Tidy(s);
    WindowKeys(s);
    hide Good, Tidy;
    if id in s.ports { WindowsKeepGood(s, SetPortExpired(s, id)); }
  }

  lemma OfferExpiryKeepsGood(s: Store, id: string)
    requires Good(s)
    ensures Good(SetOfferExpired(s, id))
  {
    assert Tidy(s);
    WindowKeys(s);
    hide Good, Tidy, ExpireEdges;
    var t := if id in s.offers then s.(offerNbc := s.offerNbc[id := EXPIRED_WINDOW]) else s;
    ExpireEdgesKeys(t, id, |t.exposes|);
    WindowsKeepGood(s, SetOfferExpired(s, id));
  }

  lemma RegisterKeepsGood(s: Store, id: string, name: string)
    requires Good(s)
    ensures Good(RegisterParty(s, id, name).0)
  {
    UnreadFields(s, RegisterParty(s, id, name).0);
  }

  lemma ApplyKeepsGood(policyOk: Json -> bool, s: Store, op: Op)
    requires Good(s)
    ensures Good(Apply(policyOk, s, op))
  {
    match op
    case DoRegister(id, name) => RegisterKeepsGood(s, id, name);
    case DoExtend(input) => ExtendKeepsGood(s, input);
    case DoExpose(input) => ExposeKeepsGood(policyOk, s, input);
    case DoBind(input, timing) => BindKeepsGood(s, input, timing);
    case DoExpirePort(id) => PortExpiryKeepsGood(s, id);
    case DoExpireOffer(id) => OfferExpiryKeepsGood(s, id);
  }

  lemma EmptyIsGood()
    ensures Good(EMPTY_STORE)
  {
  }

  /** In every reachable store, after any operations successful or failed: no canonical port has more
      binds than allowed, every bind's target resolves to a port with a policy, no (offer, port) pair
      is bound twice, and every stored port resolves. */
  lemma {:induction false} RunIsGood(policyOk: Json -> bool, ops: seq<Op>)
    ensures Good(Run(policyOk, EMPTY_STORE, ops))
  {
    if |ops| == 0 {
      EmptyIsGood();
    } else {
      RunIsGood(policyOk, ops[..|ops| - 1]);
      ApplyKeepsGood(policyOk, Run(policyOk, EMPTY_STORE, ops[..|ops| - 1]), ops[|ops| - 1]);
    }
  }

  // ----- What operations leave as it was

  /** Nothing is changed or removed. */
  ghost predicate OnlyAdds<T(!new)>(before: map<string, T>, after: map<string, T>) {
    forall id :: id in before ==> id in after && after[id] == before[id]
  }

  /** Parties, ports, offers with who extended them, expose policies, edges and binds only accumulate; a window
      changes to the expired one or not at all. */
  ghost predicate Later(s: Store, t: Store) {
    && OnlyAdds(s.ports, t.ports) && OnlyAdds(s.offers, t.offers) && OnlyAdds(s.exposePolicies, t.exposePolicies)
    && OnlyAdds(s.parties, t.parties) && OnlyAdds(s.extenders, t.extenders)
    && s.exposes <= t.exposes && s.binds <= t.binds
    && OnlyExpires(s.portNbc, t.portNbc) && OnlyExpires(s.offerNbc, t.offerNbc)
  }

  ghost predicate OnlyExpires(before: map<string, Window>, after: map<string, Window>) {
    forall id :: id in before ==> id in after && (after[id] == before[id] || after[id] == EXPIRED_WINDOW)
  }

  /** What storing a new port can do to ports, policies, edges and windows. */
  lemma AddPortCases(s: Store, input: ExposeInput, port: Port) returns (p: Policy)
    ensures var t := AddPort(s, input, port).0;
      && t.offers == s.offers && t.offerNbc == s.offerNbc && t.binds == s.binds
      && t.parties == s.parties && t.extenders == s.extenders
      && (t.exposes == s.exposes || t.exposes == s.exposes + [Edge(input.offerId, port.id)])
      && (t.exposePolicies == s.exposePolicies || t.exposePolicies == s.exposePolicies[port.id := p])
      && (t.ports == s.ports || t.ports == s.ports[port.id := port])
      && (t.portNbc == s.portNbc || t.portNbc == s.portNbc[port.id := input.window])
  {
    hide Resolve, Trim, NormalizeMaxBindings;
    var max := NormalizeMaxBindings(input.maxBindings);
    p := Policy(if max.Some? then max.value else 1, input.terminal);
  }

  lemma AddPortIsLater(s: Store, input: ExposeInput, port: Port)
    requires Tidy(s) && port.id !in s.ports
    ensures Later(s, AddPort(s, input, port).0)
  {
    var p := AddPortCases(s, input, port);
    assert port.id !in s.portNbc && port.id !in s.exposePolicies;
    hide AddPort, Tidy;
  }

  lemma CounterIsLater(s: Store, t: Store, u: Store)
    requires t == s.(seqNo := t.seqNo)
    ensures Later(s, s) && Later(s, t) && (Later(t, u) ==> Later(s, u))
    ensures forall e: Edge :: Later(s, t.(exposes := t.exposes + [e]))
  {
  }

  lemma ExposeIsLater(policyOk: Json -> bool, s: Store, input: ExposeInput)
    requires Good(s)
    ensures Later(s, ExposePort(policyOk, s, input).0)
  {
    var t, id := ExposeCases(policyOk, s, input);
    assert Tidy(t) by { assert Tidy(s); }
    hide Good, Later, ExposePort, AddPort, Tidy;
    CounterIsLater(s, t, AddPort(t, input, input.port.(id := id)).0);
    if input.offerId in t.offers && id !in t.ports { AddPortIsLater(t, input, input.port.(id := id)); }
  }

  /** The store with the offer of an extendOffer in it. */
  function OfferAdded(s: Store, input: ExtendInput): Store {
    var id := IdOf(s.seqNo + 1);
    s.(seqNo := s.seqNo + 1, offers := s.offers[id := Offer(id, input.kind)],
       extenders := s.extenders[id := input.partyId], offerNbc := s.offerNbc[id := input.window])
  }

  /** The first thing extendOffer does, and all it does but bind. */
  lemma ExtendShape(s: Store, input: ExtendInput)
    ensures var r := ExtendOffer(s, input).0; r == OfferAdded(s, input).(binds := r.binds) && s.binds <= r.binds
  {
    hide CapacityError, HasBind, Trim, IdOf;
  }

  lemma NextIdIsUnused(s: Store)
    requires Good(s)
    ensures var id := IdOf(s.seqNo + 1); id !in s.offers && id !in s.offerNbc && id !in s.extenders
  {
    NextIdIsFresh(s);
    hide Closed, BindsResolve, CapKept, NoDuplicateBinds, IdsIssued;
  }

  lemma ExtendIsLater(s: Store, input: ExtendInput)
    requires Good(s)
    ensures Later(s, ExtendOffer(s, input).0)
  {
    hide Good, ExtendOffer, IdOf;
    NextIdIsUnused(s);
    ExtendShape(s, input);
  }

  lemma RegisterIsLater(s: Store, id: string, name: string)
    ensures Later(s, RegisterParty(s, id, name).0)
  {
    var r := RegisterParty(s, id, name).0;
    assert r == s.(parties := r.parties, seqNo := r.seqNo);
  }

  /** A party is known by its id, or by the next id of the counter when that is blank, under its first name. */
  lemma PartyIsKnown(s: Store, id: string, name: string)
    ensures var (t, pid) := RegisterParty(s, id, name);
      && pid == (if IsCore(id, "") then IdOf(s.seqNo + 1) else id)
      && pid in t.parties && t.parties[pid] == (if pid in s.parties then s.parties[pid] else name)
  {
    TrimIsCore(id, "");
    hide IsCore, Trim, IdOf;
  }

  lemma BindIsLater(s: Store, input: BindInput, timing: Option<Timing>)
    ensures Later(s, BindPort(s, input, timing).0)
  {
    var t := BindPort(s, input, timing).0;
    assert t == s.(binds := t.binds) && s.binds <= t.binds;
    hide BindPort;
  }

  lemma ExpirePortIsLater(s: Store, id: string)
    ensures Later(s, SetPortExpired(s, id))
  {
  }

  lemma ExpireOfferIsLater(s: Store, id: string)
    requires Good(s)
    ensures Later(s, SetOfferExpired(s, id))
  {
    var t := if id in s.offers then s.(offerNbc := s.offerNbc[id := EXPIRED_WINDOW]) else s;
    ExpireEdgesKeys(t, id, |t.exposes|);
    assert OnlyExpires(s.portNbc, ExpireEdges(t, id, |t.exposes|));
  }

  lemma ApplyIsLater(policyOk: Json -> bool, s: Store, op: Op)
    requires Good(s)
    ensures Later(s, Apply(policyOk, s, op))
  {
    hide Good, Later, ExposePort, ExtendOffer, BindPort, SetOfferExpired, SetPortExpired, RegisterParty;
    match op
    case DoRegister(id, name) => RegisterIsLater(s, id, name);
    case DoExtend(input) => ExtendIsLater(s, input);
    case DoExpose(input) => ExposeIsLater(policyOk, s, input);
    case DoBind(input, timing) => BindIsLater(s, input, timing);
    case DoExpirePort(id) => ExpirePortIsLater(s, id);
    case DoExpireOffer(id) => ExpireOfferIsLater(s, id);
  }

  lemma {:induction false} RunIsLater(policyOk: Json -> bool, s: Store, ops: seq<Op>)
    requires Good(s)
    ensures Later(s, Run(policyOk, s, ops)) && Good(Run(policyOk, s, ops))
  {
    if |ops| > 0 {
      RunIsLater(policyOk, s, ops[..|ops| - 1]);
      ApplyIsLater(policyOk, Run(policyOk, s, ops[..|ops| - 1]), ops[|ops| - 1]);
      ApplyKeepsGood(policyOk, Run(policyOk, s, ops[..|ops| - 1]), ops[|ops| - 1]);
    }
  }

  /** No operation ever changes which canonical port a stored port resolves to. */
  lemma CanonicalIdsNeverChange(policyOk: Json -> bool, s: Store, ops: seq<Op>, id: string)
    requires Good(s) && id in s.ports
    ensures Resolve(Run(policyOk, s, ops).ports, id) == Resolve(s.ports, id)
  {
    RunIsLater(policyOk, s, ops);
    ResolveStable(s.ports, Run(policyOk, s, ops).ports, id);
  }

  // ----- A closed window never reopens

  /** Closed by the number of turns, or by the physical clock whatever the peers' skew. */
  predicate ClosedFor(w: Window, turnSeq: int, pt: int) {
    (w.expiresTurn != 0 && turnSeq >= w.expiresTurn) || (w.expiresAtMs != 0 && pt >= w.expiresAtMs)
  }

  /** The bind window of the offer or of the port is closed. */
  predicate BindClosed(s: Store, offerId: string, portId: string, turnSeq: int, pt: int) {
    || (offerId in s.offerNbc && ClosedFor(s.offerNbc[offerId], turnSeq, pt))
    || (portId in s.portNbc && ClosedFor(s.portNbc[portId], turnSeq, pt))
  }

  /** Once the offer's or the port's window is closed, no operations, no more turns, no later clock
      state (from a positive clock) and no skew samples ever make the bind admissible again. */
  lemma ClosedForever(policyOk: Json -> bool, s: Store, ops: seq<Op>, offerId: string, portId: string,
                      turnSeq: int, clock: Hlc.Timestamp,
                      laterTurnSeq: int, laterClock: Hlc.Timestamp, wallMs: int, samples: seq<Hlc.Sample>,
                      maxSkewMs: real, minSamples: int)
    requires Good(s) && BindClosed(s, offerId, portId, turnSeq, clock.pt)
    requires clock.pt >= 1 && laterTurnSeq >= turnSeq && laterClock.pt >= clock.pt
    ensures
      var t := Run(policyOk, s, ops);
      var now := Hlc.ConservativeEffectiveNow(laterClock, wallMs, samples, maxSkewMs, minSamples);
      var timing := Timing(laterTurnSeq, now);
      && Admission(t, offerId, portId, timing).Some?
      && forall payload :: BindPort(t, BindInput(offerId, portId, payload), Some(timing)).1.Err?
  {
    hide Run, Good, Admission, Hlc.ConservativeEffectiveNow, HasBind;
    RunIsLater(policyOk, s, ops);
    var t := Run(policyOk, s, ops);
    StaysClosed(s, t, offerId, portId, turnSeq, clock.pt);
    ClosedIsRefused(t, offerId, portId, turnSeq, clock.pt, laterTurnSeq, laterClock,
                    wallMs, samples, maxSkewMs, minSamples);
  }

  lemma StaysClosed(s: Store, t: Store, offerId: string, portId: string, turnSeq: int, pt: int)
    requires Later(s, t) && BindClosed(s, offerId, portId, turnSeq, pt) && pt >= 1
    ensures BindClosed(t, offerId, portId, turnSeq, pt)
  {
  }

  /** No later timing opens a closed window. */
  lemma ClosedIsRefused(t: Store, offerId: string, portId: string, turnSeq: int, pt: int, laterTurnSeq: int,
                        laterClock: Hlc.Timestamp, wallMs: int, samples: seq<Hlc.Sample>,
                        maxSkewMs: real, minSamples: int)
    requires BindClosed(t, offerId, portId, turnSeq, pt) && laterTurnSeq >= turnSeq && laterClock.pt >= pt
    ensures Admission(t, offerId, portId,
      Timing(laterTurnSeq, Hlc.ConservativeEffectiveNow(laterClock, wallMs, samples, maxSkewMs, minSamples))).Some?
  {
    hide Resolve, Tally;
  }

  /** Expiring a port or an offer by hand closes it for every positive clock. */
  lemma ManualExpiryCloses(s: Store, offerId: string, portId: string, turnSeq: int, pt: int)
    requires Good(s) && pt >= 1
    ensures portId in s.ports ==> BindClosed(SetPortExpired(s, portId), offerId, portId, turnSeq, pt)
    ensures offerId in s.offers ==> BindClosed(SetOfferExpired(s, offerId), offerId, portId, turnSeq, pt)
    ensures (exists i :: 0 <= i < |s.exposes| && s.exposes[i] == Edge(offerId, portId)) ==>
      forall binder: string :: BindClosed(SetOfferExpired(s, offerId), binder, portId, turnSeq, pt)
  {
    var t := if offerId in s.offers then s.(offerNbc := s.offerNbc[offerId := EXPIRED_WINDOW]) else s;
    if i :| 0 <= i < |s.exposes| && s.exposes[i] == Edge(offerId, portId) {
      ExpireEdgesReaches(t, offerId, portId, i, |t.exposes|);
    }
  }

  lemma {:induction false} ExpireEdgesReaches(s: Store, offerId: string, portId: string, i: nat, n: nat)
    requires i < n <= |s.exposes| && s.exposes[i] == Edge(offerId, portId) && portId in s.ports
    ensures portId in ExpireEdges(s, offerId, n) && ExpireEdges(s, offerId, n)[portId] == EXPIRED_WINDOW
  {
    if i < n - 1 { ExpireEdgesReaches(s, offerId, portId, i, n - 1); }
  }
}
