/** What a turn leaves in the store: everything its body declares, for the party that acts, and nothing that was
    stored before changed. */
module TurnStores {
  import opened Text
  import opened CanonicalJson
  import opened PortRefs
  import opened NbcStore
  import opened StoreSafety
  import opened TurnCodec
  import opened NbcTurn
  import opened BindRules

  // ----- One port

  /** The port is stored under the id as the spec declares it: its ref and kind, its two expiries, its limit
      (one unless declared) and its bind policy (null unless declared). */
  predicate StoredAs(t: Store, id: string, spec: PortSpec) {
    && id in t.ports && t.ports[id] == Port(id, spec.kind, spec.promise, spec.ref)
    && id in t.portNbc && t.portNbc[id] == Window(spec.expiresTurn, spec.expiresAtMs)
    && id in t.exposePolicies && t.exposePolicies[id].terminal == (spec.terminal == Some(true))
    && t.exposePolicies[id].maxBindings == (match spec.maxBindings case Some(n) => n case None => 1)
    && id in t.bindPolicies && t.bindPolicies[id] == (if spec.bindPolicy.JUndefined? then JNull else spec.bindPolicy)
  }

  /** Whatever was stored is as it was. */
  ghost predicate Keeps(s: Store, t: Store) {
    && OnlyAdds(s.ports, t.ports) && OnlyAdds(s.offers, t.offers) && OnlyAdds(s.extenders, t.extenders)
    && OnlyAdds(s.exposePolicies, t.exposePolicies) && OnlyAdds(s.portNbc, t.portNbc)
    && OnlyAdds(s.offerNbc, t.offerNbc) && t.parties == s.parties && s.exposes <= t.exposes && s.binds <= t.binds
    && (forall id :: id in s.ports && id in s.bindPolicies ==>
          id in t.bindPolicies && t.bindPolicies[id] == s.bindPolicies[id])
    && (forall id :: id in s.ports && id in t.bindPolicies ==> id in s.bindPolicies)
  }

  lemma KeepsTransitive(s: Store, t: Store, u: Store)
    requires Keeps(s, t) && Keeps(t, u)
    ensures Keeps(s, u)
  {
  }

  lemma StoredStays(s: Store, t: Store, id: string, spec: PortSpec)
    requires StoredAs(s, id, spec) && Keeps(s, t)
    ensures StoredAs(t, id, spec)
  {
  }

  lemma AddPortKeeps(s: Store, input: ExposeInput, port: Port)
    requires Tidy(s) && port.id !in s.ports
    ensures Keeps(s, AddPort(s, input, port).0)
  {
    var p := AddPortCases(s, input, port);
    AddPortKeepsRest(s, input, port);
    assert port.id !in s.portNbc && port.id !in s.exposePolicies;
    hide AddPort, Tidy;
  }

  lemma AddPortKeepsRest(s: Store, input: ExposeInput, port: Port)
    ensures var t := AddPort(s, input, port).0;
      (t.bindPolicies == s.bindPolicies || t.bindPolicies == s.bindPolicies[port.id := input.bindPolicy])
  {
    hide Resolve, Trim, NormalizeMaxBindings;
  }

  lemma AddPortOk(s: Store, input: ExposeInput, port: Port)
    ensures var (t, r) := AddPort(s, input, port);
      r.Ok? ==>
        && r.value == port && NormalizeMaxBindings(input.maxBindings).Some?
        && t.ports == s.ports[port.id := port] && t.bindPolicies == s.bindPolicies[port.id := input.bindPolicy]
        && t.portNbc == s.portNbc[port.id := input.window]
        && t.exposePolicies == s.exposePolicies[
             port.id := Policy(NormalizeMaxBindings(input.maxBindings).value, input.terminal)]
  {
    hide Resolve, Trim, NormalizeMaxBindings;
  }

  lemma AddPortStores(s: Store, offerId: string, spec: PortSpec, port: Port)
    requires port == Port(port.id, spec.kind, spec.promise, spec.ref)
    ensures var (t, r) := AddPort(s, ExposeInputOf(offerId, spec), port);
      r.Ok? ==> r.value == port && t.ports.Keys == s.ports.Keys + {port.id} && StoredAs(t, port.id, spec)
  {
    hide AddPort;
    AddPortOk(s, ExposeInputOf(offerId, spec), port);
  }

  lemma CounterUnread(s: Store, t: Store)
    requires Tidy(s) && t == s.(seqNo := t.seqNo)
    ensures Tidy(t) && forall id :: id in s.ports ==> s.ports[id].id == id
  {
  }

  lemma ExposeOutcome(policyOk: Json -> bool, s: Store, input: ExposeInput, t: Store, id: string)
    requires Trim(input.port.id) != "" ==> t == s && id == input.port.id
    requires Trim(input.port.id) == "" ==> t == s.(seqNo := s.seqNo + 1) && id == IdOf(s.seqNo + 1)
    ensures var (u, r) := ExposePort(policyOk, s, input);
      || (r.Err? && (u == s || u == t))
      || (id in t.ports && r == Ok(t.ports[id]) && u == t.(exposes := t.exposes + [Edge(input.offerId, id)]))
      || (id !in t.ports && (u, r) == AddPort(t, input, input.port.(id := id)))
  {
    hide AddPort, Trim, IdOf;
  }

  /** Neither the counter nor one more edge is read by what is kept. */
  lemma CounterKeeps(s: Store, t: Store)
    requires t == s.(seqNo := t.seqNo, exposes := t.exposes) && s.exposes <= t.exposes
    ensures Keeps(s, t)
  {
  }

  /** Exposing a port: a stored one is left alone, a new one is stored as declared, under the id declared or, when
      that is blank, under the next id of the counter. */
  lemma ExposeStores(policyOk: Json -> bool, s: Store, offerId: string, spec: PortSpec)
    requires Tidy(s)
    ensures var (t, r) := ExposePort(policyOk, s, ExposeInputOf(offerId, spec));
      && Keeps(s, t)
      && (r.Ok? ==>
            && r.value.id == (if IsCore(spec.id, "") then IdOf(s.seqNo + 1) else spec.id)
            && r.value.id in t.ports && t.ports.Keys <= s.ports.Keys + {r.value.id}
            && (r.value.id !in s.ports ==> StoredAs(t, r.value.id, spec)))
  {
    TrimIsCore(spec.id, "");
    hide AddPort, IdOf, Trim, IsCore, StoredAs, Tidy, ExposePort;
    hide Keeps;
    var named := Trim(spec.id) != "";
    var id := if named then spec.id else IdOf(s.seqNo + 1);
    var t := if named then s else s.(seqNo := s.seqNo + 1);
    CounterUnread(s, t);
    ExposeOutcome(policyOk, s, ExposeInputOf(offerId, spec), t, id);
    CounterKeeps(s, s);
    CounterKeeps(s, t);
    if id in t.ports {
      CounterKeeps(s, t.(exposes := t.exposes + [Edge(offerId, id)]));
    } else {
      AddPortKeeps(t, ExposeInputOf(offerId, spec), Port(id, spec.kind, spec.promise, spec.ref));
      KeepsTransitive(s, t, AddPort(t, ExposeInputOf(offerId, spec), Port(id, spec.kind, spec.promise, spec.ref)).0);
      AddPortStores(t, offerId, spec, Port(id, spec.kind, spec.promise, spec.ref));
    }
  }

  // ----- All ports of a turn

  /** The i-th port the loop exposed: it goes by its declared id unless that is blank, and is stored as declared
      unless the id was stored before the turn or listed earlier in it. */
  ghost predicate ExposedAs(s: Store, t: Store, ids: seq<string>, i: nat, spec: PortSpec)
    requires i < |ids|
  {
    && ids[i] in t.ports && (!IsCore(spec.id, "") ==> ids[i] == spec.id)
    && (ids[i] !in s.ports && ids[i] !in ids[..i] ==> StoredAs(t, ids[i], spec))
  }

  ghost predicate AllExposed(s: Store, t: Store, ids: seq<string>, specs: seq<PortSpec>) {
    |ids| <= |specs| && forall i :: 0 <= i < |ids| ==> ExposedAs(s, t, ids, i, specs[i])
  }

  /** Every port stored now was stored before or is one of those listed. */
  ghost predicate OnlyListed(s: Store, t: Store, ids: seq<string>) {
    forall id :: id in t.ports && id !in s.ports ==> id in ids
  }

  lemma ExposedStays(s: Store, t: Store, u: Store, ids: seq<string>, id: string, i: nat, spec: PortSpec)
    requires i < |ids| && ExposedAs(s, t, ids, i, spec) && Keeps(t, u)
    ensures ExposedAs(s, u, ids + [id], i, spec)
  {
    hide StoredAs;
    assert (ids + [id])[i] == ids[i] && (ids + [id])[..i] == ids[..i];
    if ids[i] !in s.ports && ids[i] !in ids[..i] { StoredStays(t, u, ids[i], spec); }
  }

  lemma NewOrListed(s: Store, t: Store, ids: seq<string>, id: string)
    requires Keeps(s, t) && OnlyListed(s, t, ids)
    ensures id in t.ports <==> id in s.ports || (id in t.ports && id in ids)
  {
  }

  /** One more exposed port. */
  lemma OneMoreExposed(s: Store, t: Store, u: Store, ids: seq<string>, id: string, specs: seq<PortSpec>)
    requires |ids| < |specs| && AllExposed(s, t, ids, specs) && OnlyListed(s, t, ids) && Keeps(s, t) && Keeps(t, u)
    requires (!IsCore(specs[|ids|].id, "") ==> id == specs[|ids|].id) && id in u.ports
    requires u.ports.Keys <= t.ports.Keys + {id} && (id !in t.ports ==> StoredAs(u, id, specs[|ids|]))
    ensures AllExposed(s, u, ids + [id], specs) && OnlyListed(s, u, ids + [id])
  {
    hide StoredAs, IsCore, Keeps;
    var all := ids + [id];
    forall i | 0 <= i < |all| ensures ExposedAs(s, u, all, i, specs[i]) {
      if i < |ids| {
        ExposedStays(s, t, u, ids, id, i, specs[i]);
      } else {
        assert all[..i] == ids && all[i] == id;
        NewOrListed(s, t, ids, id);
      }
    }
    forall other | other in u.ports && other !in s.ports ensures other in all {
      if other in t.ports { assert other in ids; } else { assert all[|ids|] == other; }
    }
  }

  lemma ExposeNextStores(policyOk: Json -> bool, s: Store, before: Exposing, offerId: string, specs: seq<PortSpec>)
    requires Good(before.store) && before.error.None? && |before.ids| < |specs|
    requires Keeps(s, before.store) && AllExposed(s, before.store, before.ids, specs)
    requires OnlyListed(s, before.store, before.ids)
    ensures var x := ExposeNext(policyOk, before, offerId, specs[|before.ids|]);
      && Keeps(s, x.store)
      && (x.error.None? ==>
            |x.ids| == |before.ids| + 1 && AllExposed(s, x.store, x.ids, specs) && OnlyListed(s, x.store, x.ids))
  {
    GoodParts(before.store);
    hide Good, Tidy, ExposePort, StoredAs, Keeps, IsCore, ExposeInputOf, AllExposed, OnlyListed, IsActivePolicy;
    var spec := specs[|before.ids|];
    var x := ExposeNext(policyOk, before, offerId, spec);
    ExposeStores(policyOk, before.store, offerId, spec);
    KeepsTransitive(s, before.store, x.store);
    var r := ExposePort(policyOk, before.store, ExposeInputOf(offerId, spec)).1;
    if r.Ok? { OneMoreExposed(s, before.store, x.store, before.ids, r.value.id, specs); }
  }

  lemma {:induction false} ExposeAllStores(policyOk: Json -> bool, s: Store, offerId: string, specs: seq<PortSpec>,
                                           n: nat)
    requires Good(s) && n <= |specs|
    ensures var x := ExposeAll(policyOk, s, offerId, specs, n);
      && Keeps(s, x.store)
      && (x.error.None? ==>
            |x.ids| == n && AllExposed(s, x.store, x.ids, specs) && OnlyListed(s, x.store, x.ids))
  {
    hide ExposeNext, Good, AllExposed, OnlyListed, Keeps;
    if n == 0 {
      NothingExposed(s, specs);
    } else {
      ExposeAllStores(policyOk, s, offerId, specs, n - 1);
      var before := ExposeAll(policyOk, s, offerId, specs, n - 1);
      ExposeAllEffects(policyOk, s, offerId, specs, n - 1);
      if before.error.None? { ExposeNextStores(policyOk, s, before, offerId, specs); }
    }
  }

  lemma NothingExposed(s: Store, specs: seq<PortSpec>)
    ensures Keeps(s, s) && AllExposed(s, s, [], specs) && OnlyListed(s, s, [])
  {
  }

  // ----- The whole turn

  /** The offer that a turn stores first: of the body's kind, with the body's window, extended by the party. */
  predicate OfferStored(t: Store, id: string, partyId: string, spec: OfferSpec) {
    && id in t.offers && t.offers[id] == Offer(id, spec.kind)
    && id in t.offerNbc && t.offerNbc[id] == Window(spec.expiresTurn, spec.expiresAtMs)
    && id in t.extenders && t.extenders[id] == partyId
  }

  lemma ExtendStores(s: Store, partyId: string, body: TurnBody)
    requires Good(s)
    ensures var t := ExtendOffer(s, ExtendInputOf(partyId, body)).0; var id := IdOf(s.seqNo + 1);
      Keeps(s, t) && OfferStored(t, id, partyId, body.offer) && t.ports == s.ports
  {
    GoodParts(s);
    NextIdIsFresh(s);
    hide Good;
    assert IdOf(s.seqNo + 1) !in s.offerNbc && IdOf(s.seqNo + 1) !in s.extenders;
  }

  lemma OfferStays(s: Store, t: Store, id: string, partyId: string, spec: OfferSpec)
    requires OfferStored(s, id, partyId, spec) && Keeps(s, t)
    ensures OfferStored(t, id, partyId, spec)
  {
  }

  /** Extending an offer stores no port, so what was stored since is what was stored since then. */
  lemma ListedSince(s: Store, extended: Store, t: Store, ids: seq<string>, specs: seq<PortSpec>)
    requires extended.ports == s.ports && AllExposed(extended, t, ids, specs) && OnlyListed(extended, t, ids)
    ensures AllExposed(s, t, ids, specs) && OnlyListed(s, t, ids)
  {
    hide StoredAs, IsCore;
    forall i | 0 <= i < |ids| ensures ExposedAs(s, t, ids, i, specs[i]) {
      assert ExposedAs(extended, t, ids, i, specs[i]);
    }
  }

  /** A bind changes nothing else. */
  lemma BindStores(s: Store, t: Store, u: Store, ids: seq<string>, body: TurnBody, offerId: string, partyId: string)
    requires u == t.(binds := u.binds) && t.binds <= u.binds && Keeps(s, t)
    requires AllExposed(s, t, ids, body.ports) && OnlyListed(s, t, ids) && OfferStored(t, offerId, partyId, body.offer)
    ensures Keeps(s, u)
    ensures AllExposed(s, u, ids, body.ports) && OnlyListed(s, u, ids) && OfferStored(u, offerId, partyId, body.offer)
  {
    hide IsCore;
    forall i | 0 <= i < |ids| ensures ExposedAs(s, u, ids, i, body.ports[i]) {
      assert ExposedAs(s, t, ids, i, body.ports[i]);
    }
  }

  /** Every turn, whatever becomes of it, leaves all that was stored as it was and stores its offer for the
      party that acts. A successful one stores each port it lists that was not stored before as its first
      listing declares it, and no other port. */
  lemma TurnStoresAsDeclared(policyOk: Json -> bool, validator: Validator, s: Store, partyId: string, body: TurnBody,
                             timing: Timing)
    requires Good(s)
    ensures var (t, r) := ApplyTurn(policyOk, validator, s, partyId, body, timing);
      && Keeps(s, t) && OfferStored(t, IdOf(s.seqNo + 1), partyId, body.offer)
      && (r.Ok? ==>
            && r.value.offerId == IdOf(s.seqNo + 1) && |r.value.exposedPortIds| == |body.ports|
            && AllExposed(s, t, r.value.exposedPortIds, body.ports)
            && OnlyListed(s, t, r.value.exposedPortIds))
  {
    hide Good, ExtendOffer, ExposeAll, BindPort, BindPayloadFor, Keeps, OfferStored, AllExposed, OnlyListed;
    ExtendStores(s, partyId, body);
    ExtendEffects(s, partyId, body);
    var (extended, e) := ExtendOffer(s, ExtendInputOf(partyId, body));
    ExposeAllStores(policyOk, extended, e.value.id, body.ports, |body.ports|);
    ExposeAllEffects(policyOk, extended, e.value.id, body.ports, |body.ports|);
    var x := ExposeAll(policyOk, extended, e.value.id, body.ports, |body.ports|);
    KeepsTransitive(s, extended, x.store);
    OfferStays(extended, x.store, e.value.id, partyId, body.offer);
    if x.error.None? { ListedSince(s, extended, x.store, x.ids, body.ports); }
    if x.error.None? && body.bindPortId != "" {
      var payload := BindPayloadFor(x.store, x.local, body, validator);
      if payload.Ok? {
        var input := BindInput(e.value.id, body.bindPortId, payload.value);
        BindEffects(x.store, input, timing);
        BindStores(s, x.store, BindPort(x.store, input, Some(timing)).0, x.ids, body, e.value.id, partyId);
      }
    }
  }

  // ----- How long an exposed port can be bound

  /** The turn succeeds, and its i-th port is stored for the first time by that listing. */
  ghost predicate StoresPort(s: Store, r: Result<TurnResult, Code>, i: nat) {
    r.Ok? && i < |r.value.exposedPortIds| &&
    var id := r.value.exposedPortIds[i]; id !in s.ports && id !in r.value.exposedPortIds[..i]
  }

  /** A port exposed with a last turn is open at every turn before it, and closed to every offer from that turn on,
      whatever operations the store takes in between; likewise with a last moment. */
  lemma ExposedUntil(policyOk: Json -> bool, validator: Validator, s: Store, partyId: string, body: TurnBody,
                     timing: Timing, i: nat, ops: seq<Op>, input: BindInput, at: Timing)
    requires Good(s) && StoresPort(s, ApplyTurn(policyOk, validator, s, partyId, body, timing).1, i)
    requires at.effectiveNowMs.Some? ==> at.effectiveNowMs.value >= 1.0
    ensures var (t, r) := ApplyTurn(policyOk, validator, s, partyId, body, timing);
      var id := r.value.exposedPortIds[i];
      && i < |body.ports| && id in t.portNbc
      && var spec := body.ports[i];
      var past := (spec.expiresTurn != 0 && at.turnSeq >= spec.expiresTurn)
        || (spec.expiresAtMs != 0 && (at.effectiveNowMs.None? || at.effectiveNowMs.value >= spec.expiresAtMs as real));
      && (WindowOpen(t.portNbc[id], at) <==> !past)
      && (past && input.portId == id ==> BindPort(Run(policyOk, t, ops), input, Some(at)).1.Err?)
  {
    hide Good, ApplyTurn, Run, Keeps, OnlyListed, OfferStored, IsCore, BindPort;
    TurnStoresAsDeclared(policyOk, validator, s, partyId, body, timing);
    TurnEffects(policyOk, validator, s, partyId, body, timing);
    var (t, r) := ApplyTurn(policyOk, validator, s, partyId, body, timing);
    assert ExposedAs(s, t, r.value.exposedPortIds, i, body.ports[i]);
    var id := r.value.exposedPortIds[i];
    OpenIsNotShut(t.portNbc[id], at);
    RunIsLater(policyOk, t, ops);
    if input.portId == id && Shut(t.portNbc[id], at) { StaysShut(t, Run(policyOk, t, ops), input, at); }
  }

  lemma StaysShut(t: Store, u: Store, input: BindInput, at: Timing)
    requires Later(t, u) && Good(u) && input.portId in t.portNbc && Shut(t.portNbc[input.portId], at)
    requires at.effectiveNowMs.Some? ==> at.effectiveNowMs.value >= 1.0
    ensures BindPort(u, input, Some(at)).1.Err?
  {
    BindExactly(u, input, Some(at));
    hide Good, BindPort, HasCapacity;
  }

  // ----- What a turn binds

  /** The bind policy that the turn itself declares for the port: the last one that is a non-empty object. */
  function Declared(ids: seq<string>, specs: seq<PortSpec>, id: string): Option<Json>
    requires |ids| <= |specs|
  {
    if |ids| == 0 then None
    else
      var n := |ids| - 1;
      var policy := specs[n].bindPolicy;
      if ids[n] == id && policy.JObject? && policy.members != map[] then Some(policy) else Declared(ids[..n], specs, id)
  }

  /** The policy a bind to the port is held to: the one declared on this turn, else the one stored. */
  function InForce(t: Store, ids: seq<string>, specs: seq<PortSpec>, id: string): Json
    requires |ids| <= |specs|
  {
    match Declared(ids, specs, id)
    case Some(policy) => policy
    case None => if id in t.bindPolicies then t.bindPolicies[id] else JNull
  }

  /** Under a policy the host's validator gives the payload that is stored; without one nothing may be sent. */
  predicate PayloadFits(policy: Json, given: Json, validator: Validator, stored: Json) {
    if policy.JObject? && policy.members != map[] then validator.Some? && validator.value(policy, given) == Some(stored)
    else stored == given && (given.JUndefined? || given.JNull? || given == JObject(map[]))
  }

  ghost predicate LocalIs(local: map<string, Json>, ids: seq<string>, specs: seq<PortSpec>) {
    |ids| <= |specs| && forall id :: Declared(ids, specs, id) == if id in local then Some(local[id]) else None
  }

  lemma DeclaredNext(local: map<string, Json>, ids: seq<string>, specs: seq<PortSpec>, id: string)
    requires |ids| < |specs| && LocalIs(local, ids, specs)
    ensures var policy := specs[|ids|].bindPolicy;
      LocalIs(if IsActivePolicy(policy) then local[id := policy] else local, ids + [id], specs)
  {
    assert (ids + [id])[..|ids|] == ids;
  }

  lemma {:induction false} LocalDeclared(policyOk: Json -> bool, s: Store, offerId: string, specs: seq<PortSpec>,
                                         n: nat)
    requires n <= |specs| && ExposeAll(policyOk, s, offerId, specs, n).error.None?
    ensures var x := ExposeAll(policyOk, s, offerId, specs, n); |x.ids| == n && LocalIs(x.local, x.ids, specs)
  {
    hide ExposePort, LocalIs, IsActivePolicy, ExposeInputOf;
    if n == 0 {
      NoneDeclared(specs);
    } else {
      LocalDeclared(policyOk, s, offerId, specs, n - 1);
      var before := ExposeAll(policyOk, s, offerId, specs, n - 1);
      var r := ExposePort(policyOk, before.store, ExposeInputOf(offerId, specs[n - 1])).1;
      DeclaredNext(before.local, before.ids, specs, r.value.id);
    }
  }

  lemma NoneDeclared(specs: seq<PortSpec>)
    ensures LocalIs(map[], [], specs)
  {
  }

  lemma PayloadMeans(policy: Json, given: Json, validator: Validator, stored: Json)
    ensures NormalizePayload(policy, given, validator) == Ok(stored) <==> PayloadFits(policy, given, validator, stored)
  {
    assert given.JObject? && |given.members| == 0 ==> given == JObject(map[]);
  }

  /** The last bind of the store is the offer's to the port, with a payload that its policy lets through, and both
      windows were open at the timing. */
  ghost predicate Bound(s: Store, t: Store, r: TurnResult, body: TurnBody, validator: Validator, timing: Timing)
    requires |r.exposedPortIds| <= |body.ports|
  {
    && |t.binds| == |s.binds| + 1 && s.binds <= t.binds
    && var b := t.binds[|s.binds|];
    && b.offerId == r.offerId && b.portId == body.bindPortId
    && PayloadFits(InForce(t, r.exposedPortIds, body.ports, b.portId), body.bindPayload, validator, b.payload)
    && b.portId in t.portNbc && !Shut(t.portNbc[b.portId], timing)
    && b.offerId in t.offerNbc && !Shut(t.offerNbc[b.offerId], timing)
  }

  /** A successful turn that names a port binds its own offer to it, with the payload that the policy in force
      lets through, while both windows are open. */
  lemma TurnBindsAsDeclared(policyOk: Json -> bool, validator: Validator, s: Store, partyId: string, body: TurnBody,
                            timing: Timing)
    requires Good(s) && body.bindPortId != ""
    ensures var (t, r) := ApplyTurn(policyOk, validator, s, partyId, body, timing);
      r.Ok? ==> |r.value.exposedPortIds| <= |body.ports| && Bound(s, t, r.value, body, validator, timing)
  {
    hide Good, ExtendOffer, ExposeAll, BindPort, BindPayloadFor, InForce, PayloadFits, Shut;
    ExtendEffects(s, partyId, body);
    var (extended, e) := ExtendOffer(s, ExtendInputOf(partyId, body));
    ExposeAllEffects(policyOk, extended, e.value.id, body.ports, |body.ports|);
    var x := ExposeAll(policyOk, extended, e.value.id, body.ports, |body.ports|);
    if x.error.None? {
      LocalDeclared(policyOk, extended, e.value.id, body.ports, |body.ports|);
      var payload := BindPayloadFor(x.store, x.local, body, validator);
      if payload.Ok? {
        BindPayloadMeans(x.store, x.local, x.ids, body, validator, payload.value);
        BoundWhenOpen(x.store, x.ids, body, BindInput(e.value.id, body.bindPortId, payload.value), timing);
      }
    }
  }

  lemma BindPayloadMeans(t: Store, local: map<string, Json>, ids: seq<string>, body: TurnBody, validator: Validator,
                         payload: Json)
    requires LocalIs(local, ids, body.ports) && BindPayloadFor(t, local, body, validator) == Ok(payload)
    ensures PayloadFits(InForce(t, ids, body.ports, body.bindPortId), body.bindPayload, validator, payload)
  {
    hide PayloadFits, NormalizePayload, Declared;
    var policy := BindPolicyFor(t, local, body.bindPortId);
    assert policy.Ok? && NormalizePayload(policy.value, body.bindPayload, validator) == Ok(payload);
    PayloadMeans(policy.value, body.bindPayload, validator, payload);
  }

  /** A bind that goes through leaves the windows and policies it was let through by. */
  lemma BoundWhenOpen(t: Store, ids: seq<string>, body: TurnBody, input: BindInput, timing: Timing)
    requires Good(t) && |ids| <= |body.ports|
    ensures var (u, r) := BindPort(t, input, Some(timing));
      r.Ok? ==>
        && u.binds == t.binds + [Bind(input.offerId, input.portId, input.payload)]
        && InForce(u, ids, body.ports, input.portId) == InForce(t, ids, body.ports, input.portId)
        && input.portId in u.portNbc && !Shut(u.portNbc[input.portId], timing)
        && input.offerId in u.offerNbc && !Shut(u.offerNbc[input.offerId], timing)
  {
    BindExactly(t, input, Some(timing));
    hide Good, BindPort, Shut, HasCapacity, Declared;
  }

  // ----- What the sender checked

  lemma NamedPortNext(policyOk: Json -> bool, before: Exposing, offerId: string, spec: PortSpec)
    requires Good(before.store) && before.error.None? && !IsCore(spec.id, "")
    ensures var x := ExposeNext(policyOk, before, offerId, spec);
      x.error.None? ==>
        x.local == if IsActivePolicy(spec.bindPolicy) then before.local[spec.id := spec.bindPolicy] else before.local
  {
    GoodParts(before.store);
    ExposeStores(policyOk, before.store, offerId, spec);
    hide Good, Tidy, ExposePort, IsCore, ExposeInputOf, IsActivePolicy, Keeps, StoredAs;
  }

  lemma {:induction false} NamedPortsAgree(policyOk: Json -> bool, s: Store, offerId: string, specs: seq<PortSpec>,
                                           n: nat)
    requires Good(s) && n <= |specs| && ExposeAll(policyOk, s, offerId, specs, n).error.None?
    requires forall i :: 0 <= i < |specs| ==> !IsCore(specs[i].id, "")
    ensures ExposeAll(policyOk, s, offerId, specs, n).local == LocalPolicies(specs[..n])
  {
    hide Good, ExposeNext, IsCore, IsActivePolicy;
    if n > 0 {
      NamedPortsAgree(policyOk, s, offerId, specs, n - 1);
      assert specs[..n][..n - 1] == specs[..n - 1];
      ExposeAllEffects(policyOk, s, offerId, specs, n - 1);
      NamedPortNext(policyOk, ExposeAll(policyOk, s, offerId, specs, n - 1), offerId, specs[n - 1]);
    }
  }

  lemma SamePolicy(s: Store, t: Store, local: map<string, Json>, id: string)
    requires Keeps(s, t)
    ensures BindPolicyFor(s, local, id).Ok? ==> BindPolicyFor(t, local, id) == BindPolicyFor(s, local, id)
  {
  }

  /** A bind payload that the sender's check let through is let through, and stored as the same, by everyone who
      applies the turn to that store, provided every port of the turn has an id. */
  lemma CheckedPayloadIsTaken(policyOk: Json -> bool, validator: Validator, s: Store, partyId: string, body: TurnBody)
    requires Good(s) && body.bindPortId != "" && OutboundError(s, body, validator).None?
    requires forall i :: 0 <= i < |body.ports| ==> !IsCore(body.ports[i].id, "")
    ensures var (extended, e) := ExtendOffer(s, ExtendInputOf(partyId, body));
      e.Ok? && var x := ExposeAll(policyOk, extended, e.value.id, body.ports, |body.ports|);
      x.error.None? ==>
        && BindPayloadFor(x.store, x.local, body, validator).Ok?
        && BindPayloadFor(x.store, x.local, body, validator)
             == BindPayloadFor(s, LocalPolicies(body.ports), body, validator)
  {
    hide Good, ExtendOffer, ExposeAll, IsCore, NormalizePayload, LocalPolicies;
    ExtendEffects(s, partyId, body);
    ExtendStores(s, partyId, body);
    var (extended, e) := ExtendOffer(s, ExtendInputOf(partyId, body));
    ExposeAllStores(policyOk, extended, e.value.id, body.ports, |body.ports|);
    var x := ExposeAll(policyOk, extended, e.value.id, body.ports, |body.ports|);
    KeepsTransitive(s, extended, x.store);
    if x.error.None? {
      NamedPortsAgree(policyOk, extended, e.value.id, body.ports, |body.ports|);
      assert body.ports[..|body.ports|] == body.ports;
      SamePolicy(s, x.store, x.local, body.bindPortId);
    }
  }

  // ----- When a turn succeeds

  /** How many of the first n ports are listed without an id. */
  ghost function Blanks(specs: seq<PortSpec>, n: nat): nat
    requires n <= |specs|
  {
    if n == 0 then 0 else Blanks(specs, n - 1) + if IsCore(specs[n - 1].id, "") then 1 else 0
  }

  /** The id that the i-th port goes by: its own, or the next one of the counter when that is blank. */
  ghost function IdAt(counter: nat, specs: seq<PortSpec>, i: nat): string
    requires i < |specs|
  {
    if IsCore(specs[i].id, "") then IdOf(counter + Blanks(specs, i) + 1) else specs[i].id
  }

  /** The port is stored once the first n are exposed. */
  ghost predicate StoredBy(ports: Ports, counter: nat, specs: seq<PortSpec>, n: nat, id: string)
    requires n <= |specs|
  {
    id in ports || exists j :: 0 <= j < n && IdAt(counter, specs, j) == id
  }

  /** The i-th port is stored already, or may be: the host takes its policy, its limit is not below one, and its
      ref is blank or stored by then. */
  ghost predicate Exposable(policyOk: Json -> bool, ports: Ports, counter: nat, specs: seq<PortSpec>, i: nat)
    requires i < |specs|
  {
    var spec := specs[i];
    || StoredBy(ports, counter, specs, i, IdAt(counter, specs, i))
    || (policyOk(if spec.bindPolicy.JUndefined? then JNull else spec.bindPolicy)
        && (spec.maxBindings.Some? ==> spec.maxBindings.value >= 1)
        && exists target :: IsCore(spec.ref, target) && (target == "" || StoredBy(ports, counter, specs, i, target)))
  }

  ghost predicate AllExposable(policyOk: Json -> bool, ports: Ports, counter: nat, specs: seq<PortSpec>) {
    forall i :: 0 <= i < |specs| ==> Exposable(policyOk, ports, counter, specs, i)
  }

  /** The loop has come through the first n ports. */
  ghost predicate Through(s: Store, x: Exposing, specs: seq<PortSpec>, n: nat)
    requires n <= |specs|
  {
    && x.error.None? && x.store.seqNo == s.seqNo + Blanks(specs, n) && x.store.offers == s.offers
    && forall id :: id in x.store.ports <==> StoredBy(s.ports, s.seqNo, specs, n, id)
  }

  lemma AddPortCounts(s: Store, input: ExposeInput, port: Port)
    ensures AddPort(s, input, port).0.seqNo == s.seqNo && AddPort(s, input, port).0.offers == s.offers
  {
    hide Resolve, Trim, NormalizeMaxBindings;
  }

  lemma ExposeCounts(policyOk: Json -> bool, s: Store, input: ExposeInput)
    requires input.offerId in s.offers
    ensures ExposePort(policyOk, s, input).0.seqNo == s.seqNo + if IsCore(input.port.id, "") then 1 else 0
    ensures ExposePort(policyOk, s, input).0.offers == s.offers
  {
    TrimIsCore(input.port.id, "");
    var id := if Trim(input.port.id) != "" then input.port.id else IdOf(s.seqNo + 1);
    var t := if Trim(input.port.id) != "" then s else s.(seqNo := s.seqNo + 1);
    hide IsCore, Trim, AddPort, IdOf;
    AddPortCounts(t, input, input.port.(id := id));
  }

  lemma StoredByNext(ports: Ports, counter: nat, specs: seq<PortSpec>, n: nat, id: string)
    requires n < |specs|
    ensures StoredBy(ports, counter, specs, n + 1, id) <==>
      StoredBy(ports, counter, specs, n, id) || id == IdAt(counter, specs, n)
  {
    hide IdAt;
  }

  lemma ExposableMeans(policyOk: Json -> bool, s: Store, x: Exposing, offerId: string, specs: seq<PortSpec>, n: nat)
    requires n < |specs| && Through(s, x, specs, n) && Good(x.store) && offerId in s.offers
    ensures ExposePort(policyOk, x.store, ExposeInputOf(offerId, specs[n])).1.Ok?
       <==> Exposable(policyOk, s.ports, s.seqNo, specs, n)
  {
    hide Good, ExposePort, IsCore, StoredBy, IdOf, Blanks;
    var input := ExposeInputOf(offerId, specs[n]);
    ExposeExactly(policyOk, x.store, input, IdAt(s.seqNo, specs, n));
  }

  lemma ThroughCounts(s: Store, x: Exposing, specs: seq<PortSpec>, n: nat)
    requires n <= |specs| && Through(s, x, specs, n)
    ensures x.error.None? && x.store.seqNo == s.seqNo + Blanks(specs, n) && x.store.offers == s.offers
  {
  }

  /** One more port. */
  lemma OneMoreThrough(s: Store, x: Exposing, y: Exposing, specs: seq<PortSpec>, n: nat)
    requires n < |specs| && Through(s, x, specs, n) && y.error.None? && y.store.offers == x.store.offers
    requires y.store.seqNo == x.store.seqNo + if IsCore(specs[n].id, "") then 1 else 0
    requires y.store.ports.Keys == x.store.ports.Keys + {IdAt(s.seqNo, specs, n)}
    ensures Through(s, y, specs, n + 1)
  {
    hide StoredBy, IdAt, IsCore;
    forall id ensures id in y.store.ports <==> StoredBy(s.ports, s.seqNo, specs, n + 1, id) {
      StoredByNext(s.ports, s.seqNo, specs, n, id);
    }
  }

  lemma KeysGrow(s: Store, t: Store)
    requires Keeps(s, t)
    ensures s.ports.Keys <= t.ports.Keys
  {
  }

  lemma NextStore(policyOk: Json -> bool, s: Store, offerId: string, spec: PortSpec)
    requires Good(s) && offerId in s.offers && ExposePort(policyOk, s, ExposeInputOf(offerId, spec)).1.Ok?
    ensures var t := ExposePort(policyOk, s, ExposeInputOf(offerId, spec)).0;
      && t.offers == s.offers && t.seqNo == s.seqNo + (if IsCore(spec.id, "") then 1 else 0)
      && t.ports.Keys == s.ports.Keys + {if IsCore(spec.id, "") then IdOf(s.seqNo + 1) else spec.id}
  {
    GoodParts(s);
    hide Good, Tidy, ExposePort, IsCore, IdOf, StoredAs, Keeps;
    ExposeCounts(policyOk, s, ExposeInputOf(offerId, spec));
    ExposeStores(policyOk, s, offerId, spec);
    KeysGrow(s, ExposePort(policyOk, s, ExposeInputOf(offerId, spec)).0);
  }

  lemma NextPort(policyOk: Json -> bool, x: Exposing, offerId: string, spec: PortSpec)
    requires Good(x.store) && offerId in x.store.offers
    requires ExposePort(policyOk, x.store, ExposeInputOf(offerId, spec)).1.Ok?
    ensures var y := ExposeNext(policyOk, x, offerId, spec);
      && y.error.None? && y.store.offers == x.store.offers
      && y.store.seqNo == x.store.seqNo + (if IsCore(spec.id, "") then 1 else 0)
      && y.store.ports.Keys
           == x.store.ports.Keys + {if IsCore(spec.id, "") then IdOf(x.store.seqNo + 1) else spec.id}
  {
    hide Good, ExposePort, IsCore, IdOf, IsActivePolicy, ExposeInputOf;
    NextStore(policyOk, x.store, offerId, spec);
  }

  lemma NextThrough(policyOk: Json -> bool, s: Store, x: Exposing, offerId: string, specs: seq<PortSpec>, n: nat)
    requires n < |specs| && Through(s, x, specs, n) && Good(x.store) && offerId in s.offers
    requires ExposePort(policyOk, x.store, ExposeInputOf(offerId, specs[n])).1.Ok?
    ensures Through(s, ExposeNext(policyOk, x, offerId, specs[n]), specs, n + 1)
  {
    hide Good, ExposePort, ExposeNext, IsCore, IdOf, Through, Blanks;
    ThroughCounts(s, x, specs, n);
    NextPort(policyOk, x, offerId, specs[n]);
    OneMoreThrough(s, x, ExposeNext(policyOk, x, offerId, specs[n]), specs, n);
  }

  /** All ports are exposed exactly when each is exposable once those before it are. */
  lemma {:induction false} ExposedExactly(policyOk: Json -> bool, s: Store, offerId: string, specs: seq<PortSpec>,
                                          n: nat)
    requires Good(s) && offerId in s.offers && n <= |specs|
    ensures var x := ExposeAll(policyOk, s, offerId, specs, n);
      && (x.error.None? <==> forall i :: 0 <= i < n ==> Exposable(policyOk, s.ports, s.seqNo, specs, i))
      && (x.error.None? ==> Through(s, x, specs, n))
  {
    hide Good, ExposePort, Exposable, StoredBy, ExposeInputOf;
    if n == 0 {
      NoneThrough(s, specs);
    } else {
      ExposedExactly(policyOk, s, offerId, specs, n - 1);
      ExposeAllEffects(policyOk, s, offerId, specs, n - 1);
      var before := ExposeAll(policyOk, s, offerId, specs, n - 1);
      if before.error.None? {
        ExposableMeans(policyOk, s, before, offerId, specs, n - 1);
        if Exposable(policyOk, s.ports, s.seqNo, specs, n - 1) {
          NextThrough(policyOk, s, before, offerId, specs, n - 1);
        }
      }
    }
  }

  lemma NoneThrough(s: Store, specs: seq<PortSpec>)
    ensures Through(s, Exposing(s, [], map[], None), specs, 0)
  {
  }

  /** The policy in force lets the payload through, the bind is admissible, and the pair is not bound. */
  ghost predicate CanBind(t: Store, r: TurnResult, body: TurnBody, validator: Validator, timing: Timing)
    requires |r.exposedPortIds| <= |body.ports|
  {
    && (exists payload ::
          PayloadFits(InForce(t, r.exposedPortIds, body.ports, body.bindPortId), body.bindPayload, validator, payload))
    && Admissible(t, r.offerId, body.bindPortId, timing)
    && forall i :: 0 <= i < |t.binds| ==> t.binds[i].offerId != r.offerId || t.binds[i].portId != body.bindPortId
  }

  lemma PayloadExactly(t: Store, local: map<string, Json>, ids: seq<string>, body: TurnBody, validator: Validator)
    requires LocalIs(local, ids, body.ports) && body.bindPortId in t.ports
    ensures BindPayloadFor(t, local, body, validator).Ok? <==> exists payload ::
      PayloadFits(InForce(t, ids, body.ports, body.bindPortId), body.bindPayload, validator, payload)
  {
    hide PayloadFits, NormalizePayload, Declared;
    var policy := BindPolicyFor(t, local, body.bindPortId).value;
    assert InForce(t, ids, body.ports, body.bindPortId) == policy;
    var r := NormalizePayload(policy, body.bindPayload, validator);
    forall payload ensures r == Ok(payload) <==> PayloadFits(policy, body.bindPayload, validator, payload) {
      PayloadMeans(policy, body.bindPayload, validator, payload);
    }
    if r.Ok? { assert PayloadFits(policy, body.bindPayload, validator, r.value); }
  }

  lemma BindsExactly(t: Store, x: Exposing, r: TurnResult, body: TurnBody, validator: Validator, timing: Timing)
    requires Good(t) && t == x.store && LocalIs(x.local, r.exposedPortIds, body.ports)
    ensures CanBind(t, r, body, validator, timing) <==>
      && BindPayloadFor(t, x.local, body, validator).Ok?
      && BindPort(t, BindInput(r.offerId, body.bindPortId, BindPayloadFor(t, x.local, body, validator).value),
                  Some(timing)).1.Ok?
  {
    hide Good, PayloadFits, InForce, BindPort, BindPayloadFor, LocalIs;
    var payload := BindPayloadFor(t, x.local, body, validator);
    if body.bindPortId in t.ports { PayloadExactly(t, x.local, r.exposedPortIds, body, validator); }
    if payload.Ok? { BindExactly(t, BindInput(r.offerId, body.bindPortId, payload.value), Some(timing)); }
    hide HasCapacity, Shut;
  }

  lemma PlainTurn(policyOk: Json -> bool, validator: Validator, s: Store, partyId: string, body: TurnBody,
                  timing: Timing, x: Exposing)
    requires Good(s)
    requires x == ExposeAll(policyOk, ExtendOffer(s, ExtendInputOf(partyId, body)).0, IdOf(s.seqNo + 1), body.ports,
                            |body.ports|)
    ensures var (t, r) := ApplyTurn(policyOk, validator, s, partyId, body.(bindPortId := ""), timing);
      && t == x.store && (r.Ok? <==> x.error.None?)
      && (r.Ok? ==> r.value.offerId == IdOf(s.seqNo + 1) && r.value.exposedPortIds == x.ids)
  {
    hide Good, ExtendOffer, ExposeAll, IdOf;
    ExtendEffects(s, partyId, body);
    assert ExtendInputOf(partyId, body.(bindPortId := "")) == ExtendInputOf(partyId, body);
  }

  lemma OfferCounts(s: Store, partyId: string, body: TurnBody)
    ensures var t := ExtendOffer(s, ExtendInputOf(partyId, body)).0; t.seqNo == s.seqNo + 1 && t.ports == s.ports
  {
    ExtendShape(s, ExtendInputOf(partyId, body));
    hide ExtendOffer, IdOf;
  }

  /** A turn that names no port to bind succeeds exactly when each of its ports is exposable once those before it
      are. One that names a port succeeds exactly when it would without, and its offer can then bind that port. */
  lemma TurnSucceedsExactly(policyOk: Json -> bool, validator: Validator, s: Store, partyId: string, body: TurnBody,
                            timing: Timing)
    requires Good(s)
    ensures var (t, r) := ApplyTurn(policyOk, validator, s, partyId, body.(bindPortId := ""), timing);
      && (r.Ok? <==> AllExposable(policyOk, s.ports, s.seqNo + 1, body.ports))
      && (r.Ok? ==> |r.value.exposedPortIds| <= |body.ports|)
      && (body.bindPortId != "" ==>
            (ApplyTurn(policyOk, validator, s, partyId, body, timing).1.Ok? <==>
               r.Ok? && CanBind(t, r.value, body, validator, timing)))
  {
    hide Good, ExtendOffer, ExposeAll, BindPort, BindPayloadFor, Exposable, CanBind, IdOf;
    ExtendEffects(s, partyId, body);
    var (extended, e) := ExtendOffer(s, ExtendInputOf(partyId, body));
    var x := ExposeAll(policyOk, extended, IdOf(s.seqNo + 1), body.ports, |body.ports|);
    PlainTurn(policyOk, validator, s, partyId, body, timing, x);
    OfferCounts(s, partyId, body);
    ExposedExactly(policyOk, extended, IdOf(s.seqNo + 1), body.ports, |body.ports|);
    ExposeAllEffects(policyOk, extended, IdOf(s.seqNo + 1), body.ports, |body.ports|);
    if x.error.None? {
      LocalDeclared(policyOk, extended, IdOf(s.seqNo + 1), body.ports, |body.ports|);
      var r := ApplyTurn(policyOk, validator, s, partyId, body.(bindPortId := ""), timing).1.value;
      BindsExactly(x.store, x, r, body, validator, timing);
    }
  }
}
