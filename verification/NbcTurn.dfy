/** Applying one turn to the store: extend an offer, expose its ports, optionally bind. */
module NbcTurn {
  import opened Text
  import opened CanonicalJson
  import opened PortRefs
  import opened NbcStore
  import opened StoreSafety
  import opened TurnCodec

  /** Host validation of a bind payload against an active policy; None when it rejects. */
  type Validator = Option<(Json, Json) -> Option<Json>>

  datatype TurnResult = TurnResult(offerId: string, offer: Offer, exposedPortIds: seq<string>)

  predicate IsActivePolicy(policy: Json) { policy.JObject? && |policy.members| > 0 }

  function MaxArgOf(max: Option<int>): MaxArg { if max.Some? then Integer(max.value) else Omitted }

  function PortOf(spec: PortSpec): Port { Port(spec.id, spec.kind, spec.promise, spec.ref) }

  function ExposeInputOf(offerId: string, spec: PortSpec): ExposeInput {
    ExposeInput(offerId, PortOf(spec), Window(spec.expiresTurn, spec.expiresAtMs), NullIfAbsent(spec.bindPolicy),
                MaxArgOf(spec.maxBindings), spec.terminal == Some(true))
  }

  /** The state of the expose loop: what it has stored, the ids it collected, the policies declared on
      this very turn, and the error that stopped it. */
  datatype Exposing = Exposing(store: Store, ids: seq<string>, local: map<string, Json>, error: Option<Code>)

  function ExposeAll(policyOk: Json -> bool, s: Store, offerId: string, specs: seq<PortSpec>, n: nat): Exposing
    requires n <= |specs|
  {
    if n == 0 then Exposing(s, [], map[], None)
    else
      var before := ExposeAll(policyOk, s, offerId, specs, n - 1);
      if before.error.Some? then before else ExposeNext(policyOk, before, offerId, specs[n - 1])
  }

  function ExposeNext(policyOk: Json -> bool, before: Exposing, offerId: string, spec: PortSpec): Exposing {
    var (t, r) := ExposePort(policyOk, before.store, ExposeInputOf(offerId, spec));
    match r
    case Err(code) => before.(store := t, error := Some(code))
    case Ok(port) =>
      Exposing(t, before.ids + [port.id],
               if IsActivePolicy(spec.bindPolicy) then before.local[port.id := spec.bindPolicy] else before.local, None)
  }

  function BindPolicyFor(s: Store, local: map<string, Json>, portId: string): Result<Json, Code> {
    if portId in local then Ok(local[portId])
    else if portId !in s.ports then Err(NOT_FOUND)
    else Ok(if portId in s.bindPolicies then s.bindPolicies[portId] else JNull)
  }

  function NormalizePayload(policy: Json, payload: Json, validator: Validator): Result<Json, Code> {
    if !IsActivePolicy(policy) then
      if payload.JUndefined? || payload.JNull? || (payload.JObject? && |payload.members| == 0) then Ok(payload)
      else Err(VALIDATION)
    else if validator.None? then Err(VALIDATION)
    else match validator.value(policy, payload)
      case Some(normalized) => Ok(normalized)
      case None => Err(VALIDATION)
  }

  /** The payload a turn's bind will carry. */
  function BindPayloadFor(s: Store, local: map<string, Json>, body: TurnBody, validator: Validator)
    : Result<Json, Code>
  {
    var policy :- BindPolicyFor(s, local, body.bindPortId);
    NormalizePayload(policy, body.bindPayload, validator)
  }

  function ExtendInputOf(partyId: string, body: TurnBody): ExtendInput {
    ExtendInput(partyId, body.offer.kind, Window(body.offer.expiresTurn, body.offer.expiresAtMs), "", JNull)
  }

  function ApplyTurn(policyOk: Json -> bool, validator: Validator, s: Store, partyId: string,
                     body: TurnBody, timing: Timing): (Store, Result<TurnResult, Code>) {
    var (extended, e) := ExtendOffer(s, ExtendInputOf(partyId, body));
    match e
    case Err(code) => (extended, Err(code))
    case Ok(offer) =>
      var exposing := ExposeAll(policyOk, extended, offer.id, body.ports, |body.ports|);
      if exposing.error.Some? then (exposing.store, Err(exposing.error.value))
      else
        var result := TurnResult(offer.id, offer, exposing.ids);
        if body.bindPortId == "" then (exposing.store, Ok(result))
        else match BindPayloadFor(exposing.store, exposing.local, body, validator)
          case Err(code) => (exposing.store, Err(code))
          case Ok(payload) =>
            var (bound, b) := BindPort(exposing.store, BindInput(offer.id, body.bindPortId, payload), Some(timing));
            (bound, match b case Ok(_) => Ok(result) case Err(code) => Err(code))
  }

  method ApplyNbcTurn(client: InMemoryStrategy, validator: Validator, partyId: string, body: TurnBody, timing: Timing)
    returns (r: Result<TurnResult, Code>)
    modifies client
    ensures (client.Model(), r) == ApplyTurn(client.policyOk, validator, old(client.Model()), partyId, body, timing)
  {
    hide ExtendOffer, ExposePort, BindPort;
    var extended := client.Extend(ExtendInputOf(partyId, body));
    if extended.Err? { return Err(extended.error); }
    var offerId := extended.value.id;
    var exposedPortIds: seq<string> := [];
    var localPolicy: map<string, Json> := map[];
    ghost var s := client.Model();
    for i := 0 to |body.ports|
      invariant Exposing(client.Model(), exposedPortIds, localPolicy, None)
             == ExposeAll(client.policyOk, s, offerId, body.ports, i)
    {
      var spec := body.ports[i];
      var exposed := client.Expose(ExposeInputOf(offerId, spec));
      if exposed.Err? {
        FirstErrorStays(client.policyOk, s, offerId, body.ports, i + 1, |body.ports|);
        return Err(exposed.error);
      }
      exposedPortIds := exposedPortIds + [exposed.value.id];
      if IsActivePolicy(spec.bindPolicy) { localPolicy := localPolicy[exposed.value.id := spec.bindPolicy]; }
    }
    if body.bindPortId != "" {
      var policy := BindPolicyFor(client.Model(), localPolicy, body.bindPortId);
      if policy.Err? { return Err(policy.error); }
      var payload := NormalizePayload(policy.value, body.bindPayload, validator);
      if payload.Err? { return Err(payload.error); }
      var bound := client.BindTo(BindInput(offerId, body.bindPortId, payload.value), Some(timing));
      if bound.Err? { return Err(bound.error); }
    }
    return Ok(TurnResult(offerId, extended.value, exposedPortIds));
  }

  lemma {:induction false} FirstErrorStays(policyOk: Json -> bool, s: Store, offerId: string, specs: seq<PortSpec>,
                                           i: nat, n: nat)
    requires i <= n <= |specs| && ExposeAll(policyOk, s, offerId, specs, i).error.Some?
    ensures ExposeAll(policyOk, s, offerId, specs, n) == ExposeAll(policyOk, s, offerId, specs, i)
    decreases n
  {
    hide ExposeNext;
    if i < n { FirstErrorStays(policyOk, s, offerId, specs, i, n - 1); }
  }

  // ----- What a turn does

  /** Every stored port has a policy and a window. */
  ghost predicate Complete(s: Store) { s.exposePolicies.Keys == s.ports.Keys && s.portNbc.Keys == s.ports.Keys }

  /** What exposePort changes, whatever comes of it. */
  ghost predicate ExposeEffect(s: Store, input: ExposeInput, t: Store, r: Result<Port, Code>) {
    && t.binds == s.binds && t.offers == s.offers
    && t.exposes == s.exposes + (if r.Ok? then [Edge(input.offerId, r.value.id)] else [])
    && (NormalizeMaxBindings(input.maxBindings).Some? && Complete(s) ==> Complete(t))
  }

  lemma AddPortEffects(s: Store, input: ExposeInput, port: Port)
    requires port.id !in s.ports
    ensures ExposeEffect(s, input, AddPort(s, input, port).0, AddPort(s, input, port).1)
  {
  }

  lemma ExposePortEffects(policyOk: Json -> bool, s: Store, input: ExposeInput)
    requires forall id :: id in s.ports ==> s.ports[id].id == id
    ensures ExposeEffect(s, input, ExposePort(policyOk, s, input).0, ExposePort(policyOk, s, input).1)
  {
    hide AddPort, Trim, IdOf, NormalizeMaxBindings;
    var named := Trim(input.port.id) != "";
    var id := if named then input.port.id else IdOf(s.seqNo + 1);
    var t := if named then s else s.(seqNo := s.seqNo + 1);
    if id !in t.ports { AddPortEffects(t, input, input.port.(id := id)); }
  }

  function EdgesTo(offerId: string, portIds: seq<string>): seq<Edge> {
    seq(|portIds|, i requires 0 <= i < |portIds| => Edge(offerId, portIds[i]))
  }

  /** One more port: at most one more edge, and one more id exactly when it succeeds. */
  lemma ExposeNextEffects(policyOk: Json -> bool, before: Exposing, offerId: string, spec: PortSpec)
    returns (added: seq<Edge>)
    requires Good(before.store) && before.error.None?
    ensures var x := ExposeNext(policyOk, before, offerId, spec);
      && Good(x.store) && x.store.binds == before.store.binds && x.store.offers == before.store.offers
      && x.store.exposes == before.store.exposes + added
      && EdgesTo(offerId, x.ids) == EdgesTo(offerId, before.ids) + added
      && |x.ids| == |before.ids| + (if x.error.None? then 1 else 0)
      && (Complete(before.store) && MaxBindingsOk(spec) ==> Complete(x.store))
  {
    GoodParts(before.store);
    hide ExposePort, Good, Complete, ExposeInputOf, EdgesTo, Tidy, IdsIssued;
    var input := ExposeInputOf(offerId, spec);
    MaxBindingsFit(offerId, spec);
    ExposePortEffects(policyOk, before.store, input);
    ExposeKeepsGood(policyOk, before.store, input);
    var r := ExposePort(policyOk, before.store, input).1;
    added := if r.Ok? then [Edge(offerId, r.value.id)] else [];
    if r.Ok? { EdgesAppend(offerId, before.ids, r.value.id); }
  }

  lemma {:induction false} ExposeAllEffects(policyOk: Json -> bool, s: Store, offerId: string, specs: seq<PortSpec>,
                                            n: nat)
    requires Good(s) && n <= |specs|
    ensures var x := ExposeAll(policyOk, s, offerId, specs, n);
      && Good(x.store) && x.store.binds == s.binds && x.store.offers == s.offers
      && x.store.exposes == s.exposes + EdgesTo(offerId, x.ids)
      && (x.error.None? ==> |x.ids| == n)
      && (Complete(s) && (forall i :: 0 <= i < n ==> MaxBindingsOk(specs[i])) ==> Complete(x.store))
  {
    hide ExposeNext, Good, Complete, EdgesTo;
    if n == 0 {
      EdgesAppend(offerId, [], "");
    } else {
      ExposeAllEffects(policyOk, s, offerId, specs, n - 1);
      var before := ExposeAll(policyOk, s, offerId, specs, n - 1);
      if before.error.None? {
        var added := ExposeNextEffects(policyOk, before, offerId, specs[n - 1]);
        assert s.exposes + EdgesTo(offerId, before.ids) + added == s.exposes + (EdgesTo(offerId, before.ids) + added);
      }
    }
  }

  lemma EdgesAppend(offerId: string, ids: seq<string>, id: string)
    ensures EdgesTo(offerId, []) == [] && EdgesTo(offerId, ids + [id]) == EdgesTo(offerId, ids) + [Edge(offerId, id)]
  {
  }

  lemma MaxBindingsFit(offerId: string, spec: PortSpec)
    ensures ExposeInputOf(offerId, spec).offerId == offerId
    ensures MaxBindingsOk(spec) ==> NormalizeMaxBindings(ExposeInputOf(offerId, spec).maxBindings).Some?
  {
  }

  /** A successful turn adds one fresh offer, one edge per listed port and one bind exactly when it
      names a port to bind; a failing one adds no bind, but leaves its offer behind. */
  lemma TurnEffects(policyOk: Json -> bool, validator: Validator, s: Store, partyId: string, body: TurnBody,
                    timing: Timing)
    requires Good(s)
    ensures var (t, r) := ApplyTurn(policyOk, validator, s, partyId, body, timing);
      && Good(t)
      && IdOf(s.seqNo + 1) !in s.offers && t.offers.Keys == s.offers.Keys + {IdOf(s.seqNo + 1)}
      && (r.Err? ==> t.binds == s.binds)
      && (r.Ok? ==>
            && r.value.offerId !in s.offers
            && t.offers == s.offers[r.value.offerId := r.value.offer]
            && |r.value.exposedPortIds| == |body.ports|
            && t.exposes == s.exposes + EdgesTo(r.value.offerId, r.value.exposedPortIds)
            && |t.binds| == |s.binds| + (if body.bindPortId == "" then 0 else 1)
            && t.binds[..|s.binds|] == s.binds
            && (body.bindPortId != "" ==>
                  t.binds[|s.binds|].offerId == r.value.offerId && t.binds[|s.binds|].portId == body.bindPortId))
  {
    hide Good, ExtendOffer, ExposeAll, BindPort, BindPayloadFor;
    ExtendEffects(s, partyId, body);
    var (extended, e) := ExtendOffer(s, ExtendInputOf(partyId, body));
    ExposeAllEffects(policyOk, extended, e.value.id, body.ports, |body.ports|);
    var x := ExposeAll(policyOk, extended, e.value.id, body.ports, |body.ports|);
    if x.error.None? && body.bindPortId != "" {
      var payload := BindPayloadFor(x.store, x.local, body, validator);
      if payload.Ok? { BindEffects(x.store, BindInput(e.value.id, body.bindPortId, payload.value), timing); }
    }
  }

  /** The offer of a turn never binds by itself, so extending it cannot fail. */
  lemma ExtendEffects(s: Store, partyId: string, body: TurnBody)
    requires Good(s)
    ensures var (t, r) := ExtendOffer(s, ExtendInputOf(partyId, body));
      && Good(t) && r.Ok? && t.binds == s.binds && t.exposes == s.exposes
      && r.value.id == IdOf(s.seqNo + 1) && r.value.id !in s.offers && t.offers == s.offers[r.value.id := r.value]
      && (Complete(s) ==> Complete(t))
  {
    hide Good;
    ExtendKeepsGood(s, ExtendInputOf(partyId, body));
    GoodParts(s);
    NextIdIsFresh(s);
  }

  lemma GoodParts(s: Store)
    requires Good(s)
    ensures IdsIssued(s) && Tidy(s)
  {
  }

  lemma BindEffects(s: Store, input: BindInput, timing: Timing)
    requires Good(s)
    ensures var (t, r) := BindPort(s, input, Some(timing));
      && Good(t) && t == s.(binds := t.binds)
      && t.binds == s.binds + (if r.Ok? then [Bind(input.offerId, input.portId, input.payload)] else [])
  {
    BindKeepsGood(s, input, Some(timing));
    hide Good, Admission;
  }

  /** Turns read by the parser leave every stored port with a policy and a window. */
  lemma TurnKeepsComplete(policyOk: Json -> bool, validator: Validator, s: Store, partyId: string, body: TurnBody,
                    timing: Timing)
    requires Good(s) && Complete(s) && forall i :: 0 <= i < |body.ports| ==> MaxBindingsOk(body.ports[i])
    ensures Complete(ApplyTurn(policyOk, validator, s, partyId, body, timing).0)
  {
    hide Good, ExtendOffer, ExposeAll, BindPort, BindPayloadFor;
    ExtendEffects(s, partyId, body);
    var (extended, e) := ExtendOffer(s, ExtendInputOf(partyId, body));
    ExposeAllEffects(policyOk, extended, e.value.id, body.ports, |body.ports|);
    var x := ExposeAll(policyOk, extended, e.value.id, body.ports, |body.ports|);
    if x.error.None? && body.bindPortId != "" {
      var payload := BindPayloadFor(x.store, x.local, body, validator);
      if payload.Ok? { BindEffects(x.store, BindInput(e.value.id, body.bindPortId, payload.value), timing); }
    }
  }

  /** The last active policy declared for each port id. */
  function LocalPolicies(ports: seq<PortSpec>): map<string, Json> {
    if |ports| == 0 then map[]
    else
      var before := LocalPolicies(ports[..|ports| - 1]);
      var spec := ports[|ports| - 1];
      if IsActivePolicy(spec.bindPolicy) then before[spec.id := spec.bindPolicy] else before
  }

  method LocalBindPoliciesFromTurnPorts(ports: seq<PortSpec>) returns (local: map<string, Json>)
    ensures local == LocalPolicies(ports)
  {
    local := map[];
    for i := 0 to |ports|
      invariant local == LocalPolicies(ports[..i])
    {
      assert ports[..i + 1][..i] == ports[..i];
      if IsActivePolicy(ports[i].bindPolicy) { local := local[ports[i].id := ports[i].bindPolicy]; }
    }
    assert ports[..|ports|] == ports;
  }

  /** Sender-side check of a turn's bind against the store as it is before the turn. */
  function OutboundError(s: Store, body: TurnBody, validator: Validator): Option<Code> {
    if body.bindPortId == "" then None
    else match BindPayloadFor(s, LocalPolicies(body.ports), body, validator)
      case Ok(_) => None
      case Err(code) => Some(code)
  }

  method ValidateOutboundNbcTurnBind(client: InMemoryStrategy, body: TurnBody, validator: Validator)
    returns (error: Option<Code>)
    ensures error == OutboundError(client.Model(), body, validator)
  {
    if body.bindPortId == "" { return None; }
    var local := LocalBindPoliciesFromTurnPorts(body.ports);
    var policy := BindPolicyFor(client.Model(), local, body.bindPortId);
    if policy.Err? { return Some(policy.error); }
    var payload := NormalizePayload(policy.value, body.bindPayload, validator);
    if payload.Err? { return Some(payload.error); }
    return None;
  }

  // ----- Stores driven by turns alone

  /** A turn as it arrives: who sent it, the body still to be parsed, and the timing. */
  datatype Turn = Turn(partyId: string, body: Json, timing: Timing)

  /** Parses and applies one turn; a body the parser refuses changes nothing. */
  function TakeTurn(policyOk: Json -> bool, validator: Validator, s: Store, turn: Turn): Store {
    match ParseBody(turn.body)
    case Ok(body) => ApplyTurn(policyOk, validator, s, turn.partyId, body, turn.timing).0
    case Err(_) => s
  }

  function TakeTurns(policyOk: Json -> bool, validator: Validator, turns: seq<Turn>): Store {
    if |turns| == 0 then EMPTY_STORE
    else TakeTurn(policyOk, validator, TakeTurns(policyOk, validator, turns[..|turns| - 1]), turns[|turns| - 1])
  }

  /** In every store reached by parsed turns, accepted or rejected, every port has its policy and window. */
  lemma {:induction false} TurnsKeepComplete(policyOk: Json -> bool, validator: Validator, turns: seq<Turn>)
    ensures Good(TakeTurns(policyOk, validator, turns)) && Complete(TakeTurns(policyOk, validator, turns))
  {
    if |turns| == 0 {
      EmptyIsGood();
    } else {
      hide ApplyTurn, Good, Complete;
      var s := TakeTurns(policyOk, validator, turns[..|turns| - 1]);
      var turn := turns[|turns| - 1];
      TurnsKeepComplete(policyOk, validator, turns[..|turns| - 1]);
      var body := ParseBody(turn.body);
      if body.Ok? {
        TurnEffects(policyOk, validator, s, turn.partyId, body.value, turn.timing);
        TurnKeepsComplete(policyOk, validator, s, turn.partyId, body.value, turn.timing);
      }
    }
  }
}
