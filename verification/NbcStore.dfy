/** The in-memory graph store: offers, exposed ports, bind windows and policies, and binds. */
module NbcStore {
  import opened Text
  import opened CanonicalJson
  import opened PortRefs

  datatype Code = VALIDATION | NOT_FOUND | REF_MISSING | REF_CYCLE | MAX_BINDINGS | EXPIRED | NOT_EXPOSED

  datatype Offer = Offer(id: string, kind: string)

  datatype Window = Window(expiresTurn: int, expiresAtMs: int)

  datatype Policy = Policy(maxBindings: int, terminal: bool)

  datatype Edge = Edge(offerId: string, portId: string)

  type BindRow = Bind<Json>

  datatype Store = Store(
    parties: map<string, string>,
    offers: map<string, Offer>,
    ports: Ports,
    offerNbc: map<string, Window>,
    portNbc: map<string, Window>,
    extenders: map<string, string>,
    exposes: seq<Edge>,
    bindPolicies: map<string, Json>,
    exposePolicies: map<string, Policy>,
    binds: seq<BindRow>,
    seqNo: nat)

  const EMPTY_STORE := Store(map[], map[], map[], map[], map[], map[], [], map[], map[], [], 0)

  function IdOf(n: nat): string { "id-" + Decimal(n) }

  // ----- Admission

  /** When a bind is attempted: frames already on the chain, and the conservative clock if known. */
  datatype Timing = Timing(turnSeq: int, effectiveNowMs: Option<real>)

  datatype Entity = OfferEntity | PortEntity

  datatype BindFailure =
    | Expired(entity: Entity)
    | NotExposed
    | RefCycle(path: seq<string>)
    | RefMissing(missingId: string)
    | MaxBindingsExceeded(canonicalPortId: string, maxBindings: int)

  predicate TurnExpiryOk(expiresTurn: int, turnSeq: int) { expiresTurn == 0 || turnSeq < expiresTurn }

  predicate EpochExpiryOk(expiresAtMs: int, now: Option<real>) {
    expiresAtMs == 0 || (now.Some? && now.value < expiresAtMs as real)
  }

  predicate WindowOpen(w: Window, t: Timing) {
    TurnExpiryOk(w.expiresTurn, t.turnSeq) && EpochExpiryOk(w.expiresAtMs, t.effectiveNowMs)
  }

  predicate IsExposed(s: Store, portId: string) { exists i :: 0 <= i < |s.exposes| && s.exposes[i].portId == portId }

  /** checkNbcBindAdmission against the store as it is. */
  function Admission(s: Store, offerId: string, portId: string, t: Timing): Option<BindFailure> {
    if offerId !in s.offerNbc then Some(RefMissing(offerId))
    else if portId !in s.ports || portId !in s.portNbc then Some(RefMissing(portId))
    else if !WindowOpen(s.offerNbc[offerId], t) then Some(Expired(OfferEntity))
    else if !WindowOpen(s.portNbc[portId], t) then Some(Expired(PortEntity))
    else if !IsExposed(s, portId) then Some(NotExposed)
    else match Resolve(s.ports, s.ports[portId].id)
      case Cycle(path) => Some(RefCycle(path))
      case Missing(id, _) => Some(RefMissing(id))
      case Canonical(c, _) =>
        if c !in s.ports || c !in s.exposePolicies then Some(RefMissing(c))
        else if Tally(s.binds, s.ports, c) >= s.exposePolicies[c].maxBindings
        then Some(MaxBindingsExceeded(c, s.exposePolicies[c].maxBindings))
        else None
  }

  function CodeOf(f: BindFailure): Code {
    match f
    case Expired(_) => EXPIRED
    case NotExposed => NOT_EXPOSED
    case RefCycle(_) => REF_CYCLE
    case RefMissing(_) => REF_MISSING
    case MaxBindingsExceeded(_, _) => MAX_BINDINGS
  }

  /** assertCanonicalBindCapacity. */
  function CapacityError(s: Store, target: string): Option<Code> {
    match Resolve(s.ports, target)
    case Cycle(_) => Some(REF_CYCLE)
    case Missing(_, _) => Some(REF_MISSING)
    case Canonical(c, _) =>
      if c !in s.exposePolicies then Some(NOT_FOUND)
      else if Tally(s.binds, s.ports, c) >= s.exposePolicies[c].maxBindings then Some(MAX_BINDINGS)
      else None
  }

  predicate HasBind(s: Store, offerId: string, portId: string) {
    exists i :: 0 <= i < |s.binds| && s.binds[i].offerId == offerId && s.binds[i].portId == portId
  }

  // ----- The operations, failures included

  datatype ExtendInput = ExtendInput(
    partyId: string, kind: string, window: Window, bindPortId: string, bindPayload: Json)

  /** `max_bindings` as given by the caller of exposePort. */
  datatype MaxArg = Omitted | Integer(n: int) | NotAnInteger

  datatype ExposeInput = ExposeInput(
    offerId: string, port: Port, window: Window, bindPolicy: Json, maxBindings: MaxArg, terminal: bool)

  datatype BindInput = BindInput(offerId: string, portId: string, payload: Json)

  const DEFAULT_MAX_BINDINGS: int := 1

  function NormalizeMaxBindings(a: MaxArg): (r: Option<int>)
    ensures r.Some? ==> r.value >= 1
  {
    match a
    case Omitted => Some(DEFAULT_MAX_BINDINGS)
    case Integer(n) => if n < 1 then None else Some(n)
    case NotAnInteger => None
  }

  /** The offer is stored before the optional bind is checked, and stays when that fails. */
  function ExtendOffer(s: Store, input: ExtendInput): (Store, Result<Offer, Code>) {
    var id := IdOf(s.seqNo + 1);
    var offer := Offer(id, input.kind);
    var stored := s.(seqNo := s.seqNo + 1, offers := s.offers[id := offer],
                     extenders := s.extenders[id := input.partyId], offerNbc := s.offerNbc[id := input.window]);
    var target := Trim(input.bindPortId);
    if target == "" then (stored, Ok(offer))
    else match CapacityError(stored, target)
      case Some(code) => (stored, Err(code))
      case None =>
        if HasBind(stored, id, target) then (stored, Err(VALIDATION))
        else (stored.(binds := stored.binds + [Bind(id, target, input.bindPayload)]), Ok(offer))
  }

  /** Exposing a stored port again adds an edge only. A new port is stored before its max_bindings
      is checked, so a bad one leaves it without policy, edge and window. */
  function ExposePort(policyOk: Json -> bool, s: Store, input: ExposeInput): (Store, Result<Port, Code>) {
    if input.offerId !in s.offers then (s, Err(NOT_FOUND))
    else
      var named := Trim(input.port.id) != "";
      var id := if named then input.port.id else IdOf(s.seqNo + 1);
      var s := if named then s else s.(seqNo := s.seqNo + 1);
      if id in s.ports then (s.(exposes := s.exposes + [Edge(input.offerId, id)]), Ok(s.ports[id]))
      else if !policyOk(input.bindPolicy) then (s, Err(VALIDATION))
      else AddPort(s, input, input.port.(id := id))
  }

  function AddPort(s: Store, input: ExposeInput, port: Port): (Store, Result<Port, Code>) {
    var grown := s.ports[port.id := port];
    var ref := Trim(port.ref);
    if ref != "" && ref !in grown then (s, Err(REF_MISSING))
    else match Resolve(grown, port.id)
      case Cycle(_) => (s, Err(REF_CYCLE))
      case Missing(_, _) => (s, Err(REF_MISSING))
      case Canonical(_, _) =>
        var stored := s.(ports := grown, bindPolicies := s.bindPolicies[port.id := input.bindPolicy]);
        match NormalizeMaxBindings(input.maxBindings)
        case None => (stored, Err(VALIDATION))
        case Some(max) =>
          (stored.(exposePolicies := stored.exposePolicies[port.id := Policy(max, input.terminal)],
                   exposes := stored.exposes + [Edge(input.offerId, port.id)],
                   portNbc := stored.portNbc[port.id := input.window]), Ok(port))
  }

  /** With a timing the NBC admission check decides, without one the capacity check alone. */
  function BindPort(s: Store, input: BindInput, timing: Option<Timing>): (Store, Result<(), Code>) {
    if HasBind(s, input.offerId, input.portId) then (s, Err(VALIDATION))
    else
      var refused := match timing
        case Some(t) =>
          (match Admission(s, input.offerId, input.portId, t) case Some(f) => Some(CodeOf(f)) case None => None)
        case None => CapacityError(s, input.portId);
      match refused
      case Some(code) => (s, Err(code))
      case None => (s.(binds := s.binds + [Bind(input.offerId, input.portId, input.payload)]), Ok(()))
  }

  const EXPIRED_WINDOW := Window(0, 1)

  function SetPortExpired(s: Store, portId: string): Store {
    if portId in s.ports then s.(portNbc := s.portNbc[portId := EXPIRED_WINDOW]) else s
  }

  /** Expires the offer and every stored port on one of its edges. */
  function SetOfferExpired(s: Store, offerId: string): Store {
    var s := if offerId in s.offers then s.(offerNbc := s.offerNbc[offerId := EXPIRED_WINDOW]) else s;
    s.(portNbc := ExpireEdges(s, offerId, |s.exposes|))
  }

  function ExpireEdges(s: Store, offerId: string, n: nat): map<string, Window>
    requires n <= |s.exposes|
  {
    if n == 0 then s.portNbc
    else
      var before := ExpireEdges(s, offerId, n - 1);
      var e := s.exposes[n - 1];
      if e.offerId == offerId && e.portId in s.ports then before[e.portId := EXPIRED_WINDOW] else before
  }

  function RegisterParty(s: Store, id: string, name: string): (Store, string) {
    var named := Trim(id) != "";
    var pid := if named then id else IdOf(s.seqNo + 1);
    (s.(seqNo := if named then s.seqNo else s.seqNo + 1,
        parties := if pid in s.parties then s.parties else s.parties[pid := name]), pid)
  }

  // ----- The strategy as it is written: fields updated one after another

  class InMemoryStrategy {
    const policyOk: Json -> bool
    var parties: map<string, string>
    var offers: map<string, Offer>
    var ports: Ports
    var offerNbc: map<string, Window>
    var portNbc: map<string, Window>
    var extenders: map<string, string>
    var exposes: seq<Edge>
    var bindPolicies: map<string, Json>
    var exposePolicies: map<string, Policy>
    var binds: seq<BindRow>
    var seqNo: nat

    function Model(): Store
      reads this
    {
      Store(parties, offers, ports, offerNbc, portNbc, extenders, exposes, bindPolicies, exposePolicies, binds, seqNo)
    }

    constructor (policyOk: Json -> bool)
      ensures Model() == EMPTY_STORE && this.policyOk == policyOk
    {
      this.policyOk := policyOk;
      parties, offers, ports, offerNbc, portNbc, extenders := map[], map[], map[], map[], map[], map[];
      exposes, bindPolicies, exposePolicies, binds, seqNo := [], map[], map[], [], 0;
    }

    method NextId() returns (id: string)
      modifies this`seqNo
      ensures seqNo == old(seqNo) + 1 && id == IdOf(seqNo)
    {
      seqNo := seqNo + 1;
      id := IdOf(seqNo);
    }

    method RegisterPartyNamed(id: string, name: string) returns (pid: string)
      modifies this
      ensures (Model(), pid) == RegisterParty(old(Model()), id, name)
    {
      if Trim(id) != "" { pid := id; } else { pid := NextId(); }
      if pid !in parties { parties := parties[pid := name]; }
    }

    method FindBind(offerId: string, portId: string) returns (found: bool)
      ensures found == HasBind(Model(), offerId, portId)
    {
      for i := 0 to |binds|
        invariant forall j :: 0 <= j < i ==> !(binds[j].offerId == offerId && binds[j].portId == portId)
      {
        if binds[i].offerId == offerId && binds[i].portId == portId { return true; }
      }
      return false;
    }

    method CheckCapacity(target: string) returns (error: Option<Code>)
      ensures error == CapacityError(Model(), target)
    {
      var resolved := ResolveCanonicalPortId(ports, target);
      match resolved {
        case Cycle(_) => return Some(REF_CYCLE);
        case Missing(_, _) => return Some(REF_MISSING);
        case Canonical(c, _) =>
          if c !in exposePolicies { return Some(NOT_FOUND); }
          var count := CountBindsForCanonicalPort(binds, ports, c);
          if count >= exposePolicies[c].maxBindings { return Some(MAX_BINDINGS); }
          return None;
      }
    }

    method Extend(input: ExtendInput) returns (r: Result<Offer, Code>)
      modifies this
      ensures (Model(), r) == ExtendOffer(old(Model()), input)
    {
      var id := NextId();
      var offer := Offer(id, input.kind);
      offers := offers[id := offer];
      extenders := extenders[id := input.partyId];
      offerNbc := offerNbc[id := input.window];
      var bindPortId := Trim(input.bindPortId);
      if bindPortId != "" {
        var error := CheckCapacity(bindPortId);
        if error.Some? { return Err(error.value); }
        var duplicate := FindBind(id, bindPortId);
        if duplicate { return Err(VALIDATION); }
        binds := binds + [Bind(id, bindPortId, input.bindPayload)];
      }
      return Ok(offer);
    }

    method Expose(input: ExposeInput) returns (r: Result<Port, Code>)
      modifies this
      ensures (Model(), r) == ExposePort(policyOk, old(Model()), input)
    {
      hide AddPort, Trim, IdOf;
      if input.offerId !in offers { return Err(NOT_FOUND); }
      var portId := input.port.id;
      if Trim(portId) == "" { portId := NextId(); }
      var port := input.port.(id := portId);
      if portId in ports {
        exposes := exposes + [Edge(input.offerId, portId)];
        return Ok(ports[portId]);
      }
      if !policyOk(input.bindPolicy) { return Err(VALIDATION); }
      r := StorePort(input, port);
    }

    /** The second half of exposePort, for a port that is not stored yet. */
    method StorePort(input: ExposeInput, port: Port) returns (r: Result<Port, Code>)
      modifies this
      ensures (Model(), r) == AddPort(old(Model()), input, port)
    {
      hide Resolve, Trim;
      var portId := port.id;
      var grown := ports[portId := port];
      var refTrim := Trim(port.ref);
      if refTrim != "" && refTrim !in grown { return Err(REF_MISSING); }
      var resolved := ResolveCanonicalPortId(grown, portId);
      if resolved.Cycle? { return Err(REF_CYCLE); }
      if resolved.Missing? { return Err(REF_MISSING); }
      ports := ports[portId := port];
      bindPolicies := bindPolicies[portId := input.bindPolicy];
      var max := NormalizeMaxBindings(input.maxBindings);
      if max.None? { return Err(VALIDATION); }
      exposePolicies := exposePolicies[portId := Policy(max.value, input.terminal)];
      exposes := exposes + [Edge(input.offerId, portId)];
      portNbc := portNbc[portId := input.window];
      return Ok(port);
    }

    method CheckAdmission(offerId: string, portId: string, t: Timing) returns (failure: Option<BindFailure>)
      ensures failure == Admission(Model(), offerId, portId, t)
    {
      if offerId !in offerNbc { return Some(RefMissing(offerId)); }
      if portId !in ports { return Some(RefMissing(portId)); }
      if portId !in portNbc { return Some(RefMissing(portId)); }
      var offerWindow, portWindow := offerNbc[offerId], portNbc[portId];
      if !TurnExpiryOk(offerWindow.expiresTurn, t.turnSeq) { return Some(Expired(OfferEntity)); }
      if !EpochExpiryOk(offerWindow.expiresAtMs, t.effectiveNowMs) { return Some(Expired(OfferEntity)); }
      if !TurnExpiryOk(portWindow.expiresTurn, t.turnSeq) { return Some(Expired(PortEntity)); }
      if !EpochExpiryOk(portWindow.expiresAtMs, t.effectiveNowMs) { return Some(Expired(PortEntity)); }
      if !IsExposed(Model(), portId) { return Some(NotExposed); }
      var resolved := ResolveCanonicalPortId(ports, ports[portId].id);
      match resolved {
        case Cycle(path) => return Some(RefCycle(path));
        case Missing(id, _) => return Some(RefMissing(id));
        case Canonical(c, _) =>
          if c !in ports { return Some(RefMissing(c)); }
          if c !in exposePolicies { return Some(RefMissing(c)); }
          var count := CountBindsForCanonicalPort(binds, ports, c);
          var max := exposePolicies[c].maxBindings;
          if count >= max { return Some(MaxBindingsExceeded(c, max)); }
          return None;
      }
    }

    method BindTo(input: BindInput, timing: Option<Timing>) returns (r: Result<(), Code>)
      modifies this
      ensures (Model(), r) == BindPort(old(Model()), input, timing)
    {
      var duplicate := FindBind(input.offerId, input.portId);
      if duplicate { return Err(VALIDATION); }
      if timing.Some? {
        var failure := CheckAdmission(input.offerId, input.portId, timing.value);
        if failure.Some? { return Err(CodeOf(failure.value)); }
      } else {
        var error := CheckCapacity(input.portId);
        if error.Some? { return Err(error.value); }
      }
      binds := binds + [Bind(input.offerId, input.portId, input.payload)];
      return Ok(());
    }

    method ExpirePortNow(portId: string)
      modifies this
      ensures Model() == SetPortExpired(old(Model()), portId)
    {
      if portId in ports { portNbc := portNbc[portId := EXPIRED_WINDOW]; }
    }

    method ExpireOfferNow(offerId: string)
      modifies this
      ensures Model() == SetOfferExpired(old(Model()), offerId)
    {
      ghost var before := Model();
      if offerId in offers { offerNbc := offerNbc[offerId := EXPIRED_WINDOW]; }
      ghost var s := Model();
      for i := 0 to |exposes|
        invariant Model() == s.(portNbc := ExpireEdges(s, offerId, i))
      {
        if exposes[i].offerId == offerId && exposes[i].portId in ports {
          portNbc := portNbc[exposes[i].portId := EXPIRED_WINDOW];
        }
      }
    }
  }
}
