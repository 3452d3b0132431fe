/** When a bind is let through, by the stored fields alone: exactly when both windows are open, the port is
    exposed, its refs lead to a canonical port with room left, and the pair is not bound yet. */
module BindRules {
  import opened Text
  import opened CanonicalJson
  import opened PortRefs
  import opened NbcStore
  import opened StoreSafety

  // ----- Windows

  /** Past its last turn, or its last moment; with a last moment and no clock it counts as past. */
  predicate Shut(w: Window, t: Timing) {
    || (w.expiresTurn != 0 && t.turnSeq >= w.expiresTurn)
    || (w.expiresAtMs != 0 && (t.effectiveNowMs.None? || t.effectiveNowMs.value >= w.expiresAtMs as real))
  }

  lemma OpenIsNotShut(w: Window, t: Timing)
    ensures WindowOpen(w, t) <==> !Shut(w, t)
  {
  }

  // ----- Capacity

  /** The binds, by their places, whose port's refs lead to the canonical port. */
  ghost function BoundTo(ports: Ports, binds: seq<BindRow>, c: string): set<nat> {
    set i: nat | i < |binds| && ReachesCanonical(ports, binds[i].portId, c)
  }

  lemma {:induction false} TallyIsCount(ports: Ports, binds: seq<BindRow>, c: string)
    ensures |BoundTo(ports, binds, c)| == Tally(binds, ports, c)
  {
    hide ReachesCanonical, Resolve;
    if |binds| > 0 {
      var n := |binds| - 1;
      var front := BoundTo(ports, binds[..n], c);
      TallyIsCount(ports, binds[..n], c);
      ResolutionExact(ports, binds[n].portId, c);
      assert forall i: nat :: i < n ==> binds[..n][i] == binds[i];
      if ReachesCanonical(ports, binds[n].portId, c) {
        assert BoundTo(ports, binds, c) == front + {n};
      } else {
        assert BoundTo(ports, binds, c) == front;
      }
    }
  }

  ghost predicate HasPlace(s: Store, c: string) {
    c in s.exposePolicies && |BoundTo(s.ports, s.binds, c)| < s.exposePolicies[c].maxBindings
  }

  /** The port's refs lead to a canonical port that has a policy and room left. */
  ghost predicate HasCapacity(s: Store, portId: string) {
    exists c :: ReachesCanonical(s.ports, portId, c) && HasPlace(s, c)
  }

  lemma CapacityExactly(s: Store, portId: string)
    ensures CapacityError(s, portId) == None <==> HasCapacity(s, portId)
  {
    hide ReachesCanonical, BoundTo;
    var r := Resolve(s.ports, portId);
    forall c ensures ReachesCanonical(s.ports, portId, c) <==> r.Canonical? && r.id == c {
      ResolutionExact(s.ports, portId, c);
    }
    hide Resolve;
    if r.Canonical? {
      TallyIsCount(s.ports, s.binds, r.id);
      assert HasCapacity(s, portId) <==> HasPlace(s, r.id);
    }
  }

  // ----- Admission

  /** Both are stored with open windows, the port is on some edge, and there is capacity for it. */
  ghost predicate Admissible(s: Store, offerId: string, portId: string, t: Timing) {
    && offerId in s.offerNbc && !Shut(s.offerNbc[offerId], t)
    && portId in s.ports && portId in s.portNbc && !Shut(s.portNbc[portId], t)
    && (exists i :: 0 <= i < |s.exposes| && s.exposes[i].portId == portId)
    && HasCapacity(s, portId)
  }

  /** What keeps a bind out first, when it is a window. */
  lemma ExpiredExactly(s: Store, offerId: string, portId: string, t: Timing)
    ensures Admission(s, offerId, portId, t) == Some(Expired(OfferEntity)) <==>
      offerId in s.offerNbc && portId in s.ports && portId in s.portNbc && Shut(s.offerNbc[offerId], t)
    ensures Admission(s, offerId, portId, t) == Some(Expired(PortEntity)) <==>
      && offerId in s.offerNbc && portId in s.ports && portId in s.portNbc
      && !Shut(s.offerNbc[offerId], t) && Shut(s.portNbc[portId], t)
  {
    hide Resolve, Tally;
  }

  lemma StoredResolves(s: Store, portId: string)
    requires Good(s) && portId in s.ports
    ensures s.ports[portId].id == portId && Resolve(s.ports, portId).Canonical?
    ensures Resolve(s.ports, portId).id in s.ports
  {
    CanonicalIsStored(s.ports, portId);
  }

  /** A bind is admitted exactly when it is admissible. */
  lemma AdmittedExactly(s: Store, offerId: string, portId: string, t: Timing)
    requires Good(s)
    ensures Admission(s, offerId, portId, t) == None <==> Admissible(s, offerId, portId, t)
  {
    CapacityExactly(s, portId);
    if portId in s.ports { StoredResolves(s, portId); }
    if offerId in s.offerNbc { OpenIsNotShut(s.offerNbc[offerId], t); }
    if portId in s.portNbc { OpenIsNotShut(s.portNbc[portId], t); }
    assert IsExposed(s, portId) <==> exists i :: 0 <= i < |s.exposes| && s.exposes[i].portId == portId;
    hide Tally, HasCapacity, Good, Resolve, Shut, WindowOpen, IsExposed;
  }

  /** A bind of an offer to a port is appended exactly when no such bind is there yet and, with a timing, it is
      admissible, without one, there is capacity; a refused one changes nothing. */
  lemma BindExactly(s: Store, input: BindInput, timing: Option<Timing>)
    requires Good(s)
    ensures var (t, r) := BindPort(s, input, timing);
      && (r.Ok? <==>
            && (forall i :: 0 <= i < |s.binds| ==>
                  s.binds[i].offerId != input.offerId || s.binds[i].portId != input.portId)
            && match timing
               case Some(at) => Admissible(s, input.offerId, input.portId, at)
               case None => HasCapacity(s, input.portId))
      && t == if r.Ok? then s.(binds := s.binds + [Bind(input.offerId, input.portId, input.payload)]) else s
  {
    hide Admission, CapacityError, Admissible, HasCapacity, Good;
    match timing
    case Some(at) => AdmittedExactly(s, input.offerId, input.portId, at);
    case None => CapacityExactly(s, input.portId);
  }

  // ----- What exposing needs

  /** The ref is blank, or names a stored port. */
  ghost predicate RefOk(s: Store, ref: string) {
    exists target :: IsCore(ref, target) && (target == "" || target in s.ports)
  }

  lemma AddPortExactly(s: Store, input: ExposeInput, port: Port)
    requires Good(s) && port.id !in s.ports
    ensures AddPort(s, input, port).1.Ok? <==> RefOk(s, port.ref) && NormalizeMaxBindings(input.maxBindings).Some?
  {
    var target := Trim(port.ref);
    TrimIsCore(port.ref, target);
    assert RefOk(s, port.ref) <==> target == "" || target in s.ports by {
      forall other ensures IsCore(port.ref, other) <==> other == target { TrimIsCore(port.ref, other); }
    }
    hide IsCore, Trim, RefOk, NormalizeMaxBindings;
    NewPortResolves(s.ports, port, target);
    hide Good, Resolve;
  }

  /** The limit is left out or at least one. */
  predicate LimitOk(max: MaxArg) { max == Omitted || (max.Integer? && max.n >= 1) }

  lemma SameRefs(s: Store, t: Store, ref: string)
    requires s.ports == t.ports
    ensures RefOk(s, ref) <==> RefOk(t, ref)
  {
  }

  /** A port is exposed exactly when its offer is stored and its id, or the counter's next one if that is blank, is
      stored already, or else the host takes its policy, its limit is sound and its ref is blank or stored. */
  lemma ExposeExactly(policyOk: Json -> bool, s: Store, input: ExposeInput, id: string)
    requires Good(s) && id == if IsCore(input.port.id, "") then IdOf(s.seqNo + 1) else input.port.id
    ensures ExposePort(policyOk, s, input).1.Ok? <==>
      && input.offerId in s.offers
      && (id in s.ports || (policyOk(input.bindPolicy) && LimitOk(input.maxBindings) && RefOk(s, input.port.ref)))
  {
    TrimIsCore(input.port.id, "");
    hide IsCore, Trim, RefOk, AddPort, IdOf, Good;
    var t := if Trim(input.port.id) != "" then s else s.(seqNo := s.seqNo + 1);
    UnreadFields(s, t);
    assert RefOk(t, input.port.ref) <==> RefOk(s, input.port.ref) by { SameRefs(s, t, input.port.ref); }
    if id !in s.ports { AddPortExactly(t, input, input.port.(id := id)); }
  }

  // ----- What extending and expiring do

  lemma ExtendStoresOffer(s: Store, input: ExtendInput)
    ensures var t := ExtendOffer(s, input).0; var id := IdOf(s.seqNo + 1);
      && t.offers == s.offers[id := Offer(id, input.kind)]
      && t.offerNbc == s.offerNbc[id := input.window] && t.extenders == s.extenders[id := input.partyId]
      && t.ports == s.ports && t.portNbc == s.portNbc && t.exposes == s.exposes
  {
    ExtendShape(s, input);
    hide ExtendOffer;
  }

  lemma ExtendBinds(s: Store, input: ExtendInput, target: string)
    requires target == Trim(input.bindPortId)
    ensures var (t, r) := ExtendOffer(s, input); var id := IdOf(s.seqNo + 1);
      && (r.Ok? <==> target == "" || (CapacityError(s, target) == None && !HasBind(s, id, target)))
      && t.binds == if r.Ok? && target != "" then s.binds + [Bind(id, target, input.bindPayload)] else s.binds
  {
    hide Trim, IdOf, Resolve, Tally;
  }

  /** An extended offer is stored under the next id with its kind, window and party, whatever becomes of the bind
      it asks for; that bind, to the port named between the white space, is appended exactly when there is
      capacity and no such bind yet. */
  lemma ExtendExactly(s: Store, input: ExtendInput, target: string)
    requires Good(s) && IsCore(input.bindPortId, target)
    ensures var (t, r) := ExtendOffer(s, input); var id := IdOf(s.seqNo + 1);
      && id !in s.offers && t.offers == s.offers[id := Offer(id, input.kind)]
      && t.offerNbc == s.offerNbc[id := input.window] && t.extenders == s.extenders[id := input.partyId]
      && t.ports == s.ports && t.portNbc == s.portNbc && t.exposes == s.exposes
      && (r.Ok? <==>
            target == "" ||
            (HasCapacity(s, target) && forall i :: 0 <= i < |s.binds| ==>
                                          s.binds[i].offerId != id || s.binds[i].portId != target))
      && t.binds == if r.Ok? && target != "" then s.binds + [Bind(id, target, input.bindPayload)] else s.binds
  {
    NextIdIsFresh(s);
    TrimIsCore(input.bindPortId, target);
    CapacityExactly(s, target);
    hide Good, HasCapacity, Trim, IsCore, IdOf, ExtendOffer, CapacityError;
    ExtendStoresOffer(s, input);
    ExtendBinds(s, input, target);
  }

  /** The port stands on one of the offer's edges. */
  predicate OnEdge(s: Store, offerId: string, portId: string) {
    exists i :: 0 <= i < |s.exposes| && s.exposes[i] == Edge(offerId, portId)
  }

  lemma {:induction false} EdgesTouched(s: Store, offerId: string, n: nat, id: string)
    requires n <= |s.exposes| && !(id in s.ports && OnEdge(s, offerId, id))
    ensures var w := ExpireEdges(s, offerId, n); (id in w <==> id in s.portNbc) && (id in w ==> w[id] == s.portNbc[id])
  {
    if n > 0 {
      EdgesTouched(s, offerId, n - 1, id);
      assert s.exposes[n - 1] == Edge(offerId, id) ==> OnEdge(s, offerId, id);
    }
  }

  lemma PortExpiryTouches(s: Store, id: string, other: string)
    ensures var t := SetPortExpired(s, id);
      && t == s.(portNbc := t.portNbc)
      && (other != id ==> (other in t.portNbc <==> other in s.portNbc))
      && (other != id && other in s.portNbc ==> t.portNbc[other] == s.portNbc[other])
  {
  }

  lemma OfferExpiryTouches(s: Store, id: string, other: string)
    ensures var t := SetOfferExpired(s, id);
      && t == s.(portNbc := t.portNbc, offerNbc := t.offerNbc)
      && (other != id && other in s.offerNbc ==> other in t.offerNbc && t.offerNbc[other] == s.offerNbc[other])
      && (!(other in s.ports && OnEdge(s, id, other)) ==>
            && (other in t.portNbc <==> other in s.portNbc)
            && (other in s.portNbc ==> t.portNbc[other] == s.portNbc[other]))
  {
    hide ExpireEdges;
    var t := if id in s.offers then s.(offerNbc := s.offerNbc[id := EXPIRED_WINDOW]) else s;
    assert OnEdge(t, id, other) <==> OnEdge(s, id, other);
    hide OnEdge;
    if !(other in s.ports && OnEdge(s, id, other)) { EdgesTouched(t, id, |t.exposes|, other); }
  }

  /** Expiring a port changes that port's window alone; expiring an offer changes its own and those of the
      stored ports on its edges, and nothing else. */
  lemma ExpiryTouchesNoOther(s: Store, id: string, other: string)
    ensures var t := SetPortExpired(s, id);
      && t == s.(portNbc := t.portNbc)
      && (other != id ==> (other in t.portNbc <==> other in s.portNbc))
      && (other != id && other in s.portNbc ==> t.portNbc[other] == s.portNbc[other])
    ensures var t := SetOfferExpired(s, id);
      && t == s.(portNbc := t.portNbc, offerNbc := t.offerNbc)
      && (other != id && other in s.offerNbc ==> other in t.offerNbc && t.offerNbc[other] == s.offerNbc[other])
      && (!(other in s.ports && OnEdge(s, id, other)) ==>
            && (other in t.portNbc <==> other in s.portNbc)
            && (other in s.portNbc ==> t.portNbc[other] == s.portNbc[other]))
  {
    hide SetPortExpired, SetOfferExpired, OnEdge;
    PortExpiryTouches(s, id, other);
    OfferExpiryTouches(s, id, other);
  }
}
