/** Reading the store: which ports a party may bind now, and when a session has naturally stopped. */
module NbcSession {
  import opened Text
  import opened CanonicalJson
  import opened PortRefs
  import opened NbcStore
  import opened StoreSafety
  import opened NbcTurn
  import opened BindRules

  datatype Entry = Entry(portId: string, port: Port)

  const NO_WINDOW := Window(0, 0)

  function PortWindow(s: Store, id: string): Window { if id in s.portNbc then s.portNbc[id] else NO_WINDOW }

  function OfferWindow(s: Store, id: string): Window { if id in s.offerNbc then s.offerNbc[id] else NO_WINDOW }

  /** The edge's port and offer are stored and their windows are open. */
  predicate EdgeOpen(s: Store, e: Edge, t: Timing) {
    && IsExposed(s, e.portId) && e.portId in s.ports && WindowOpen(PortWindow(s, e.portId), t)
    && e.offerId in s.offers && WindowOpen(OfferWindow(s, e.offerId), t)
  }

  function CapacityTarget(s: Store, portId: string): string {
    var r := Resolve(s.ports, portId);
    if r.Canonical? then r.id else portId
  }

  predicate HasRoom(s: Store, portId: string) {
    var c := CapacityTarget(s, portId);
    var max := if c in s.exposePolicies then s.exposePolicies[c].maxBindings else DEFAULT_MAX_BINDINGS;
    Tally(s.binds, s.ports, c) < max
  }

  predicate ExtendedBy(s: Store, offerId: string, partyId: string) {
    offerId in s.extenders && s.extenders[offerId] != "" && s.extenders[offerId] == partyId
  }

  predicate Listed(s: Store, e: Edge, partyId: string, t: Timing) {
    ExtendedBy(s, e.offerId, partyId) && EdgeOpen(s, e, t) && HasRoom(s, e.portId)
  }

  function Bindable(s: Store, partyId: string, t: Timing, n: nat): (entries: seq<Entry>)
    requires n <= |s.exposes|
  {
    if n == 0 then []
    else
      var e := s.exposes[n - 1];
      Bindable(s, partyId, t, n - 1) +
        if Listed(s, e, partyId, t) then [Entry(e.portId, s.ports[e.portId])] else []
  }

  method GetBindablePortsForParty(client: InMemoryStrategy, partyId: string, t: Timing) returns (out: seq<Entry>)
    ensures out == Bindable(client.Model(), partyId, t, |client.exposes|)
  {
    var s := client.Model();
    out := [];
    for i := 0 to |s.exposes|
      invariant out == Bindable(s, partyId, t, i)
    {
      var e := s.exposes[i];
      if !ExtendedBy(s, e.offerId, partyId) { continue; }
      if !EdgeOpen(s, e, t) { continue; }
      var resolved := ResolveCanonicalPortId(s.ports, e.portId);
      var c := if resolved.Canonical? then resolved.id else e.portId;
      var max := if c in s.exposePolicies then s.exposePolicies[c].maxBindings else DEFAULT_MAX_BINDINGS;
      var count := CountBindsForCanonicalPort(s.binds, s.ports, c);
      if count >= max { continue; }
      out := out + [Entry(e.portId, s.ports[e.portId])];
    }
  }

  predicate Advanceable(s: Store, t: Timing) { exists i :: 0 <= i < |s.exposes| && EdgeOpen(s, s.exposes[i], t) }

  method IsSessionAdvanceable(client: InMemoryStrategy, t: Timing) returns (yes: bool)
    ensures yes == Advanceable(client.Model(), t)
  {
    var s := client.Model();
    for i := 0 to |s.exposes|
      invariant forall j :: 0 <= j < i ==> !EdgeOpen(s, s.exposes[j], t)
    {
      if EdgeOpen(s, s.exposes[i], t) { return true; }
    }
    return false;
  }

  method NbcNaturalStop(currentTurnExposedPortCount: int, client: InMemoryStrategy, t: Timing) returns (stop: bool)
    ensures stop <==> currentTurnExposedPortCount == 0 && !Advanceable(client.Model(), t)
  {
    if currentTurnExposedPortCount != 0 { return false; }
    var advanceable := IsSessionAdvanceable(client, t);
    return !advanceable;
  }

  // ----- What is listed

  /** The window stored under the id, if there is one, is open. */
  predicate NotShut(windows: map<string, Window>, id: string, t: Timing) {
    id in windows ==> !Shut(windows[id], t)
  }

  /** The edge's port and offer are stored and neither window is shut. */
  predicate Standing(s: Store, e: Edge, t: Timing) {
    && e.portId in s.ports && NotShut(s.portNbc, e.portId, t)
    && e.offerId in s.offers && NotShut(s.offerNbc, e.offerId, t)
  }

  /** The port's refs lead to a canonical port with fewer binds than its policy allows, or than one. */
  ghost predicate Room(s: Store, portId: string) {
    exists c :: ReachesCanonical(s.ports, portId, c) &&
      |BoundTo(s.ports, s.binds, c)| < if c in s.exposePolicies then s.exposePolicies[c].maxBindings else 1
  }

  /** The party extended the edge's offer, the edge stands, and there is room for its port. */
  ghost predicate OpenTo(s: Store, e: Edge, partyId: string, t: Timing) {
    && partyId != "" && e.offerId in s.extenders && s.extenders[e.offerId] == partyId
    && Standing(s, e, t) && Room(s, e.portId)
  }

  lemma EdgeOpenExactly(s: Store, i: nat, t: Timing)
    requires i < |s.exposes|
    ensures EdgeOpen(s, s.exposes[i], t) <==> Standing(s, s.exposes[i], t)
  {
    assert IsExposed(s, s.exposes[i].portId);
  }

  lemma RoomExactly(s: Store, portId: string)
    requires Good(s) && portId in s.ports
    ensures HasRoom(s, portId) <==> Room(s, portId)
  {
    hide ReachesCanonical, BoundTo;
    StoredResolves(s, portId);
    var c := Resolve(s.ports, portId).id;
    forall other ensures ReachesCanonical(s.ports, portId, other) <==> other == c {
      ResolutionExact(s.ports, portId, other);
    }
    TallyIsCount(s.ports, s.binds, c);
    hide Resolve, Tally, Good;
  }

  lemma ListedMeans(s: Store, i: nat, partyId: string, t: Timing)
    requires Good(s) && i < |s.exposes|
    ensures Listed(s, s.exposes[i], partyId, t) <==> OpenTo(s, s.exposes[i], partyId, t)
  {
    EdgeOpenExactly(s, i, t);
    if s.exposes[i].portId in s.ports { RoomExactly(s, s.exposes[i].portId); }
    hide Good, HasRoom, Room, EdgeOpen, NotShut;
  }

  lemma ListedIsStored(s: Store, i: nat, partyId: string, t: Timing)
    requires i < |s.exposes|
    ensures OpenTo(s, s.exposes[i], partyId, t) ==> s.exposes[i].portId in s.ports
  {
    hide Room, NotShut;
  }

  /** The listing holds the ports of exactly the edges that are open to the party, in their order: `at` are the
      places of those edges. */
  lemma {:induction false} ListedExactly(s: Store, partyId: string, t: Timing, n: nat) returns (at: seq<nat>)
    requires Good(s) && n <= |s.exposes|
    ensures var entries := Bindable(s, partyId, t, n);
      && |at| == |entries|
      && (forall k :: 0 <= k < |at| ==>
            && at[k] < n && OpenTo(s, s.exposes[at[k]], partyId, t)
            && entries[k] == Entry(s.exposes[at[k]].portId, s.ports[s.exposes[at[k]].portId]))
      && (forall j, k :: 0 <= j < k < |at| ==> at[j] < at[k])
      && (forall i: nat :: i < n && OpenTo(s, s.exposes[i], partyId, t) ==> i in at)
  {
    hide OpenTo, Listed, Good;
    at := [];
    if n > 0 {
      at := ListedExactly(s, partyId, t, n - 1);
      ListedMeans(s, n - 1, partyId, t);
      ListedIsStored(s, n - 1, partyId, t);
      if OpenTo(s, s.exposes[n - 1], partyId, t) { at := at + [n - 1]; }
    }
  }

  /** A session can go on exactly while some edge stands. */
  lemma AdvanceableExactly(s: Store, t: Timing)
    ensures Advanceable(s, t) <==> exists i :: 0 <= i < |s.exposes| && Standing(s, s.exposes[i], t)
  {
    forall i | 0 <= i < |s.exposes| ensures EdgeOpen(s, s.exposes[i], t) <==> Standing(s, s.exposes[i], t) {
      EdgeOpenExactly(s, i, t);
    }
  }

  lemma {:induction false} BindableFromEdge(s: Store, partyId: string, t: Timing, n: nat, k: nat) returns (i: nat)
    requires n <= |s.exposes| && k < |Bindable(s, partyId, t, n)|
    ensures i < n && Listed(s, s.exposes[i], partyId, t) && s.exposes[i].portId == Bindable(s, partyId, t, n)[k].portId
  {
    if k < |Bindable(s, partyId, t, n - 1)| {
      i := BindableFromEdge(s, partyId, t, n - 1, k);
    } else {
      i := n - 1;
    }
  }

  /** In a store where every port has its policy and window, every listed port is admitted at the
      same timing for any stored binding offer whose own window is open. */
  lemma ListedIsAdmitted(s: Store, partyId: string, t: Timing, k: nat, bindingOffer: string)
    requires Good(s) && Complete(s) && k < |Bindable(s, partyId, t, |s.exposes|)|
    requires bindingOffer in s.offers && WindowOpen(s.offerNbc[bindingOffer], t)
    ensures Admission(s, bindingOffer, Bindable(s, partyId, t, |s.exposes|)[k].portId, t) == None
  {
    var i := BindableFromEdge(s, partyId, t, |s.exposes|, k);
    var portId := s.exposes[i].portId;
    assert s.ports[portId].id == portId;
    CanonicalIsStored(s.ports, portId);
  }

  /** The same in every store reached by parsed turns. */
  lemma ListedIsAdmittedAfterTurns(policyOk: Json -> bool, validator: Validator, turns: seq<Turn>,
                                   partyId: string, t: Timing, k: nat, bindingOffer: string)
    requires
      var s := TakeTurns(policyOk, validator, turns);
      && k < |Bindable(s, partyId, t, |s.exposes|)|
      && bindingOffer in s.offers && WindowOpen(OfferWindow(s, bindingOffer), t)
    ensures
      var s := TakeTurns(policyOk, validator, turns);
      Admission(s, bindingOffer, Bindable(s, partyId, t, |s.exposes|)[k].portId, t) == None
  {
    var s := TakeTurns(policyOk, validator, turns);
    TurnsKeepComplete(policyOk, validator, turns);
    ListedIsAdmitted(s, partyId, t, k, bindingOffer);
  }

  /** At a natural stop nobody has anything left to bind. */
  lemma NaturalStopEmpties(s: Store, partyId: string, t: Timing)
    requires !Advanceable(s, t)
    ensures Bindable(s, partyId, t, |s.exposes|) == []
  {
    if |Bindable(s, partyId, t, |s.exposes|)| > 0 {
      var i := BindableFromEdge(s, partyId, t, |s.exposes|, 0);
    }
  }
}
