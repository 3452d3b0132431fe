/** What single steps of the runtime come to: which inits open a chain, for whom and when a turn is applied, what
    clock it carries, what its op says, and when an envelope is due. */
module RuntimeSteps {
  import opened Text
  import opened CanonicalJson
  import opened SessionMerkle
  import opened Frames
  import opened NbcTurn
  import opened RuntimeModel
  import opened RuntimeSafety
  import opened BindRules
  import opened TurnStores
  import Hlc
  import NbcStore
  import StoreSafety
  import TurnCodec
  import Wire

  // ----- Opening a chain

  /** The init names the template's parties, in either order, and the ids it pins. */
  predicate Fits(i: Init, t: Template) {
    && ((i.first == t.first && i.second == t.second) || (i.first == t.second && i.second == t.first))
    && (t.sessionId == None || t.sessionId == Some(i.sessionId))
    && (t.genesis == None || t.genesis == Some(i.genesis))
  }

  ghost predicate TemplateOrdered(s: State) {
    s.template.Some? ==> var t := s.template.value; UnitsBefore(Units(t.first.pubkey), Units(t.second.pubkey))
  }

  lemma NormalOrder(i: Init)
    ensures NormalizeInit(i).Some? <==> i.first.pubkey != i.second.pubkey
    ensures NormalizeInit(i).Some? ==>
      var n := NormalizeInit(i).value;
      && (n == i || n == i.(first := i.second, second := i.first))
      && UnitsBefore(Units(n.first.pubkey), Units(n.second.pubkey))
      && !UnitsBefore(Units(n.second.pubkey), Units(n.first.pubkey))
  {
    LexTotal(i.first.pubkey, i.second.pubkey);
    if i.first.pubkey != i.second.pubkey {
      OrderOfUnits(i.first.pubkey, i.second.pubkey);
      OrderOfUnits(i.second.pubkey, i.first.pubkey);
    }
    hide UnitsBefore, Units, LexLe;
  }

  lemma FitsExactly(i: Init, t: Template)
    requires UnitsBefore(Units(t.first.pubkey), Units(t.second.pubkey)) && NormalizeInit(i).Some?
    ensures TemplateMatch(NormalizeInit(i).value, t) <==> Fits(i, t)
  {
    NormalOrder(i);
    hide UnitsBefore, Units, NormalizeInit;
  }

  /** A chain is opened exactly for two different keys, in either order, that fit the template if there is one,
      when neither the session is open nor the genesis a current tip. It starts at its genesis, with the parties
      in order; the first init whose keys differ becomes the template whatever else becomes of it. */
  lemma OpensExactly(s: State, i: Init)
    requires TemplateOrdered(s)
    ensures var (t, r) := Register(s, i);
      && (r.Done? <==>
            && i.first.pubkey != i.second.pubkey && (s.template.Some? ==> Fits(i, s.template.value))
            && i.sessionId !in s.chains && i.genesis !in s.tips)
      && (r.Done? ==>
            && i.sessionId in t.chains && t.chains - {i.sessionId} == s.chains
            && t.chains[i.sessionId].tip == i.genesis && t.chains[i.sessionId].ops == []
            && t.tips == s.tips[i.genesis := i.sessionId])
      && (!r.Done? ==> t == s.(template := t.template))
      && TemplateOrdered(t) && (s.template.Some? ==> t.template == s.template)
      && (s.template.None? && i.first.pubkey != i.second.pubkey ==>
            t.template.Some? && forall j: Init :: Fits(j, t.template.value) <==> SameInit(i, j))
  {
    if i.first.pubkey != i.second.pubkey {
      NormalOrder(i);
      if s.template.Some? { FitsExactly(i, s.template.value); } else { AdoptedFits(i); }
    }
    hide UnitsBefore, Units, NormalizeInit, TemplateMatch, Fits, SameInit;
  }

  /** The two inits are the same but for the order of their parties. */
  predicate SameInit(i: Init, j: Init) {
    && i.sessionId == j.sessionId && i.genesis == j.genesis
    && ((i.first == j.first && i.second == j.second) || (i.first == j.second && i.second == j.first))
  }

  lemma AdoptedFits(i: Init)
    requires NormalizeInit(i).Some?
    ensures var n := NormalizeInit(i).value;
      forall j: Init :: Fits(j, Template(n.first, n.second, Some(n.sessionId), Some(n.genesis))) <==> SameInit(i, j)
  {
    NormalOrder(i);
    hide UnitsBefore, Units, NormalizeInit;
  }

  /** The order in which an init names its parties makes no difference. */
  lemma EitherOrder(s: State, i: Init)
    ensures Register(s, i.(first := i.second, second := i.first)) == Register(s, i)
  {
    var j := i.(first := i.second, second := i.first);
    if i.first.pubkey != i.second.pubkey {
      NormalOrder(i);
      NormalOrder(j);
    }
    hide UnitsBefore, Units, TemplateMatch;
    assert NormalizeInit(i) == NormalizeInit(j);
    hide NormalizeInit;
  }

  // ----- Applying a turn

  /** What an applied turn means for a chain: it was signed by a party of the session, its offer is stored for that
      party, and the port it binds, if any, was open at the number of frames the chain had accepted. */
  ghost predicate AppliedFor(s: State, store: NbcStore.Store, c: Chain, f: Frame, now: Option<real>, party: Party) {
    && (party == c.init.first || party == c.init.second) && party.pubkey == f.actor
    && TurnCodec.ParseBody(f.body).Ok?
    && var body := TurnCodec.ParseBody(f.body).value;
    && OfferStored(store, NbcStore.IdOf(s.store.seqNo + 1), party.id, body.offer)
    && (body.bindPortId != "" ==>
          && body.bindPortId in store.portNbc
          && !Shut(store.portNbc[body.bindPortId], NbcStore.Timing(|c.history|, now)))
  }

  lemma StoreKeepsItself(s: NbcStore.Store)
    ensures Keeps(s, s)
  {
  }

  lemma BoundIsOpen(env: Env, s: NbcStore.Store, id: string, body: TurnCodec.TurnBody, timing: NbcStore.Timing)
    requires StoreSafety.Good(s) && body.bindPortId != ""
    ensures var (t, r) := ApplyTurn(env.policyOk, env.validator, s, id, body, timing);
      r.Ok? ==> body.bindPortId in t.portNbc && !Shut(t.portNbc[body.bindPortId], timing)
  {
    hide StoreSafety.Good, ApplyTurn, InForce, PayloadFits, Shut;
    TurnBindsAsDeclared(env.policyOk, env.validator, s, id, body, timing);
  }

  lemma PartyTurn(env: Env, s: State, c: Chain, f: Frame, now: Option<real>, party: Party)
    requires StoreSafety.Good(s.store) && |c.ops| == |c.history|
    requires (party == c.init.first || party == c.init.second) && party.pubkey == f.actor
    requires TurnCodec.ParseBody(f.body).Ok?
    ensures var (store, r) := ApplyTurn(env.policyOk, env.validator, s.store, party.id,
                                        TurnCodec.ParseBody(f.body).value, NbcStore.Timing(|c.ops|, now));
      Keeps(s.store, store) && (r.Ok? ==> AppliedFor(s, store, c, f, now, party))
  {
    hide ApplyTurn, StoreSafety.Good, TurnCodec.ParseBody, Keeps, OfferStored, Shut, AllExposed, OnlyListed;
    var turn, timing := TurnCodec.ParseBody(f.body).value, NbcStore.Timing(|c.ops|, now);
    TurnStoresAsDeclared(env.policyOk, env.validator, s.store, party.id, turn, timing);
    if turn.bindPortId != "" { BoundIsOpen(env, s.store, party.id, turn, timing); }
  }

  /** The body parses, and applied for the party whose key signed it, at the number of frames accepted, it succeeds. */
  predicate Succeeds(env: Env, s: State, c: Chain, f: Frame, now: Option<real>) {
    TurnCodec.ParseBody(f.body).Ok? &&
    ApplyTurn(env.policyOk, env.validator, s.store,
              if c.init.first.pubkey == f.actor then c.init.first.id else c.init.second.id,
              TurnCodec.ParseBody(f.body).value, NbcStore.Timing(|c.history|, now)).1.Ok?
  }

  lemma LoggedLength(env: Env, s: State, sid: string)
    requires Inv(env, s) && sid in s.chains
    ensures |s.chains[sid].ops| == |s.chains[sid].history| && StoreSafety.Good(s.store)
  {
    assert ChainLogged(s, sid, s.chains[sid]);
    hide StoreSafety.Good, RoutingExact, Counted;
  }

  /** A turn is taken by a chain only for a party of its session whose key signed it, at the number of frames that
      the chain has accepted, and then exactly when applying it succeeds. */
  lemma TurnIsApplied(env: Env, s: State, sid: string, f: Frame, now: Option<real>)
    requires Inv(env, s) && sid in s.chains
    ensures var (store, outcome) := TurnOnStore(env, s, sid, f.actor, f.body, now); var c := s.chains[sid];
      && Keeps(s.store, store)
      && (outcome.Done? ==>
            AppliedFor(s, store, c, f, now, c.init.first) || AppliedFor(s, store, c, f, now, c.init.second))
      && (f.actor != c.init.first.pubkey && f.actor != c.init.second.pubkey ==> outcome.Rejected? && store == s.store)
      && (f.actor == c.init.first.pubkey || f.actor == c.init.second.pubkey ==>
            (outcome.Done? <==> Succeeds(env, s, c, f, now)))
  {
    hide Inv, ApplyTurn, TurnCodec.ParseBody, Keeps, AppliedFor;
    var c := s.chains[sid];
    LoggedLength(env, s, sid);
    StoreKeepsItself(s.store);
    if f.actor == c.init.first.pubkey && TurnCodec.ParseBody(f.body).Ok? {
      PartyTurn(env, s, c, f, now, c.init.first);
    } else if f.actor == c.init.second.pubkey && TurnCodec.ParseBody(f.body).Ok? {
      PartyTurn(env, s, c, f, now, c.init.second);
    }
  }

  // ----- The clock a turn carries

  /** The body sets a moment somewhere, or carries a clock already. */
  predicate Timed(body: TurnCodec.TurnBody) {
    || body.offer.expiresAtMs != 0 || body.clock.Some?
    || exists i :: 0 <= i < |body.ports| && body.ports[i].expiresAtMs != 0
  }

  /** What the receiver reads of a sendable body that goes out: the body, with the sender's clock exactly when it is
      timed, and the observation it carried. */
  lemma ClockArrives(body: TurnCodec.TurnBody, clock: Hlc.Timestamp)
    requires TurnCodec.BodyOk(body) && clock.pt >= 0 && clock.lc >= 0
    ensures var r := TurnCodec.ParseBody(TurnCodec.Serialize(StampClock(body, Some(clock))));
      && r.Ok? && r.value == body.(clock := r.value.clock)
      && (r.value.clock.Some? <==> Timed(body))
      && (Timed(body) ==>
            && r.value.clock.value.hlc == clock
            && r.value.clock.value.observed == if body.clock.Some? then body.clock.value.observed else None)
  {
    hide TurnCodec.ParseBody, TurnCodec.Serialize;
    var out := StampClock(body, Some(clock));
    assert out == body.(clock := out.clock);
    TurnCodec.BodyRoundTrip(out);
  }

  /** With no clock at hand a sendable body goes out as it is. */
  lemma NoClockArrives(body: TurnCodec.TurnBody)
    requires TurnCodec.BodyOk(body)
    ensures TurnCodec.ParseBody(TurnCodec.Serialize(StampClock(body, None))) == Ok(body)
  {
    hide TurnCodec.ParseBody, TurnCodec.Serialize;
    TurnCodec.BodyRoundTrip(body);
  }

  // ----- What a log says

  /** The turn can be read back from its op in the log, which also names the actor, unless the body does. */
  lemma OpCarriesTurn(f: Frame, sid: string)
    requires f.kind == TURN && f.body.JObject?
    ensures var op := FrameOp(f, sid);
      && op.kind == "turn" && op.sessionId == sid && op.payload.JObject?
      && TurnCodec.ParseBody(op.payload) == TurnCodec.ParseBody(f.body)
      && Get(op.payload.members, "actor") ==
           if "actor" in f.body.members then f.body.members["actor"] else JString(f.actor)
  {
    var m := FrameOp(f, sid).payload.members;
    assert forall k :: k != "actor" ==> Get(m, k) == Get(f.body.members, k);
    hide TurnCodec.ParseOffer, TurnCodec.ParsePorts, TurnCodec.ParseClock;
  }

  /** The ops of the other frames: an end of offers names its actor, a termination is logged as it is. */
  lemma OtherOps(f: Frame, sid: string)
    ensures f.kind == END_OFFERS && f.body == JObject(map[]) ==>
      FrameOp(f, sid) == SessionOp("end_offers", JObject(map["actor" := JString(f.actor)]), sid)
    ensures f.kind == TERMINATE ==> FrameOp(f, sid) == SessionOp("terminate", f.body, sid)
  {
    var none: map<string, Json> := map[];
    var actor := map["actor" := JString(f.actor)];
    assert actor + none == actor;
  }

  /** A termination's reason and code are read as they were given. */
  lemma TerminationReads(reason: string, code: Option<string>)
    ensures var body := TerminateBody(reason, code);
      && Wire.TextField(body.members, "reason") == reason
      && (code.Some? <==> "code" in body.members) && (code.Some? ==> Wire.TextField(body.members, "code") == code.value)
  {
  }

  // ----- Envelopes

  /** An envelope is due exactly when sync is on, the session is open, and some op is unconfirmed or an
      acknowledgement owed. It carries the ops after the confirmed prefix between the checkpoints of that prefix and
      of the whole log, and the acknowledgement is owed no longer. */
  lemma FlushExactly(env: Env, s: State, sid: string)
    requires Inv(env, s)
    ensures var (t, sent) := Flush(env, s, sid);
      && (sent.Some? <==>
            && env.syncParty.Some? && sid in s.chains
            && (s.chains[sid].confirmedSeq < |s.chains[sid].ops| || s.chains[sid].pendingAck))
      && (sent.None? ==> t == s)
      && (sent.Some? ==>
            var c := s.chains[sid]; var n := c.confirmedSeq;
            && 0 <= n <= |c.ops| && t == s.(chains := s.chains[sid := c.(pendingAck := false)])
            && sent.value.sessionId == sid && env.syncParty == Some(sent.value.fromParty)
            && sent.value.base == env.checkpoint(c.ops[..n]) && sent.value.deltaOps == OpJsons(c.ops[n..])
            && sent.value.next == env.checkpoint(c.ops))
  {
    if sid in s.chains { assert ChainLogged(s, sid, s.chains[sid]); }
    hide StoreSafety.Good, RoutingExact, Counted, OpJsons, ChainLinked, Tagged, OpsOf;
  }
}
