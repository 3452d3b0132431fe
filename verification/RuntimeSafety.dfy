/** What every step of the multiplex runtime keeps, over every run. */
module RuntimeSafety {
  import opened Text
  import opened CanonicalJson
  import opened SessionMerkle
  import opened HashChain
  import opened Frames
  import opened NbcTurn
  import opened RuntimeModel
  import Hlc
  import TurnCodec
  import NbcStore
  import StoreSafety

  function ParentHash(f: Frame): string { f.pHash }

  /** The sync adapter accepts a claimed checkpoint only with the length of base and delta together. */
  ghost predicate SyncCounts(env: Env) {
    forall base: seq<SessionOp>, delta: seq<Json>, claimed: Checkpoint ::
      env.extendsBy(base, delta, claimed).Extends? ==> claimed.seqNo == |base| + |delta|
  }

  /** No two accepted frames share a tip, and none hashes to a genesis. */
  ghost predicate NoCollisions(env: Env, s: State) {
    && NoClash(env.tip, s.accepted, s.accepted)
    && forall g :: g in s.geneses ==> GenesisApart(env.tip, g, s.accepted)
  }

  // ----- The invariant

  /** The ops of a log tagged with a session. */
  function Tagged(ops: seq<SessionOp>, sid: string): seq<SessionOp> {
    if |ops| == 0 then []
    else
      var op := ops[|ops| - 1];
      Tagged(ops[..|ops| - 1], sid) + if op.sessionId == sid then [op] else []
  }

  lemma TaggedAppend(ops: seq<SessionOp>, op: SessionOp, sid: string)
    ensures Tagged(ops + [op], sid) == Tagged(ops, sid) + if op.sessionId == sid then [op] else []
  {
    assert (ops + [op])[..|ops|] == ops;
  }

  /** Whether the op is a turn that names a port to bind. */
  predicate IsBindTurn(op: SessionOp) {
    && op.kind == "turn" && op.payload.JObject? && "bind_port_id" in op.payload.members
    && op.payload.members["bind_port_id"].JString? && op.payload.members["bind_port_id"].s != ""
  }

  function BindTurns(ops: seq<SessionOp>): nat {
    if |ops| == 0 then 0
    else BindTurns(ops[..|ops| - 1]) + if IsBindTurn(ops[|ops| - 1]) then 1 else 0
  }

  lemma BindTurnsAppend(ops: seq<SessionOp>, op: SessionOp)
    ensures BindTurns(ops + [op]) == BindTurns(ops) + if IsBindTurn(op) then 1 else 0
  {
    assert (ops + [op])[..|ops|] == ops;
  }

  /** The chain's tip is the hash of its history, every frame of which was accepted. */
  ghost predicate ChainLinked(env: Env, s: State, sid: string, c: Chain) {
    && c.init.sessionId == sid && c.init.genesis in s.geneses
    && Linked(ParentHash, env.tip, c.init.genesis, c.history)
    && c.tip == TipAfter(env.tip, c.init.genesis, c.history)
    && (forall i :: 0 <= i < |c.history| ==> c.history[i] in s.accepted)
  }

  /** The chain's log is its history's ops, and the global log's ops tagged with it since it was
      registered; what the peer confirmed is a prefix of it. */
  ghost predicate ChainLogged(s: State, sid: string, c: Chain) {
    && c.ops == OpsOf(c.history, sid)
    && c.since <= |s.globalOps| && c.ops == Tagged(s.globalOps[c.since..], sid)
    && 0 <= c.confirmedSeq <= |c.ops|
  }

  ghost predicate ChainsOk(env: Env, s: State) {
    forall sid :: sid in s.chains ==> ChainLinked(env, s, sid, s.chains[sid]) && ChainLogged(s, sid, s.chains[sid])
  }

  /** One routing entry per open chain, from its tip, and no others. */
  ghost predicate RoutingExact(s: State) {
    && (forall sid :: sid in s.chains ==> s.chains[sid].tip in s.tips && s.tips[s.chains[sid].tip] == sid)
    && (forall t :: t in s.tips ==> s.tips[t] in s.chains && s.chains[s.tips[t]].tip == t)
  }

  ghost predicate KeysSeen(env: Env, s: State) {
    forall i :: 0 <= i < |s.accepted| ==> env.key(s.accepted[i]) in s.dedupe
  }

  /** One op and one dedupe key for every frame accepted, and no key twice. */
  ghost predicate Counted(env: Env, s: State) {
    && |s.globalOps| == |s.accepted| == |s.dedupe|
    && KeysSeen(env, s)
    && (forall i, j :: 0 <= i < j < |s.accepted| ==> env.key(s.accepted[i]) != env.key(s.accepted[j]))
    && (forall k :: k in s.dedupe ==> exists i :: 0 <= i < |s.accepted| && env.key(s.accepted[i]) == k)
  }

  ghost predicate Inv(env: Env, s: State) {
    ChainsOk(env, s) && RoutingExact(s) && Counted(env, s) && StoreSafety.Good(s.store)
  }

  /** A chain is as well founded in any state with the same logs. */
  lemma ChainFramed(env: Env, s: State, t: State, sid: string, c: Chain)
    requires ChainLinked(env, s, sid, c) && ChainLogged(s, sid, c)
    requires t.accepted == s.accepted && s.geneses <= t.geneses && t.globalOps == s.globalOps
    ensures ChainLinked(env, t, sid, c) && ChainLogged(t, sid, c)
  {
  }

  /** All but one chain are as they were, and that one is well founded by itself. */
  lemma ChainsFramed(env: Env, s: State, t: State, sid: string)
    requires ChainsOk(env, s)
    requires t.accepted == s.accepted && s.geneses <= t.geneses && t.globalOps == s.globalOps
    requires forall other :: other in t.chains && other != sid ==>
      other in s.chains && t.chains[other] == s.chains[other]
    requires sid in t.chains ==> ChainLinked(env, t, sid, t.chains[sid]) && ChainLogged(t, sid, t.chains[sid])
    ensures ChainsOk(env, t)
  {
    hide ChainLinked, ChainLogged;
    forall other | other in t.chains
      ensures ChainLinked(env, t, other, t.chains[other]) && ChainLogged(t, other, t.chains[other])
    {
      if other != sid { ChainFramed(env, s, t, other, s.chains[other]); }
    }
  }

  // ----- Recording and accepting a frame

  /** A chain the frame does not belong to is as well founded as before. */
  lemma OtherChainKept(env: Env, s: State, sid: string, f: Frame, other: string)
    requires sid in s.chains && other in s.chains && other != sid
    requires ChainLinked(env, s, other, s.chains[other]) && ChainLogged(s, other, s.chains[other])
    ensures var r := Record(env, s, sid, f);
      && r.chains[other] == s.chains[other]
      && ChainLinked(env, r, other, s.chains[other]) && ChainLogged(r, other, s.chains[other])
  {
    var c := s.chains[other];
    var op := FrameOp(f, sid);
    assert (s.globalOps + [op])[c.since..] == s.globalOps[c.since..] + [op];
    TaggedAppend(s.globalOps[c.since..], op, other);
    forall i | 0 <= i < |c.history| ensures c.history[i] in s.accepted + [f] {}
  }

  /** The chain it belongs to grows by the frame and its op. */
  lemma OwnChainKept(env: Env, s: State, sid: string, f: Frame)
    requires sid in s.chains && f.pHash == s.chains[sid].tip
    requires ChainLinked(env, s, sid, s.chains[sid]) && ChainLogged(s, sid, s.chains[sid])
    ensures var t := Accept(env, s, sid, f);
      ChainLinked(env, t, sid, t.chains[sid]) && ChainLogged(t, sid, t.chains[sid])
  {
    var c := s.chains[sid];
    var op := FrameOp(f, sid);
    var t := Accept(env, s, sid, f);
    LinkedAppend(ParentHash, env.tip, c.init.genesis, c.history, f);
    assert (s.globalOps + [op])[c.since..] == s.globalOps[c.since..] + [op];
    TaggedAppend(s.globalOps[c.since..], op, sid);
    assert OpsOf(c.history + [f], sid) == OpsOf(c.history, sid) + [op];
    forall i | 0 <= i < |c.history| + 1 ensures (c.history + [f])[i] in s.accepted + [f] {
      assert f == (s.accepted + [f])[|s.accepted|];
    }
    assert t.chains[sid] == c.(tip := env.tip(f), ops := c.ops + [op], history := c.history + [f]);
  }

  lemma RecordCounts(env: Env, s: State, sid: string, f: Frame)
    requires sid in s.chains && Counted(env, s) && env.key(f) !in s.dedupe
    ensures Counted(env, Record(env, s, sid, f))
  {
    var accepted := s.accepted + [f];
    assert accepted[|s.accepted|] == f;
    forall k | k in s.dedupe + {env.key(f)} ensures exists i :: 0 <= i < |accepted| && env.key(accepted[i]) == k {
      if k in s.dedupe {
        var i :| 0 <= i < |s.accepted| && env.key(s.accepted[i]) == k;
        assert env.key(accepted[i]) == k;
      }
    }
  }

  /** The tip of a frame not accepted before is the tip of no open chain. */
  lemma NewTipIsNew(env: Env, s: State, f: Frame, sid: string)
    requires sid in s.chains && ChainLinked(env, s, sid, s.chains[sid]) && Counted(env, s)
    requires env.key(f) !in s.dedupe
    requires NoClash(env.tip, s.accepted + [f], s.accepted + [f])
    requires GenesisApart(env.tip, s.chains[sid].init.genesis, s.accepted + [f])
    ensures s.chains[sid].tip != env.tip(f)
  {
    var c := s.chains[sid];
    var all := s.accepted + [f];
    assert all[|s.accepted|] == f;
    if |c.history| > 0 {
      var last := c.history[|c.history| - 1];
      var i :| 0 <= i < |s.accepted| && s.accepted[i] == last;
      assert all[i] == last && last != f;
    }
  }

  lemma AcceptKeepsRouting(env: Env, s: State, sid: string, f: Frame)
    requires ChainsOk(env, s) && RoutingExact(s) && Counted(env, s) && sid in s.chains
    requires env.key(f) !in s.dedupe && NoCollisions(env, Accept(env, s, sid, f))
    ensures RoutingExact(Accept(env, s, sid, f))
  {
    var t := Accept(env, s, sid, f);
    forall other | other in s.chains ensures s.chains[other].tip != env.tip(f) { NewTipIsNew(env, s, f, other); }
    assert t.tips == (s.tips - {s.chains[sid].tip})[env.tip(f) := sid];
    forall other | other in t.chains ensures t.chains[other].tip in t.tips && t.tips[t.chains[other].tip] == other {
      assert other != sid ==> t.chains[other] == s.chains[other];
    }
  }

  lemma CountedFramed(env: Env, s: State, t: State)
    requires Counted(env, s) && t.globalOps == s.globalOps && t.accepted == s.accepted && t.dedupe == s.dedupe
    ensures Counted(env, t)
  {
  }

  /** Accepting a frame that extends the chain's tip keeps everything but the store's count of binds. */
  lemma AcceptKeepsChains(env: Env, s: State, sid: string, f: Frame)
    requires ChainsOk(env, s) && RoutingExact(s) && Counted(env, s) && sid in s.chains
    requires f.pHash == s.chains[sid].tip && env.key(f) !in s.dedupe && NoCollisions(env, Accept(env, s, sid, f))
    ensures var t := Accept(env, s, sid, f); ChainsOk(env, t) && RoutingExact(t) && Counted(env, t)
  {
    hide ChainLinked, ChainLogged, Counted, RoutingExact, NoCollisions, FrameOp;
    var t := Accept(env, s, sid, f);
    AcceptKeepsRouting(env, s, sid, f);
    RecordCounts(env, s, sid, f);
    CountedFramed(env, Record(env, s, sid, f), t);
    forall other | other in t.chains
      ensures ChainLinked(env, t, other, t.chains[other]) && ChainLogged(t, other, t.chains[other])
    {
      if other == sid {
        OwnChainKept(env, s, sid, f);
      } else {
        OtherChainKept(env, s, sid, f, other);
        ChainFramed(env, Record(env, s, sid, f), t, other, s.chains[other]);
      }
    }
  }

  lemma DestroyKeepsChains(env: Env, s: State, sid: string)
    requires ChainsOk(env, s) && RoutingExact(s) && Counted(env, s)
    ensures var t := Destroy(s, sid); ChainsOk(env, t) && RoutingExact(t) && Counted(env, t)
  {
    hide ChainLinked, ChainLogged, Counted, RoutingExact;
    var t := Destroy(s, sid);
    if sid in s.chains {
      CountedFramed(env, s, t);
      DestroyKeepsRouting(s, t, sid);
      ChainsFramed(env, s, t, sid);
    }
  }

  lemma RecordKeepsOthers(env: Env, s: State, sid: string, f: Frame, t: State)
    requires ChainsOk(env, s) && sid in s.chains
    requires var r := Record(env, s, sid, f);
      t.accepted == r.accepted && t.geneses == r.geneses && t.globalOps == r.globalOps
    requires t.chains == s.chains - {sid}
    ensures ChainsOk(env, t)
  {
    hide ChainLinked, ChainLogged, FrameOp;
    var r := Record(env, s, sid, f);
    forall other | other in t.chains
      ensures ChainLinked(env, t, other, t.chains[other]) && ChainLogged(t, other, t.chains[other])
    {
      OtherChainKept(env, s, sid, f, other);
      ChainFramed(env, r, t, other, s.chains[other]);
    }
  }

  lemma DestroyKeepsRouting(s: State, t: State, sid: string)
    requires RoutingExact(s) && sid in s.chains && t.chains == s.chains - {sid}
    requires t.tips == map k | k in s.tips && s.tips[k] != sid :: s.tips[k]
    ensures RoutingExact(t)
  {
  }

  /** An inbound TERMINATE: the frame is recorded and its chain closed. */
  lemma TerminateKeepsChains(env: Env, s: State, sid: string, f: Frame)
    requires ChainsOk(env, s) && RoutingExact(s) && Counted(env, s) && sid in s.chains && env.key(f) !in s.dedupe
    ensures var t := Destroy(Record(env, s, sid, f), sid); ChainsOk(env, t) && RoutingExact(t) && Counted(env, t)
  {
    hide ChainsOk, RoutingExact, Counted, FrameOp;
    var r := Record(env, s, sid, f);
    var t := Destroy(r, sid);
    RecordCounts(env, s, sid, f);
    CountedFramed(env, r, t);
    assert t.chains == s.chains - {sid};
    DestroyKeepsRouting(s, t, sid);
    RecordKeepsOthers(env, s, sid, f, t);
  }

  // ----- The store

  /** A turn's op names a port to bind exactly when the parsed turn does. */
  lemma TurnOpBinds(f: Frame, sid: string, turn: TurnCodec.TurnBody)
    requires f.kind == TURN && TurnCodec.ParseBody(f.body) == Ok(turn)
    ensures IsBindTurn(FrameOp(f, sid)) <==> turn.bindPortId != ""
  {
    hide TurnCodec.ParseOffer, TurnCodec.ParsePorts, TurnCodec.ParseClock;
    var payload := FrameOp(f, sid).payload.members;
    assert payload == map["actor" := JString(f.actor)] + f.body.members;
    assert "bind_port_id" in payload <==> "bind_port_id" in f.body.members;
  }

  /** A turn keeps the store's invariant and binds exactly when it is accepted and names a port. */
  lemma TurnKeepsStore(env: Env, s: State, sid: string, f: Frame, now: Option<real>)
    requires sid in s.chains && StoreSafety.Good(s.store) && f.kind == TURN
    ensures var (store, outcome) := TurnOnStore(env, s, sid, f.actor, f.body, now);
      && StoreSafety.Good(store)
      && |store.binds| == |s.store.binds| + (if outcome.Done? && IsBindTurn(FrameOp(f, sid)) then 1 else 0)
      && (!outcome.Done? ==> store.binds == s.store.binds)
  {
    hide ApplyTurn, StoreSafety.Good, TurnCodec.ParseBody, FrameOp;
    var c := s.chains[sid];
    match (PartyIdForActor(c.init, f.actor), TurnCodec.ParseBody(f.body)) {
      case (Some(party), Ok(turn)) =>
        var timing := NbcStore.Timing(|c.ops|, now);
        TurnEffects(env.policyOk, env.validator, s.store, party, turn, timing);
        var (store, r) := ApplyTurn(env.policyOk, env.validator, s.store, party, turn, timing);
        assert TurnOnStore(env, s, sid, f.actor, f.body, now) == (store, if r.Ok? then Done else Rejected);
        TurnOpBinds(f, sid, turn);
      case _ =>
    }
  }

  lemma TurnLeavesComplete(env: Env, s: State, sid: string, f: Frame, now: Option<real>)
    requires sid in s.chains && StoreSafety.Good(s.store) && Complete(s.store)
    ensures Complete(TurnOnStore(env, s, sid, f.actor, f.body, now).0)
  {
    hide ApplyTurn, StoreSafety.Good, Complete, TurnCodec.ParseBody;
    var c := s.chains[sid];
    match (PartyIdForActor(c.init, f.actor), TurnCodec.ParseBody(f.body)) {
      case (Some(party), Ok(turn)) =>
        TurnKeepsComplete(env.policyOk, env.validator, s.store, party, turn, NbcStore.Timing(|c.ops|, now));
      case _ =>
    }
  }

  lemma OtherOpsDoNotBind(f: Frame, sid: string)
    requires f.kind != TURN
    ensures !IsBindTurn(FrameOp(f, sid))
  {
  }

  // ----- Every step

  lemma FrameGrows(env: Env, s: State, f: Frame, now: Option<real>)
    ensures var t := HandleFrame(env, s, f, now).0; s.accepted <= t.accepted && s.geneses == t.geneses
  {
    hide TurnOnStore, FrameOp;
  }

  lemma TurnGrows(env: Env, s: State, sid: string, body: TurnCodec.TurnBody, hlc: Option<Hlc.Timestamp>,
                  now: Option<real>)
    ensures var t := EmitTurn(env, s, sid, body, hlc, now).0; s.accepted <= t.accepted && s.geneses == t.geneses
  {
    hide TurnOnStore, OutboundError, FrameOp, TurnCodec.Serialize, StampClock;
  }

  lemma EnvelopeGrows(env: Env, s: State, e: WireEnvelope)
    ensures var t := HandleEnvelope(env, s, e).0; s.accepted == t.accepted && s.geneses == t.geneses
  {
    hide EnvelopeOk;
  }

  /** Runs only add accepted frames and geneses. */
  lemma StepGrows(env: Env, s: State, e: Event)
    ensures s.accepted <= Step(env, s, e).accepted && s.geneses <= Step(env, s, e).geneses
  {
    hide HandleFrame, EmitTurn, HandleEnvelope, TemplateMatch, NormalizeInit, FrameOp;
    match e {
      case OnFrame(f, now) => FrameGrows(env, s, f, now);
      case DoTurn(sid, body, hlc, now) => TurnGrows(env, s, sid, body, hlc, now);
      case OnEnvelope(envelope) => EnvelopeGrows(env, s, envelope);
      case _ =>
    }
  }

  lemma EarlierNoCollisions(env: Env, s: State, t: State)
    requires NoCollisions(env, t) && s.accepted <= t.accepted && s.geneses <= t.geneses
    ensures NoCollisions(env, s)
  {
    forall i | 0 <= i < |s.accepted| ensures s.accepted[i] == t.accepted[i] {}
  }

  lemma NewChainOk(env: Env, s: State, wire: Init)
    requires wire.genesis in s.geneses
    ensures var c := Chain(wire, wire.genesis, [], 0, false, [], |s.globalOps|);
      ChainLinked(env, s, wire.sessionId, c) && ChainLogged(s, wire.sessionId, c)
  {
  }

  lemma RegisterKeepsRouting(s: State, init: Init)
    requires RoutingExact(s)
    ensures RoutingExact(Register(s, init).0)
  {
  }

  lemma RegisterKeepsInv(env: Env, s: State, init: Init)
    requires Inv(env, s)
    ensures Inv(env, Register(s, init).0)
  {
    var t := Register(s, init).0;
    hide StoreSafety.Good, RoutingExact, Counted, ChainsOk, ChainLinked, ChainLogged, TemplateMatch;
    CountedFramed(env, s, t);
    RegisterKeepsRouting(s, init);
    if Register(s, init).1.Done? {
      var wire := NormalizeInit(init).value;
      NewChainOk(env, t, wire);
      ChainsFramed(env, s, t, wire.sessionId);
    } else {
      UnreadState(env, s, t);
    }
  }

  /** The chains' part of the invariant looks at neither the template nor the store. */
  lemma UnreadState(env: Env, s: State, t: State)
    requires ChainsOk(env, s) && RoutingExact(s) && Counted(env, s) && t == s.(template := t.template, store := t.store)
    ensures ChainsOk(env, t) && RoutingExact(t) && Counted(env, t)
  {
    hide ChainLinked, ChainLogged;
    hide Counted;
    CountedFramed(env, s, t);
    forall sid | sid in t.chains
      ensures ChainLinked(env, t, sid, t.chains[sid]) && ChainLogged(t, sid, t.chains[sid])
    {
      ChainFramed(env, s, t, sid, s.chains[sid]);
    }
  }

  /** What the signer emits extends the tip it was signed at. */
  lemma EmitKeepsInv(env: Env, s: State, sid: string, kind: string, body: Json)
    requires Inv(env, s) && sid in s.chains && kind != TURN
    requires
      var f := Signed(env, s.chains[sid].tip, kind, body);
      env.key(f) !in s.dedupe && NoCollisions(env, Accept(env, s, sid, f))
    ensures Inv(env, Accept(env, s, sid, Signed(env, s.chains[sid].tip, kind, body)))
  {
    hide StoreSafety.Good, FrameOp;
    var f := Signed(env, s.chains[sid].tip, kind, body);
    AcceptKeepsChains(env, s, sid, f);
  }

  /** A turn that the store took, accepted at the tip it extends. */
  lemma TurnKeepsInv(env: Env, s: State, sid: string, f: Frame, now: Option<real>)
    requires Inv(env, s) && sid in s.chains && f.kind == TURN
    requires f.pHash == s.chains[sid].tip && env.key(f) !in s.dedupe
    ensures var (store, outcome) := TurnOnStore(env, s, sid, f.actor, f.body, now);
      var applied := s.(store := store);
      && (!outcome.Done? ==> Inv(env, applied))
      && (outcome.Done? && NoCollisions(env, Accept(env, applied, sid, f)) ==> Inv(env, Accept(env, applied, sid, f)))
  {
    hide FrameOp, TurnOnStore, ChainsOk, RoutingExact, Counted, NoCollisions, Record, StoreSafety.Good, Complete;
    TurnKeepsStore(env, s, sid, f, now);
    var (store, outcome) := TurnOnStore(env, s, sid, f.actor, f.body, now);
    var applied := s.(store := store);
    UnreadState(env, s, applied);
    if outcome.Done? && NoCollisions(env, Accept(env, applied, sid, f)) {
      AcceptKeepsChains(env, applied, sid, f);
      AcceptLogs(env, applied, sid, f);
    }
  }

  /** Accepting a frame adds its op and leaves the store alone. */
  lemma AcceptLogs(env: Env, s: State, sid: string, f: Frame)
    requires sid in s.chains
    ensures var t := Accept(env, s, sid, f); t.store == s.store && t.globalOps == s.globalOps + [FrameOp(f, sid)]
  {
  }

  lemma EmitTurnKeepsInv(env: Env, s: State, sid: string, body: TurnCodec.TurnBody, hlc: Option<Hlc.Timestamp>,
                         now: Option<real>)
    requires Inv(env, s) && NoCollisions(env, EmitTurn(env, s, sid, body, hlc, now).0)
    ensures Inv(env, EmitTurn(env, s, sid, body, hlc, now).0)
  {
    hide Inv, NoCollisions, TurnOnStore, Accept, OutboundError, TurnCodec.Serialize;
    if sid in s.chains {
      var f := Signed(env, s.chains[sid].tip, TURN, TurnCodec.Serialize(StampClock(body, hlc)));
      if env.key(f) !in s.dedupe { TurnKeepsInv(env, s, sid, f, now); }
    }
  }

  /** Every frame that reaches a chain extends that chain's tip, whatever its kind. */
  lemma RoutedAtTip(s: State, pHash: string)
    requires RoutingExact(s)
    ensures Route(s, pHash).Some? <==> exists sid :: sid in s.chains && s.chains[sid].tip == pHash
    ensures forall sid :: Route(s, pHash) == Some(sid) <==> sid in s.chains && s.chains[sid].tip == pHash
  {
  }

  lemma HandleFrameKeepsInv(env: Env, s: State, f: Frame, now: Option<real>)
    requires Inv(env, s) && NoCollisions(env, HandleFrame(env, s, f, now).0)
    ensures Inv(env, HandleFrame(env, s, f, now).0)
  {
    hide StoreSafety.Good, TurnOnStore, FrameOp, ChainLinked, ChainLogged, NoCollisions;
    RoutedAtTip(s, f.pHash);
    if env.key(f) !in s.dedupe && Route(s, f.pHash).Some? {
      var sid := Route(s, f.pHash).value;
      if f.kind == TURN {
        TurnKeepsInv(env, s, sid, f, now);
      } else if f.kind == END_OFFERS {
        if env.valid(f) { AcceptKeepsChains(env, s, sid, f); }
      } else {
        TerminateKeepsChains(env, s, sid, f);
      }
    }
  }

  lemma SyncKeepsInv(env: Env, s: State, sid: string, confirmedSeq: int, pendingAck: bool)
    requires Inv(env, s) && sid in s.chains && 0 <= confirmedSeq <= |s.chains[sid].ops|
    ensures Inv(env, s.(chains := s.chains[
      sid := s.chains[sid].(confirmedSeq := confirmedSeq, pendingAck := pendingAck)]))
  {
    hide StoreSafety.Good, Counted, RoutingExact, ChainLinked, ChainLogged;
    var c := s.chains[sid].(confirmedSeq := confirmedSeq, pendingAck := pendingAck);
    var t := s.(chains := s.chains[sid := c]);
    CountedFramed(env, s, t);
    SyncKeepsRouting(s, t);
    SyncKeepsChain(env, s, t, sid, s.chains[sid], c);
    ChainsFramed(env, s, t, sid);
  }

  lemma SyncKeepsChain(env: Env, s: State, t: State, sid: string, c: Chain, d: Chain)
    requires ChainLinked(env, s, sid, c) && ChainLogged(s, sid, c)
    requires d == c.(confirmedSeq := d.confirmedSeq, pendingAck := d.pendingAck) && 0 <= d.confirmedSeq <= |c.ops|
    requires t == s.(chains := t.chains)
    ensures ChainLinked(env, t, sid, d) && ChainLogged(t, sid, d)
  {
    hide Linked, OpsOf, Tagged;
  }

  lemma SyncKeepsRouting(s: State, t: State)
    requires RoutingExact(s) && t.tips == s.tips && t.chains.Keys == s.chains.Keys
    requires forall other :: other in s.chains ==> t.chains[other].tip == s.chains[other].tip
    ensures RoutingExact(t)
  {
  }

  lemma EnvelopeKeepsInv(env: Env, s: State, e: WireEnvelope)
    requires Inv(env, s) && SyncCounts(env)
    ensures Inv(env, HandleEnvelope(env, s, e).0)
  {
    hide Inv, DeltaMatches;
    if e.sessionId in s.chains && EnvelopeOk(env, s.chains[e.sessionId], e) {
      SyncKeepsInv(env, s, e.sessionId, e.next.seqNo, true);
    }
  }

  lemma FlushKeepsInv(env: Env, s: State, sid: string)
    requires Inv(env, s)
    ensures Inv(env, Flush(env, s, sid).0)
  {
    if sid in s.chains { SyncKeepsInv(env, s, sid, s.chains[sid].confirmedSeq, false); }
  }

  lemma EndOffersKeepsInv(env: Env, s: State, sid: string)
    requires Inv(env, s) && NoCollisions(env, EmitEndOffers(env, s, sid).0)
    ensures Inv(env, EmitEndOffers(env, s, sid).0)
  {
    hide Inv, NoCollisions, Accept;
    if EmitEndOffers(env, s, sid).1.Done? { EmitKeepsInv(env, s, sid, END_OFFERS, JObject(map[])); }
  }

  lemma TerminationKeepsInv(env: Env, s: State, sid: string, reason: string, code: Option<string>)
    requires Inv(env, s) && NoCollisions(env, EmitTerminate(env, s, sid, reason, code).0)
    ensures Inv(env, EmitTerminate(env, s, sid, reason, code).0)
  {
    hide Inv, NoCollisions, Accept, TerminateBody;
    if EmitTerminate(env, s, sid, reason, code).1.Done? {
      EmitKeepsInv(env, s, sid, TERMINATE, TerminateBody(reason, code));
    }
  }

  lemma DestroyKeepsInv(env: Env, s: State, sid: string)
    requires Inv(env, s)
    ensures Inv(env, Destroy(s, sid))
  {
    hide StoreSafety.Good, ChainsOk, RoutingExact, Counted;
    DestroyKeepsChains(env, s, sid);
  }

  lemma HostKeepsInv(env: Env, s: State, op: StoreSafety.Op)
    requires Inv(env, s)
    ensures Inv(env, s.(store := StoreSafety.Apply(env.policyOk, s.store, op)))
  {
    hide StoreSafety.Good, StoreSafety.Apply, ChainsOk, RoutingExact, Counted;
    StoreSafety.ApplyKeepsGood(env.policyOk, s.store, op);
    UnreadState(env, s, s.(store := StoreSafety.Apply(env.policyOk, s.store, op)));
  }

  lemma StepKeepsInv(env: Env, s: State, e: Event)
    requires Inv(env, s) && SyncCounts(env) && NoCollisions(env, Step(env, s, e))
    ensures Inv(env, Step(env, s, e))
  {
    hide EmitTurn, EmitEndOffers, EmitTerminate, HandleFrame, HandleEnvelope, Register, Flush, Destroy, NoCollisions,
      StoreSafety.Apply, Inv;
    match e {
      case OnInit(init) => RegisterKeepsInv(env, s, init);
      case DoTurn(sid, body, hlc, now) => EmitTurnKeepsInv(env, s, sid, body, hlc, now);
      case DoEndOffers(sid) => EndOffersKeepsInv(env, s, sid);
      case DoTerminate(sid, reason, code) => TerminationKeepsInv(env, s, sid, reason, code);
      case DoDestroy(sid) => DestroyKeepsInv(env, s, sid);
      case OnFrame(f, now) => HandleFrameKeepsInv(env, s, f, now);
      case OnEnvelope(envelope) => EnvelopeKeepsInv(env, s, envelope);
      case DoFlush(sid) => FlushKeepsInv(env, s, sid);
      case DoStore(op) => HostKeepsInv(env, s, op);
    }
  }

  lemma StartHasInv(env: Env, s: State)
    requires IsStart(s)
    ensures Inv(env, s)
  {
    hide StoreSafety.Good;
  }

  /** The invariant holds after every run whose frames did not collide, from any state that has it. */
  lemma {:induction false} RunKeepsInv(env: Env, start: State, events: seq<Event>)
    requires Inv(env, start) && SyncCounts(env) && NoCollisions(env, Run(env, start, events))
    ensures Inv(env, Run(env, start, events))
  {
    hide Step, NoCollisions, Inv;
    if |events| > 0 {
      var s := Run(env, start, events[..|events| - 1]);
      var e := events[|events| - 1];
      StepGrows(env, s, e);
      EarlierNoCollisions(env, s, Step(env, s, e));
      RunKeepsInv(env, start, events[..|events| - 1]);
      StepKeepsInv(env, s, e);
    }
  }

  // ----- Outbound turns

  /** The frame a turn becomes. */
  function TurnFrame(env: Env, s: State, sid: string, body: TurnCodec.TurnBody, hlc: Option<Hlc.Timestamp>): Frame
    requires sid in s.chains
  {
    Signed(env, s.chains[sid].tip, TURN, TurnCodec.Serialize(StampClock(body, hlc)))
  }

  /** A turn that goes out extends its chain's tip and is logged once in each log; one that does not leaves
      every chain and log alone, and only a turn the store refused has touched the store. */
  lemma OutboundTurn(env: Env, s: State, sid: string, body: TurnCodec.TurnBody, hlc: Option<Hlc.Timestamp>,
                     now: Option<real>)
    ensures var (t, r) := EmitTurn(env, s, sid, body, hlc, now);
      && (!r.Done? ==> t == s.(store := t.store)) && (r.Ignored? ==> t == s)
      && (r.Done? ==>
            && sid in s.chains
            && var f, c := TurnFrame(env, s, sid, body, hlc), s.chains[sid];
            && t.store == TurnOnStore(env, s, sid, f.actor, f.body, now).0
            && TurnOnStore(env, s, sid, f.actor, f.body, now).1.Done?
            && t.accepted == s.accepted + [f] && t.globalOps == s.globalOps + [FrameOp(f, sid)]
            && t.chains == s.chains[sid := c.(
                 tip := env.tip(f), ops := c.ops + [FrameOp(f, sid)], history := c.history + [f])])
  {
    hide TurnOnStore, FrameOp, OutboundError, TurnCodec.Serialize, StampClock;
  }

  // ----- The store over a run

  /** The host exposes no port with a bad limit. */
  predicate ExposesWell(e: Event) {
    e.DoStore? && e.op.DoExpose? ==> NbcStore.NormalizeMaxBindings(e.op.expose.maxBindings).Some?
  }

  /** The operation may bind. */
  predicate MayBind(op: StoreSafety.Op) {
    op.DoBind? || (op.DoExtend? && Trim(op.extend.bindPortId) != "")
  }

  lemma ExtendKeepsComplete(s: NbcStore.Store, input: NbcStore.ExtendInput)
    requires StoreSafety.Good(s) && Complete(s)
    ensures Complete(NbcStore.ExtendOffer(s, input).0)
  {
    StoreSafety.ExtendShape(s, input);
    hide NbcStore.ExtendOffer;
  }

  lemma ExpiryKeepsComplete(s: NbcStore.Store, id: string)
    requires Complete(s)
    ensures Complete(NbcStore.SetPortExpired(s, id)) && Complete(NbcStore.SetOfferExpired(s, id))
  {
    var t := if id in s.offers then s.(offerNbc := s.offerNbc[id := NbcStore.EXPIRED_WINDOW]) else s;
    StoreSafety.ExpireEdgesKeys(t, id, |t.exposes|);
  }

  lemma OthersKeepComplete(s: NbcStore.Store, bind: NbcStore.BindInput, timing: Option<NbcStore.Timing>,
                           id: string, name: string)
    requires Complete(s)
    ensures Complete(NbcStore.BindPort(s, bind, timing).0) && Complete(NbcStore.RegisterParty(s, id, name).0)
  {
    hide NbcStore.Admission, NbcStore.CapacityError, NbcStore.HasBind, Trim;
  }

  lemma HostKeepsComplete(policyOk: Json -> bool, s: NbcStore.Store, op: StoreSafety.Op)
    requires StoreSafety.Good(s) && Complete(s) && ExposesWell(DoStore(op))
    ensures Complete(StoreSafety.Apply(policyOk, s, op))
  {
    GoodParts(s);
    hide StoreSafety.Good, Complete, NbcStore.ExposePort, NbcStore.ExtendOffer, NbcStore.BindPort,
      NbcStore.SetPortExpired, NbcStore.SetOfferExpired, NbcStore.RegisterParty;
    match op
    case DoExpose(input) => ExposePortEffects(policyOk, s, input);
    case DoExtend(input) => ExtendKeepsComplete(s, input);
    case DoBind(input, timing) => OthersKeepComplete(s, input, timing, "", "");
    case DoRegister(id, name) => OthersKeepComplete(s, NbcStore.BindInput("", "", JNull), None, id, name);
    case DoExpirePort(id) => ExpiryKeepsComplete(s, id);
    case DoExpireOffer(id) => ExpiryKeepsComplete(s, id);
  }

  lemma ExtendBinds(s: NbcStore.Store, input: NbcStore.ExtendInput)
    ensures var t := NbcStore.ExtendOffer(s, input).0;
      s.binds <= t.binds && (Trim(input.bindPortId) == "" ==> t.binds == s.binds)
  {
    hide NbcStore.CapacityError, NbcStore.HasBind, Trim;
  }

  lemma BindBinds(s: NbcStore.Store, input: NbcStore.BindInput, timing: Option<NbcStore.Timing>)
    ensures s.binds <= NbcStore.BindPort(s, input, timing).0.binds
  {
    hide NbcStore.CapacityError, NbcStore.Admission, NbcStore.HasBind;
  }

  /** An operation of the host adds a bind only if it may bind, and never removes one. */
  lemma HostBindsAtMost(policyOk: Json -> bool, s: NbcStore.Store, op: StoreSafety.Op)
    requires StoreSafety.Good(s)
    ensures var t := StoreSafety.Apply(policyOk, s, op);
      s.binds <= t.binds && (!MayBind(op) ==> t.binds == s.binds)
  {
    hide NbcStore.ExposePort, NbcStore.ExtendOffer, NbcStore.BindPort, NbcStore.ExpireEdges, Trim;
    GoodParts(s);
    hide StoreSafety.Good;
    match op
    case DoExpose(input) => ExposePortEffects(policyOk, s, input);
    case DoExtend(input) => ExtendBinds(s, input);
    case DoBind(input, timing) => BindBinds(s, input, timing);
    case _ =>
  }

  /** What a step of the runtime itself adds to the store's binds it adds to the log's binding turns. */
  lemma StepBinds(env: Env, s: State, e: Event)
    requires StoreSafety.Good(s.store)
    ensures var t := Step(env, s, e);
      && StoreSafety.Good(t.store)
      && (Complete(s.store) && ExposesWell(e) ==> Complete(t.store))
      && (e.DoStore? ==> t.globalOps == s.globalOps)
      && (!e.DoStore? ==> |t.store.binds| + BindTurns(s.globalOps) == |s.store.binds| + BindTurns(t.globalOps))
  {
    hide StoreSafety.Good, Complete, StoreSafety.Apply, TurnOnStore, FrameOp, BindTurns, IsBindTurn, EnvelopeOk,
      OutboundError, TurnCodec.Serialize, StampClock, NormalizeInit, TemplateMatch;
    match e {
      case DoTurn(sid, body, hlc, now) =>
        if sid in s.chains { TurnBinds(env, s, sid, TurnFrame(env, s, sid, body, hlc), now); }
      case DoEndOffers(sid) =>
        if sid in s.chains { OtherBinds(s, Signed(env, s.chains[sid].tip, END_OFFERS, JObject(map[])), sid); }
      case DoTerminate(sid, reason, code) =>
        if sid in s.chains {
          OtherBinds(s, Signed(env, s.chains[sid].tip, TERMINATE, TerminateBody(reason, code)), sid);
        }
      case OnFrame(f, now) =>
        var sid := Route(s, f.pHash);
        if sid.Some? {
          if f.kind == TURN { TurnBinds(env, s, sid.value, f, now); } else { OtherBinds(s, f, sid.value); }
        }
      case DoStore(op) =>
        StoreSafety.ApplyKeepsGood(env.policyOk, s.store, op);
        if Complete(s.store) && ExposesWell(e) { HostKeepsComplete(env.policyOk, s.store, op); }
      case _ =>
    }
  }

  lemma TurnBinds(env: Env, s: State, sid: string, f: Frame, now: Option<real>)
    requires sid in s.chains && StoreSafety.Good(s.store) && f.kind == TURN
    ensures var (store, outcome) := TurnOnStore(env, s, sid, f.actor, f.body, now);
      && StoreSafety.Good(store) && (Complete(s.store) ==> Complete(store))
      && |store.binds| + BindTurns(s.globalOps) ==
           |s.store.binds| + BindTurns(if outcome.Done? then s.globalOps + [FrameOp(f, sid)] else s.globalOps)
  {
    hide TurnOnStore, StoreSafety.Good, Complete, FrameOp, BindTurns, IsBindTurn;
    TurnKeepsStore(env, s, sid, f, now);
    if Complete(s.store) { TurnLeavesComplete(env, s, sid, f, now); }
    BindTurnsAppend(s.globalOps, FrameOp(f, sid));
  }

  lemma OtherBinds(s: State, f: Frame, sid: string)
    requires f.kind != TURN
    ensures BindTurns(s.globalOps + [FrameOp(f, sid)]) == BindTurns(s.globalOps)
  {
    OtherOpsDoNotBind(f, sid);
    BindTurnsAppend(s.globalOps, FrameOp(f, sid));
  }

  /** How many binds the host made by hand over a run. */
  ghost function HostBinds(env: Env, start: State, events: seq<Event>): int {
    if |events| == 0 then 0
    else
      var s, e := Run(env, start, events[..|events| - 1]), events[|events| - 1];
      HostBinds(env, start, events[..|events| - 1])
        + if e.DoStore? then |Step(env, s, e).store.binds| - |s.store.binds| else 0
  }

  /** After every run, whatever frames it accepted or refused and whatever the host did to the store
      meanwhile: the binds are those there at the start, those made by hand, and one for each turn op
      in the log that names a port. The store's invariant holds, and every port keeps having a policy
      and a window unless the host exposes one with a bad limit. */
  lemma {:induction false} RunBinds(env: Env, start: State, events: seq<Event>)
    requires StoreSafety.Good(start.store)
    ensures var s := Run(env, start, events);
      && StoreSafety.Good(s.store)
      && |s.store.binds| - |start.store.binds|
           == HostBinds(env, start, events) + BindTurns(s.globalOps) - BindTurns(start.globalOps)
      && ((forall i :: 0 <= i < |events| && events[i].DoStore? ==> !MayBind(events[i].op)) ==>
            HostBinds(env, start, events) == 0)
      && (Complete(start.store) && (forall i :: 0 <= i < |events| ==> ExposesWell(events[i])) ==> Complete(s.store))
  {
    hide Step, StoreSafety.Good, Complete, MayBind, ExposesWell, BindTurns;
    if |events| > 0 {
      var front, e := events[..|events| - 1], events[|events| - 1];
      var s := Run(env, start, front);
      RunBinds(env, start, front);
      StepBinds(env, s, e);
      if e.DoStore? { HostStep(env, s, e.op); }
    }
  }

  lemma HostStep(env: Env, s: State, op: StoreSafety.Op)
    requires StoreSafety.Good(s.store)
    ensures !MayBind(op) ==> Step(env, s, DoStore(op)).store.binds == s.store.binds
  {
    HostBindsAtMost(env.policyOk, s.store, op);
  }

  // ----- Single steps of reachable states

  /** The frame went to the one open chain whose tip is its parent hash: it added its op and its key,
      moved that chain's tip or closed that chain, and left every other chain alone. */
  ghost predicate AcceptedBy(env: Env, s: State, f: Frame, t: State, sid: string) {
    && sid in s.chains && s.chains[sid].tip == f.pHash
    && (forall other :: other in s.chains && other != sid ==> s.chains[other].tip != f.pHash)
    && env.valid(f) && env.key(f) !in s.dedupe && t.dedupe == s.dedupe + {env.key(f)}
    && t.accepted == s.accepted + [f] && t.globalOps == s.globalOps + [FrameOp(f, sid)]
    && t.chains - {sid} == s.chains - {sid}
    && if f.kind == TERMINATE then sid !in t.chains && sid in t.ended
       else sid in t.chains && t.chains[sid] == s.chains[sid].(
              tip := env.tip(f), ops := s.chains[sid].ops + [FrameOp(f, sid)], history := s.chains[sid].history + [f])
  }

  lemma AcceptedFrame(env: Env, s: State, sid: string, f: Frame, store: NbcStore.Store)
    requires RoutingExact(s) && sid in s.chains && s.chains[sid].tip == f.pHash
    requires env.valid(f) && env.key(f) !in s.dedupe
    ensures var t := s.(store := store);
      var u := if f.kind == TERMINATE then Destroy(Record(env, t, sid, f), sid) else AcceptAt(env, t, sid, f);
      AcceptedBy(env, s, f, u, sid)
  {
    hide FrameOp;
  }

  /** The frame extends an open chain's tip, is signed, and is a kind the runtime knows; for a turn,
      the store takes it. */
  predicate Acceptable(env: Env, s: State, f: Frame, now: Option<real>, sid: string) {
    && sid in s.chains && s.chains[sid].tip == f.pHash && env.valid(f)
    && (f.kind == END_OFFERS || f.kind == TERMINATE
        || (f.kind == TURN && TurnOnStore(env, s, sid, f.actor, f.body, now).1.Done?))
  }

  /** An inbound frame is ignored exactly when its key was seen, and then changes nothing; a rejected
      one changes no chain, log or bind; one is accepted exactly when it is acceptable, and then, TERMINATE
      included, extends the tip of the one chain it names. */
  lemma InboundFrameExact(env: Env, s: State, f: Frame, now: Option<real>)
    requires Inv(env, s)
    ensures var (t, r) := HandleFrame(env, s, f, now);
      && (r.Ignored? <==> env.key(f) in s.dedupe) && (r.Ignored? ==> t == s)
      && (r.Rejected? ==> t == s.(store := t.store) && t.store.binds == s.store.binds)
      && (r.Done? <==> env.key(f) !in s.dedupe && exists sid :: Acceptable(env, s, f, now, sid))
      && (r.Done? ==> exists sid :: AcceptedBy(env, s, f, t, sid))
  {
    hide StoreSafety.Good, TurnOnStore, FrameOp, ChainsOk, Counted, AcceptedBy, Record, Destroy, AcceptAt;
    RoutedAtTip(s, f.pHash);
    if env.key(f) !in s.dedupe && Route(s, f.pHash).Some? {
      var sid := Route(s, f.pHash).value;
      assert HandleFrame(env, s, f, now).1.Done? <==> Acceptable(env, s, f, now, sid);
      if f.kind == TURN {
        TurnKeepsStore(env, s, sid, f, now);
        var (store, outcome) := TurnOnStore(env, s, sid, f.actor, f.body, now);
        if env.valid(f) { AcceptedFrame(env, s, sid, f, store); }
      } else {
        if env.valid(f) { AcceptedFrame(env, s, sid, f, s.store); }
      }
    }
  }

  lemma StepKeepsKeysSeen(env: Env, s: State, e: Event)
    requires KeysSeen(env, s)
    ensures KeysSeen(env, Step(env, s, e))
  {
    hide TurnOnStore, EnvelopeOk, OutboundError, FrameOp, TurnCodec.Serialize, StampClock;
  }

  lemma {:induction false} RunKeepsKeysSeen(env: Env, start: State, events: seq<Event>, more: seq<Event>)
    requires KeysSeen(env, start)
    ensures KeysSeen(env, Run(env, start, events + more))
    ensures Run(env, start, events).accepted <= Run(env, start, events + more).accepted
    decreases |events| + |more|
  {
    hide Step;
    var all := events + more;
    if |more| > 0 {
      assert all[..|all| - 1] == events + more[..|more| - 1];
      RunKeepsKeysSeen(env, start, events, more[..|more| - 1]);
    } else if |events| > 0 {
      assert all == events && events[..|events| - 1] + [] == events[..|events| - 1];
      RunKeepsKeysSeen(env, start, events[..|events| - 1], []);
    } else {
      assert all == [];
    }
    if |all| > 0 {
      StepKeepsKeysSeen(env, Run(env, start, all[..|all| - 1]), all[|all| - 1]);
      StepGrows(env, Run(env, start, all[..|all| - 1]), all[|all| - 1]);
    }
  }

  /** A frame once sent or accepted changes nothing when it comes again, however much later. */
  lemma EchoesIgnored(env: Env, start: State, events: seq<Event>, more: seq<Event>, f: Frame, now: Option<real>)
    requires KeysSeen(env, start) && f in Run(env, start, events).accepted
    ensures var s := Run(env, start, events + more); HandleFrame(env, s, f, now) == (s, Ignored)
  {
    RunKeepsKeysSeen(env, start, events, more);
    var before, after := Run(env, start, events).accepted, Run(env, start, events + more).accepted;
    var i :| 0 <= i < |before| && before[i] == f;
    assert after[i] == f;
  }

  /** If the chain is open in both states it has kept its init, and its history only grew. */
  predicate HistoryKept(s: State, t: State, sid: string) {
    sid in s.chains && sid in t.chains ==>
      t.chains[sid].init == s.chains[sid].init && s.chains[sid].history <= t.chains[sid].history
  }

  lemma FrameKeepsHistory(env: Env, s: State, f: Frame, now: Option<real>, sid: string)
    ensures HistoryKept(s, HandleFrame(env, s, f, now).0, sid)
  {
    hide TurnOnStore, FrameOp;
  }

  lemma EnvelopeKeepsHistory(env: Env, s: State, e: WireEnvelope, sid: string)
    ensures HistoryKept(s, HandleEnvelope(env, s, e).0, sid)
  {
    hide EnvelopeOk;
  }

  lemma TurnKeepsHistory(env: Env, s: State, on: string, body: TurnCodec.TurnBody, hlc: Option<Hlc.Timestamp>,
                         now: Option<real>, sid: string)
    ensures HistoryKept(s, EmitTurn(env, s, on, body, hlc, now).0, sid)
  {
    hide EmitTurn, FrameOp;
    OutboundTurn(env, s, on, body, hlc, now);
  }

  lemma RegisterKeepsHistory(s: State, init: Init, sid: string)
    ensures HistoryKept(s, Register(s, init).0, sid)
  {
    hide TemplateMatch, NormalizeInit;
  }

  /** A chain that stays open through a step only adds to its history. */
  lemma StepKeepsHistory(env: Env, s: State, e: Event, sid: string)
    ensures HistoryKept(s, Step(env, s, e), sid)
  {
    hide HandleFrame, EmitTurn, HandleEnvelope, Register, FrameOp;
    match e {
      case OnInit(init) => RegisterKeepsHistory(s, init, sid);
      case DoTurn(on, body, hlc, now) => TurnKeepsHistory(env, s, on, body, hlc, now, sid);
      case OnFrame(f, now) => FrameKeepsHistory(env, s, f, now, sid);
      case OnEnvelope(envelope) => EnvelopeKeepsHistory(env, s, envelope, sid);
      case _ =>
    }
  }

  ghost predicate StaysOpen(env: Env, start: State, events: seq<Event>, more: seq<Event>, sid: string) {
    forall k :: 0 <= k <= |more| ==> sid in Run(env, start, events + more[..k]).chains
  }

  lemma {:induction false} OpenChainGrows(env: Env, start: State, events: seq<Event>, more: seq<Event>, sid: string)
    requires StaysOpen(env, start, events, more, sid)
    ensures sid in Run(env, start, events).chains && sid in Run(env, start, events + more).chains
    ensures var c, d := Run(env, start, events).chains[sid], Run(env, start, events + more).chains[sid];
      c.init == d.init && c.history <= d.history
    decreases |more|
  {
    hide Step;
    assert events + more[..0] == events && events + more[..|more|] == events + more;
    if |more| > 0 {
      var front := more[..|more| - 1];
      assert forall k :: 0 <= k <= |front| ==> front[..k] == more[..k];
      OpenChainGrows(env, start, events, front, sid);
      assert (events + more)[..|events + more| - 1] == events + front;
      StepKeepsHistory(env, Run(env, start, events + front), more[|more| - 1], sid);
    }
  }
}
