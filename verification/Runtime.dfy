/** The multiplex runtime as it is written: objects updated in place, one method per serialised step,
    each proved to take the step of the state machine. */
module Runtime {
  import opened Text
  import opened CanonicalJson
  import opened Digests
  import opened SessionMerkle
  import opened Frames
  import opened NbcTurn
  import opened RuntimeModel
  import opened Hosting
  import opened Wire
  import opened ReadLoop
  import D = FrameDecoder
  import StoreSafety
  import TurnCodec
  import Hlc
  import NbcStore

  class ChainState {
    const init: Init
    const dag: FrameDag
    var sessionOps: seq<SessionOp>
    var confirmedSeq: int
    var pendingAck: bool
    var active: bool
    ghost var history: seq<Frame>
    ghost var since: nat

    constructor (init: Init, dag: FrameDag, ghost since: nat)
      ensures this.init == init && this.dag == dag && active
      ensures Value() == Chain(init, dag.tip, [], 0, false, [], since)
    {
      this.init, this.dag, this.active := init, dag, true;
      this.sessionOps, this.confirmedSeq, this.pendingAck := [], 0, false;
      this.history, this.since := [], since;
    }

    ghost function Value(): Chain
      reads this, dag
    {
      Chain(init, dag.tip, sessionOps, confirmedSeq, pendingAck, history, since)
    }
  }

  class MultiplexSessionRuntime {
    const sha: Sha
    const signer: Signer
    const verifier: Verifier
    const validator: Validator
    const syncParty: Option<string>
    const client: NbcStore.InMemoryStrategy
    var lazyTemplate: Option<Template>
    var chains: map<string, ChainState>
    var tipToSession: map<string, string>
    var globalOps: seq<SessionOp>
    var globalDedupe: set<string>
    var endedSessionIds: set<string>
    ghost var accepted: seq<Frame>
    ghost var geneses: set<string>
    /** The chain objects opened so far, with their hash chains. */
    ghost var cells: set<object>

    ghost predicate Owned()
      reads this`chains, this`cells
    {
      forall sid :: sid in chains ==> chains[sid] in cells && chains[sid].dag in cells
    }

    /** Open chains are active, filed under their own session id, and share nothing. */
    ghost predicate Valid()
      reads this`chains, this`cells, cells
    {
      && Sha256Like(sha) && Owned() && this !in cells && client !in cells
      && (forall sid :: sid in chains ==> chains[sid].active && chains[sid].init.sessionId == sid)
      && (forall a, b :: a in chains && b in chains && a != b ==> chains[a].dag != chains[b].dag)
    }

    ghost function Values(): map<string, Chain>
      requires Owned()
      reads this`chains, this`cells, cells
    {
      map sid | sid in chains :: chains[sid].Value()
    }

    ghost function Model(): State
      requires Owned()
      reads this, cells, client
    {
      State(Values(), tipToSession, globalOps, globalDedupe, endedSessionIds, lazyTemplate,
            client.Model(), accepted, geneses)
    }

    ghost function MyHost(): Host { Host(signer, verifier, client.policyOk, validator, syncParty) }

    ghost function MyEnv(): Env
      requires Sha256Like(sha)
    {
      EnvOf(sha, MyHost())
    }

    constructor (sha: Sha, signer: Signer, verifier: Verifier, validator: Validator, syncParty: Option<string>,
                 client: NbcStore.InMemoryStrategy, template: Option<Template>)
      requires Sha256Like(sha)
      ensures Valid() && Model() == Start(template, client.Model()) && cells == {}
      ensures this.sha == sha && this.client == client
      ensures MyHost() == Host(signer, verifier, client.policyOk, validator, syncParty)
    {
      this.sha, this.signer, this.verifier, this.validator := sha, signer, verifier, validator;
      this.syncParty, this.client, this.lazyTemplate := syncParty, client, template;
      chains, tipToSession, globalOps, globalDedupe, endedSessionIds := map[], map[], [], {}, {};
      accepted, geneses, cells := [], {}, {};
    }

    // ----- What a change to one chain leaves as it was

    /** Changing one chain's objects changes that chain's value alone. */
    twostate lemma OneChainChanged(sid: string)
      requires old(Valid()) && Owned() && chains == old(chains) && sid in chains
      requires forall other :: other in chains && other != sid ==>
        unchanged(chains[other]) && unchanged(chains[other].dag)
      ensures Values() == old(Values())[sid := chains[sid].Value()]
    {
    }

    twostate lemma OneChainAdded(sid: string, new chain: ChainState)
      requires old(Valid()) && sid !in old(chains) && chains == old(chains)[sid := chain]
      requires cells == old(cells) + {chain, chain.dag} && chain !in old(cells) && chain.dag !in old(cells)
      requires chain.active && chain.init.sessionId == sid
      requires forall other :: other in old(chains) ==> unchanged(chains[other]) && unchanged(chains[other].dag)
      ensures Valid() && Values() == old(Values())[sid := chain.Value()]
    {
    }

    twostate lemma OneChainRemoved(sid: string)
      requires old(Valid()) && sid in old(chains) && chains == old(chains) - {sid} && cells == old(cells)
      requires forall other :: other in chains ==> unchanged(chains[other]) && unchanged(chains[other].dag)
      ensures Valid() && Values() == old(Values()) - {sid}
    {
    }

    twostate lemma NoChainChanged()
      requires old(Valid()) && chains == old(chains) && cells == old(cells)
      requires forall sid :: sid in chains ==> unchanged(chains[sid]) && unchanged(chains[sid].dag)
      ensures Valid() && Values() == old(Values())
    {
    }

    // ----- Opening chains

    /** The first init becomes the template; later ones must match it. */
    method MatchTemplate(wire: Init) returns (ok: bool)
      requires Valid()
      modifies this`lazyTemplate
      ensures Valid() && Model() == old(Model()).(template := lazyTemplate)
      ensures ok <==> old(lazyTemplate).None? || TemplateMatch(wire, old(lazyTemplate).value)
      ensures lazyTemplate == if old(lazyTemplate).Some? then old(lazyTemplate)
                              else Some(Template(wire.first, wire.second, Some(wire.sessionId), Some(wire.genesis)))
    {
      if lazyTemplate.None? {
        lazyTemplate := Some(Template(wire.first, wire.second, Some(wire.sessionId), Some(wire.genesis)));
      } else if !TemplateMatch(wire, lazyTemplate.value) {
        return false;
      }
      NoChainChanged();
      return true;
    }

    /** Files a new chain under its session id and routes its genesis to it. */
    method OpenChain(chain: ChainState)
      requires Valid() && chain.init.sessionId !in chains && chain.active
      requires chain !in cells && chain.dag !in cells
      modifies this`chains, this`tipToSession, this`geneses, this`cells
      ensures Valid() && cells == old(cells) + {chain, chain.dag}
      ensures Model() == old(Model()).(
        chains := old(Values())[chain.init.sessionId := chain.Value()],
        tips := old(tipToSession)[chain.init.genesis := chain.init.sessionId],
        geneses := old(geneses) + {chain.init.genesis})
    {
      var sid := chain.init.sessionId;
      chains := chains[sid := chain];
      cells := cells + {chain, chain.dag};
      tipToSession := tipToSession[chain.init.genesis := sid];
      geneses := geneses + {chain.init.genesis};
      OneChainAdded(sid, chain);
      hide Valid, Values, ChainState.Value;
    }

    method RegisterChain(raw: Init) returns (outcome: Outcome)
      requires Valid()
      modifies this
      ensures Valid() && fresh(cells - old(cells))
      ensures (Model(), outcome) == Register(old(Model()), raw)
    {
      hide TemplateMatch, NormalizeInit, ChainState.Value;
      var normalized := NormalizeInit(raw);
      if normalized.None? { return Rejected; }
      var wire := normalized.value;
      var matches := MatchTemplate(wire);
      if !matches || wire.sessionId in chains || wire.genesis in tipToSession { return Rejected; }
      var dag := new FrameDag(wire.genesis);
      var chain := new ChainState(wire, dag, |globalOps|);
      NoChainChanged();
      OpenChain(chain);
      return Done;
    }

    method ResolveChain(pHash: string) returns (c: Option<ChainState>)
      requires Valid()
      ensures c.Some? <==> Route(Model(), pHash).Some?
      ensures c.Some? ==> var sid := Route(Model(), pHash).value; sid in chains && c.value == chains[sid]
    {
      if pHash !in tipToSession { return None; }
      var sid := tipToSession[pHash];
      if sid !in chains || !chains[sid].active { return None; }
      return Some(chains[sid]);
    }

    // ----- The parts of a step

    /** The dedupe key and the ops of one frame. */
    method RecordFrame(c: ChainState, key: string, frame: Frame)
      requires Valid() && c.init.sessionId in chains && chains[c.init.sessionId] == c && key == KeyOf(sha, frame)
      modifies this`globalDedupe, this`globalOps, this`accepted, c`sessionOps, c`history
      ensures Valid() && Model() == Record(MyEnv(), old(Model()), c.init.sessionId, frame)
    {
      hide FrameOp;
      var sid := c.init.sessionId;
      globalDedupe := globalDedupe + {key};
      c.sessionOps := c.sessionOps + [FrameOp(frame, sid)];
      c.history := c.history + [frame];
      globalOps := globalOps + [FrameOp(frame, sid)];
      accepted := accepted + [frame];
      assert Valid();
      OneChainChanged(sid);
      assert c.Value() == old(c.Value()).(ops := c.sessionOps, history := c.history);
      hide Valid, Values, ChainState.Value, KeyOf;
    }

    /** The chain's tip, then its routing entry. */
    method AdvanceTip(c: ChainState, oldP: string, nextTip: string)
      requires Valid() && c.init.sessionId in chains && chains[c.init.sessionId] == c
      modifies this`tipToSession, c.dag
      ensures Valid() && Model() == Advance(old(Model()), c.init.sessionId, oldP, nextTip)
    {
      var sid := c.init.sessionId;
      c.dag.CommitTip(nextTip);
      tipToSession := tipToSession - {oldP};
      tipToSession := tipToSession[c.dag.tip := sid];
      OneChainChanged(sid);
    }

    /** Both halves of accepting a frame. */
    method CommitFrame(c: ChainState, key: string, frame: Frame, oldP: string, nextTip: string)
      requires Valid() && c.init.sessionId in chains && chains[c.init.sessionId] == c && key == KeyOf(sha, frame)
      modifies this, c, c.dag
      ensures Valid() && cells == old(cells)
      ensures var sid := c.init.sessionId;
        Model() == Advance(Record(MyEnv(), old(Model()), sid, frame), sid, oldP, nextTip)
    {
      hide FrameOp, KeyOf, Values, ChainState.Value;
      RecordFrame(c, key, frame);
      AdvanceTip(c, oldP, nextTip);
    }

    /** The store's part of a turn; no chain or log changes. */
    method ApplyFrameTurn(c: ChainState, actor: string, body: Json, now: Option<real>) returns (outcome: Outcome)
      requires Valid() && c.init.sessionId in chains && chains[c.init.sessionId] == c
      modifies client
      ensures Valid() && Values() == old(Values())
      ensures (client.Model(), outcome) == TurnOnStore(MyEnv(), old(Model()), c.init.sessionId, actor, body, now)
      ensures outcome != Ignored
    {
      hide ApplyTurn, TurnCodec.ParseBody;
      assert Model().chains[c.init.sessionId] == c.Value();
      var party := PartyIdForActor(c.init, actor);
      var turn := TurnCodec.ParseBody(body);
      if party.None? || turn.Err? { return Rejected; }
      var r := ApplyNbcTurn(client, validator, party.value, turn.value, NbcStore.Timing(|c.sessionOps|, now));
      NoChainChanged();
      hide Valid, Values;
      return if r.Ok? then Done else Rejected;
    }

    /** The confirmed prefix of a chain and the acknowledgement owed to the peer. */
    method SetSync(c: ChainState, confirmedSeq: int, pendingAck: bool)
      requires Valid() && c.init.sessionId in chains && chains[c.init.sessionId] == c
      modifies c`confirmedSeq, c`pendingAck
      ensures Valid() && Values() == old(Values())[
        c.init.sessionId := old(c.Value()).(confirmedSeq := confirmedSeq, pendingAck := pendingAck)]
      ensures Model() == old(Model()).(chains := Values())
    {
      c.confirmedSeq := confirmedSeq;
      c.pendingAck := pendingAck;
      OneChainChanged(c.init.sessionId);
    }

    // ----- Outbound steps

    /** A signed turn is applied before it is recorded and committed. */
    method CommitOutbound(c: ChainState, key: string, frame: Frame, nextTip: string, now: Option<real>)
      returns (outcome: Outcome)
      requires Valid() && c.init.sessionId in chains && chains[c.init.sessionId] == c
      requires key == KeyOf(sha, frame) && nextTip == TipOf(sha, frame)
      modifies this, cells, client
      ensures Valid() && cells == old(cells)
      ensures (Model(), outcome) == CommitTurn(MyEnv(), old(Model()), c.init.sessionId, frame, now)
    {
      assert Model().chains[c.init.sessionId] == c.Value() && MyEnv().tip(frame) == nextTip;
      hide TurnOnStore, Record, Advance, KeyOf, TipOf, EnvOf, Values, Valid;
      var applied := ApplyFrameTurn(c, frame.actor, frame.body, now);
      if applied != Done { return Rejected; }
      CommitFrame(c, key, frame, c.dag.tip, nextTip);
      return Done;
    }

    method EmitOutboundTurn(sessionId: string, body: TurnCodec.TurnBody, hlc: Option<Hlc.Timestamp>, now: Option<real>)
      returns (outcome: Outcome)
      requires Valid()
      modifies this, cells, client
      ensures Valid() && cells == old(cells)
      ensures (Model(), outcome) == EmitTurn(MyEnv(), old(Model()), sessionId, body, hlc, now)
    {
      hide CommitTurn, OutboundError, StampClock, TurnCodec.Serialize, KeyOf, TipOf, FrameText, Print;
      if sessionId !in chains || !chains[sessionId].active { return Rejected; }
      var chain := chains[sessionId];
      var invalid := ValidateOutboundNbcTurnBind(client, body, validator);
      if invalid.Some? { return Rejected; }
      var wire := TurnCodec.Serialize(StampClock(body, hlc));
      assert Model().chains[sessionId] == chain.Value() && chains[chain.init.sessionId] == chain;
      var frame, nextTip := chain.dag.SignOutboundAtTip(sha, signer, TURN, wire);
      var key := KeyOf(sha, frame);
      assert frame == Signed(MyEnv(), chain.dag.tip, TURN, wire) && MyEnv().key(frame) == key;
      hide EnvOf, Values, Valid;
      if key in globalDedupe { return Ignored; }
      outcome := CommitOutbound(chain, key, frame, nextTip, now);
    }

    method EmitOutboundEndOffers(sessionId: string) returns (outcome: Outcome)
      requires Valid()
      modifies this, cells
      ensures Valid() && cells == old(cells)
      ensures (Model(), outcome) == EmitEndOffers(MyEnv(), old(Model()), sessionId)
    {
      hide Record, Advance, KeyOf, TipOf, FrameText;
      if sessionId !in chains || !chains[sessionId].active { return Rejected; }
      var chain := chains[sessionId];
      var oldP := chain.dag.tip;
      var frame, nextTip := chain.dag.SignOutboundAtTip(sha, signer, END_OFFERS, JObject(map[]));
      var key := KeyOf(sha, frame);
      if key in globalDedupe { return Ignored; }
      CommitFrame(chain, key, frame, oldP, nextTip);
      return Done;
    }

    /** The part of terminate that runs as one step; the caller then destroys the chain. */
    method SendTermination(sessionId: string, reason: string, code: Option<string>) returns (outcome: Outcome)
      requires Valid()
      modifies this, cells
      ensures Valid() && cells == old(cells)
      ensures (Model(), outcome) == EmitTerminate(MyEnv(), old(Model()), sessionId, reason, code)
    {
      hide Record, Advance, KeyOf, TipOf, FrameText;
      if sessionId !in chains || !chains[sessionId].active { return Rejected; }
      var chain := chains[sessionId];
      var body := TerminateBody(reason, code);
      var parentTip := chain.dag.tip;
      var frame, nextTip := chain.dag.SignOutboundAtTip(sha, signer, TERMINATE, body);
      var key := KeyOf(sha, frame);
      if key in globalDedupe { return Ignored; }
      CommitFrame(chain, key, frame, parentTip, nextTip);
      return Done;
    }

    method RemoveTipsForSession(sessionId: string)
      modifies this`tipToSession
      ensures tipToSession
           == map t | t in old(tipToSession) && old(tipToSession)[t] != sessionId :: old(tipToSession)[t]
    {
      var rest := tipToSession.Keys;
      while rest != {}
        invariant rest <= tipToSession.Keys
        invariant tipToSession == map t | t in old(tipToSession) && (t in rest || old(tipToSession)[t] != sessionId)
                                  :: old(tipToSession)[t]
        decreases |rest|
      {
        var tip :| tip in rest;
        if tipToSession[tip] == sessionId { tipToSession := tipToSession - {tip}; }
        rest := rest - {tip};
      }
    }

    method DestroyChain(sessionId: string)
      requires Valid()
      modifies this, cells
      ensures Valid() && cells == old(cells)
      ensures Model() == Destroy(old(Model()), sessionId)
    {
      if sessionId !in chains { return; }
      var c := chains[sessionId];
      c.active := false;
      RemoveTipsForSession(sessionId);
      endedSessionIds := endedSessionIds + {sessionId};
      chains := chains - {sessionId};
      OneChainRemoved(sessionId);
      hide Valid, Values, ChainState.Value;
    }

    // ----- Inbound steps

    /** A termination is checked for its signature alone, any other frame for its parent as well. */
    method VerifyInbound(c: ChainState, frame: Frame) returns (ok: bool)
      ensures ok <==> SignatureOk(verifier, frame) && (frame.kind == TERMINATE || frame.pHash == c.dag.tip)
    {
      if frame.kind == TERMINATE {
        var payload := StableStringify(FrameJson(frame.(sig := "")));
        return verifier(frame.actor, payload, frame.sig);
      }
      var error := c.dag.VerifyInboundChild(frame, verifier);
      return error.None?;
    }

    /** Records a frame and moves the chain's tip to its hash, or closes the chain. */
    method AcceptInbound(c: ChainState, key: string, frame: Frame)
      requires Valid() && c.init.sessionId in chains && chains[c.init.sessionId] == c && key == KeyOf(sha, frame)
      modifies this, cells
      ensures Valid() && cells == old(cells)
      ensures var sid := c.init.sessionId;
        Model() == if frame.kind == TERMINATE then Destroy(Record(MyEnv(), old(Model()), sid, frame), sid)
                   else AcceptAt(MyEnv(), old(Model()), sid, frame)
    {
      hide Record, Advance, Destroy, KeyOf, Values, Print;
      if frame.kind == TERMINATE {
        RecordFrame(c, key, frame);
        DestroyChain(c.init.sessionId);
      } else {
        var wireUtf8 := StableStringify(FrameJson(frame));
        assert wireUtf8 == FrameText(frame);
        CommitFrame(c, key, frame, frame.pHash, ShaHex(sha, wireUtf8));
      }
    }

    /** A frame of a resolved chain: verified, applied to the store if it is a turn, and accepted. */
    method TakeFrame(c: ChainState, key: string, frame: Frame, now: Option<real>) returns (outcome: Outcome)
      requires Valid() && c.init.sessionId in chains && chains[c.init.sessionId] == c && key == KeyOf(sha, frame)
      modifies this, cells, client
      ensures Valid() && cells == old(cells)
      ensures (Model(), outcome) == HandleAt(MyEnv(), old(Model()), c.init.sessionId, frame, now)
    {
      hide TurnOnStore, Record, AcceptAt, Destroy, KeyOf, SignatureOk;
      assert MyEnv().valid(frame) == SignatureOk(verifier, frame);
      hide EnvOf;
      assert Model().chains[c.init.sessionId] == c.Value();
      hide Values, Valid;
      var ok := VerifyInbound(c, frame);
      if !ok { return Rejected; }
      if frame.kind == TURN {
        var applied := ApplyFrameTurn(c, frame.actor, frame.body, now);
        if applied != Done { return Rejected; }
      } else if frame.kind != END_OFFERS && frame.kind != TERMINATE {
        return Rejected;
      }
      AcceptInbound(c, key, frame);
      return Done;
    }

    method HandleInboundFrame(frame: Frame, now: Option<real>) returns (outcome: Outcome)
      requires Valid()
      modifies this, cells, client
      ensures Valid() && cells == old(cells)
      ensures (Model(), outcome) == HandleFrame(MyEnv(), old(Model()), frame, now)
    {
      hide HandleAt, KeyOf, Values;
      var key := KeyOf(sha, frame);
      assert MyEnv().key(frame) == key;
      hide EnvOf;
      if key in globalDedupe { return Ignored; }
      var resolved := ResolveChain(frame.pHash);
      if resolved.None? { return Rejected; }
      outcome := TakeFrame(resolved.value, key, frame, now);
    }

    /** Whether every delta op prints like the local op at its place. */
    method DeltaIsLocal(ops: seq<SessionOp>, baseSeq: int, delta: seq<Json>) returns (ok: bool)
      ensures ok <==> DeltaMatches(ops, baseSeq, delta)
    {
      hide Print, OpJson;
      for i := 0 to |delta|
        invariant forall k :: 0 <= k < i ==> PrintsLike(ops, baseSeq + k, delta[k])
      {
        if baseSeq + i < 0 || baseSeq + i >= |ops| {
          assert !PrintsLike(ops, baseSeq + i, delta[i]);
          return false;
        }
        var mine := StableStringify(OpJson(ops[baseSeq + i]));
        var theirs := StableStringify(delta[i]);
        assert PrintsLike(ops, baseSeq + i, delta[i]) <==> mine == theirs;
        if mine != theirs { return false; }
      }
      return true;
    }

    method HandleInboundSessionEnvelope(envelope: WireEnvelope) returns (outcome: Outcome)
      requires Valid()
      modifies this, cells
      ensures Valid() && cells == old(cells)
      ensures (Model(), outcome) == HandleEnvelope(MyEnv(), old(Model()), envelope)
    {
      hide DeltaMatches, ExtendsBy;
      if syncParty.None? { return Rejected; }
      var sid := envelope.sessionId;
      if sid !in chains {
        return if sid in endedSessionIds then Ignored else Rejected;
      }
      var chain := chains[sid];
      if !chain.active { return Rejected; }
      if envelope.fromParty == syncParty.value { return Rejected; }
      var baseSeq, newSeq, delta := envelope.base.seqNo, envelope.next.seqNo, envelope.deltaOps;
      if |chain.sessionOps| < baseSeq { return Rejected; }
      var extended := VerifySessionOpsExtends(sha, SliceTo(chain.sessionOps, baseSeq), delta, envelope.next);
      if !extended.Extends? { return Rejected; }
      if |chain.sessionOps| < newSeq { return Rejected; }
      if newSeq - baseSeq != |delta| { return Rejected; }
      var same := DeltaIsLocal(chain.sessionOps, baseSeq, delta);
      if !same { return Rejected; }
      SetSync(chain, newSeq, true);
      return Done;
    }

    /** The ops from a base on, between the checkpoints around them. */
    method BuildEnvelope(sessionId: string, party: string, base: seq<SessionOp>, ops: seq<SessionOp>)
      returns (envelope: WireEnvelope)
      requires Sha256Like(sha) && base <= ops
      ensures envelope
           == WireEnvelope(sessionId, party, MyEnv().checkpoint(base), OpJsons(ops[|base|..]), MyEnv().checkpoint(ops))
    {
      hide CheckpointOf, OpJsons;
      var before := CheckpointForSessionOps(sha, base);
      var after := CheckpointForSessionOps(sha, ops);
      return WireEnvelope(sessionId, party, before, OpJsons(ops[|base|..]), after);
    }

    /** The acknowledgement is no longer owed, and the envelope is sent. */
    method SendEnvelope(chain: ChainState, base: seq<SessionOp>, party: string) returns (envelope: WireEnvelope)
      requires Valid() && chain.init.sessionId in chains && chains[chain.init.sessionId] == chain
      requires base <= chain.sessionOps
      modifies chain`confirmedSeq, chain`pendingAck
      ensures Valid() && var sid, ops := chain.init.sessionId, chain.sessionOps;
        && Model() == old(Model()).(chains := old(Values())[sid := old(chain.Value()).(pendingAck := false)])
        && envelope
             == WireEnvelope(sid, party, MyEnv().checkpoint(base), OpJsons(ops[|base|..]), MyEnv().checkpoint(ops))
    {
      hide EnvOf, OpJsons, Values;
      SetSync(chain, chain.confirmedSeq, false);
      envelope := BuildEnvelope(chain.init.sessionId, party, base, chain.sessionOps);
    }

    method FlushSessionEnvelopeFor(sessionId: string) returns (sent: Option<WireEnvelope>)
      requires Valid()
      modifies this, cells
      ensures Valid() && cells == old(cells)
      ensures (Model(), sent) == Flush(MyEnv(), old(Model()), sessionId)
    {
      assert MyEnv().syncParty == syncParty;
      hide EnvOf, OpJsons, SliceTo;
      if syncParty.None? || sessionId !in chains || !chains[sessionId].active { return None; }
      var chain := chains[sessionId];
      assert Model().chains[sessionId] == chain.Value();
      hide Values;
      var baseSlice := SliceTo(chain.sessionOps, chain.confirmedSeq);
      if |chain.sessionOps[|baseSlice|..]| == 0 && !chain.pendingAck { return None; }
      var envelope := SendEnvelope(chain, baseSlice, syncParty.value);
      return Some(envelope);
    }

    // ----- Any step, and the read loop

    /** The host's own operation on the store that the runtime shares with it. */
    method TouchStore(op: StoreSafety.Op)
      requires Valid()
      modifies client
      ensures Valid() && Model() == old(Model()).(store := StoreSafety.Apply(client.policyOk, old(client.Model()), op))
    {
      StoreSafety.Execute(client, op);
      NoChainChanged();
      hide Values, StoreSafety.Apply;
    }

    /** Takes any step, by the method that is written for it. */
    method Perform(e: Event)
      requires Valid()
      modifies this, cells, client
      ensures Valid() && fresh(cells - old(cells)) && Model() == Step(MyEnv(), old(Model()), e)
    {
      hide Register, EmitTurn, EmitEndOffers, EmitTerminate, Destroy, HandleFrame, HandleEnvelope, Flush,
        StoreSafety.Apply, Values;
      match e {
        case OnInit(init) => var r := RegisterChain(init);
        case DoTurn(sid, body, hlc, now) => var r := EmitOutboundTurn(sid, body, hlc, now);
        case DoEndOffers(sid) => var r := EmitOutboundEndOffers(sid);
        case DoTerminate(sid, reason, code) => var r := SendTermination(sid, reason, code);
        case DoDestroy(sid) => DestroyChain(sid);
        case OnFrame(f, now) => var r := HandleInboundFrame(f, now);
        case OnEnvelope(envelope) => var r := HandleInboundSessionEnvelope(envelope);
        case DoFlush(sid) => var r := FlushSessionEnvelopeFor(sid);
        case DoStore(op) => TouchStore(op);
      }
    }

    method PerformAll(events: seq<Event>)
      requires Valid()
      modifies this, cells, client
      ensures Valid() && fresh(cells - old(cells)) && Model() == Run(MyEnv(), old(Model()), events)
    {
      hide Step, Values;
      for i := 0 to |events|
        invariant Valid() && fresh(cells - old(cells)) && Model() == Run(MyEnv(), old(Model()), events[..i])
      {
        assert events[..i + 1][..i] == events[..i];
        Perform(events[i]);
      }
      assert events[..|events|] == events;
    }

    method ProcessYield(part: Yield, now: Option<real>) returns (outcome: Outcome)
      requires Valid()
      modifies this, cells, client
      ensures Valid() && fresh(cells - old(cells)) && (Model(), outcome) == Process(MyEnv(), old(Model()), part, now)
    {
      hide Register, HandleFrame, HandleEnvelope;
      match part {
        case InitYield(v) =>
          var init := InitFromJson(v);
          if init.None? { return Rejected; }
          outcome := RegisterChain(init.value);
        case FrameYield(f) =>
          assert Values().Keys == chains.Keys && |Values()| == |Values().Keys| && |chains| == |chains.Keys|;
          if |chains| == 0 { return Rejected; }
          outcome := HandleInboundFrame(f, now);
        case EnvelopeYield(e) => outcome := HandleInboundSessionEnvelope(e);
        case RawYield => return Rejected;
      }
    }

    /** One payload, with what surrounds it, for a loop that has not stopped. */
    method TakePart(closeOnTerminate: bool, taken: nat, errors: nat, dead: bool, part: Yield, answer: Answer)
      returns (errors': nat, dead': bool, stopped': bool)
      requires Valid()
      modifies this, cells, client
      ensures Valid() && fresh(cells - old(cells))
      ensures Loop(Model(), taken + 1, errors', dead', stopped')
           == TakeOne(MyEnv(), closeOnTerminate, Loop(old(Model()), taken, errors, dead, false), part, answer)
    {
      hide Run, Process, Values;
      PerformAll(answer.before);
      var outcome := ProcessYield(part, answer.now);
      var closes := closeOnTerminate && IsTermination(part) && outcome == Done && !answer.threw;
      dead' := dead || answer.closed || closes;
      if outcome == Rejected || (outcome == Done && answer.threw) {
        errors' := errors + 1;
        stopped' := errors' >= MAX_CONSECUTIVE_FRAME_ERRORS;
        if stopped' { dead' := true; }
        return;
      }
      errors' := 0;
      stopped' := dead';
    }

    /** The payloads of one chunk, up to the one that stops the loop. */
    method TakeParts(closeOnTerminate: bool, taken: nat, errors: nat, dead: bool, parts: seq<Yield>,
                     answers: nat -> Answer)
      returns (taken': nat, errors': nat, dead': bool, stopped': bool)
      requires Valid()
      modifies this, cells, client
      ensures Valid() && fresh(cells - old(cells))
      ensures Loop(Model(), taken', errors', dead', stopped')
           == TakeAll(MyEnv(), closeOnTerminate, Loop(old(Model()), taken, errors, dead, false), parts, answers)
    {
      hide TakeOne, Values;
      taken', errors', dead', stopped' := taken, errors, dead, false;
      ghost var before := Loop(old(Model()), taken, errors, dead, false);
      for i := 0 to |parts|
        invariant Valid() && fresh(cells - old(cells)) && !stopped'
        invariant Loop(Model(), taken', errors', dead', stopped')
               == TakeAll(MyEnv(), closeOnTerminate, before, parts[..i], answers)
      {
        assert parts[..i + 1][..i] == parts[..i];
        var answer := answers(taken');
        errors', dead', stopped' := TakePart(closeOnTerminate, taken', errors', dead', parts[i], answer);
        taken' := taken' + 1;
        if stopped' {
          assert parts[..i + 1] + parts[i + 1..] == parts;
          TakeAppend(MyEnv(), closeOnTerminate, before, parts[..i + 1], parts[i + 1..], answers);
          ghost var last := Loop(Model(), taken', errors', dead', true);
          StoppedTakesNone(MyEnv(), closeOnTerminate, last, parts[i + 1..], answers);
          return;
        }
      }
      assert parts[..|parts|] == parts;
    }

    /** One chunk, for a loop that has not stopped. */
    method ReadOne(closeOnTerminate: bool, taken: nat, errors: nat, dead: bool, decoder: D.Decoder, chunk: string,
                   answers: nat -> Answer)
      returns (taken': nat, errors': nat, dead': bool, stopped': bool)
      requires Valid() && decoder.Valid() && decoder !in cells && decoder.buf !in cells
      modifies this, cells, client, decoder, decoder.buf
      ensures Valid() && fresh(cells - old(cells))
      ensures decoder.Valid() && (fresh(decoder.buf) || decoder.buf == old(decoder.buf))
      ensures decoder !in cells && decoder.buf !in cells
      ensures var l := Loop(old(Model()), taken, errors, dead, false);
        (Loop(Model(), taken', errors', dead', stopped'), decoder.Pending())
          == ReadChunk(MyEnv(), closeOnTerminate, l, old(decoder.Pending()), chunk, answers)
    {
      hide D.Push, TakeAll, Values, YieldsOf;
      var pushed := decoder.PushChunk(chunk);
      NoChainChanged();
      var parts := if pushed.Failed? then [RawYield] else YieldsOf(pushed.payloads);
      taken', errors', dead', stopped' := TakeParts(closeOnTerminate, taken, errors, dead, parts, answers);
    }

    /** Decodes chunk after chunk and processes what they hold, until the channel closes or there are no more. */
    method RunReadLoop(closeOnTerminate: bool, chunks: seq<string>, answers: nat -> Answer)
      returns (taken: nat, errors: nat, dead: bool, stopped: bool)
      requires Valid()
      modifies this, cells, client
      ensures Valid() && fresh(cells - old(cells))
      ensures Loop(Model(), taken, errors, dead, stopped)
           == ReadChunks(MyEnv(), closeOnTerminate, Begin(old(Model())), "", chunks, answers).0
    {
      hide ReadChunk, Values, EnvOf;
      var decoder := new D.Decoder();
      taken, errors, dead, stopped := 0, 0, false, false;
      NoChainChanged();
      ghost var begin := Begin(old(Model()));
      for i := 0 to |chunks|
        invariant Valid() && fresh(cells - old(cells))
        invariant decoder.Valid() && fresh(decoder.buf) && decoder !in cells && decoder.buf !in cells && !stopped
        invariant (Loop(Model(), taken, errors, dead, stopped), decoder.Pending())
               == ReadChunks(MyEnv(), closeOnTerminate, begin, "", chunks[..i], answers)
      {
        assert chunks[..i + 1][..i] == chunks[..i];
        taken, errors, dead, stopped := ReadOne(closeOnTerminate, taken, errors, dead, decoder, chunks[i], answers);
        if stopped {
          StopsReading(MyEnv(), closeOnTerminate, begin, "", chunks, i + 1, answers);
          return;
        }
      }
      assert chunks[..|chunks|] == chunks;
    }
  }
}
