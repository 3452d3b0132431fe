/** Two replicas: what equal tips, equal checkpoints and accepted envelopes say about their logs. */
module Agreement {
  import opened Text
  import opened CanonicalJson
  import opened Digests
  import opened SessionMerkle
  import opened HashChain
  import opened Frames
  import opened NbcTurn
  import opened RuntimeModel
  import opened Hosting
  import opened RuntimeSafety
  import Hlc
  import StoreSafety
  import TurnCodec

  lemma SyncCountsOf(sha: Sha, h: Host)
    requires Sha256Like(sha)
    ensures SyncCounts(EnvOf(sha, h))
  {
  }

  // ----- Only documents are hashed

  /** What the decoder and the caller hand in are JSON documents. */
  ghost predicate EventOk(e: Event) {
    match e
    case OnFrame(f, _) => IsFrame(f)
    case DoTurn(_, body, _, _) => TurnCodec.BodyDocument(body)
    case _ => true
  }

  ghost predicate EventsOk(events: seq<Event>) { forall i :: 0 <= i < |events| ==> EventOk(events[i]) }

  lemma OutboundIsFrame(body: TurnCodec.TurnBody, hlc: Option<Hlc.Timestamp>)
    requires TurnCodec.BodyDocument(body)
    ensures IsDocument(TurnCodec.Serialize(StampClock(body, hlc)))
    ensures TurnCodec.Serialize(StampClock(body, hlc)).JObject?
  {
    TurnCodec.SerializeIsDocument(StampClock(body, hlc));
  }

  lemma TerminationIsFrame(reason: string, code: Option<string>)
    ensures IsDocument(JObject(map[])) && IsDocument(TerminateBody(reason, code))
    ensures TerminateBody(reason, code).JObject?
  {
    ObjectDocument(map[]);
    ObjectDocument(TerminateBody(reason, code).members);
  }

  lemma StepKeepsFrames(env: Env, s: State, e: Event)
    requires AreFrames(s.accepted) && EventOk(e)
    ensures AreFrames(Step(env, s, e).accepted)
  {
    hide TurnOnStore, EnvelopeOk, OutboundError, FrameOp, TurnCodec.Serialize, StampClock, TerminateBody, IsDocument;
    match e
    case DoTurn(sid, body, hlc, now) => OutboundIsFrame(body, hlc);
    case DoTerminate(sid, reason, code) => TerminationIsFrame(reason, code);
    case DoEndOffers(sid) => TerminationIsFrame("", None);
    case _ =>
  }

  lemma {:induction false} RunKeepsFrames(env: Env, start: State, events: seq<Event>)
    requires AreFrames(start.accepted) && EventsOk(events)
    ensures AreFrames(Run(env, start, events).accepted)
  {
    hide Step, EventOk;
    if |events| > 0 {
      RunKeepsFrames(env, start, events[..|events| - 1]);
      StepKeepsFrames(env, Run(env, start, events[..|events| - 1]), events[|events| - 1]);
    }
  }

  // ----- Collisions of texts, as collisions of tips

  ghost function AcceptedTexts(s: State): set<string> { set i | 0 <= i < |s.accepted| :: FrameText(s.accepted[i]) }

  /** The frame texts of the two replicas do not collide, and none hashes to a genesis of either. */
  ghost predicate Apart(sha: Sha, s: State, t: State)
    requires Sha256Like(sha)
  {
    && CollisionFree(sha, AcceptedTexts(s) + AcceptedTexts(t))
    && forall g :: g in s.geneses + t.geneses ==> GenesisApart(TipFn(sha), g, s.accepted + t.accepted)
  }

  lemma FramesDoNotClash(sha: Sha, texts: set<string>, a: seq<Frame>, b: seq<Frame>)
    requires Sha256Like(sha) && CollisionFree(sha, texts) && AreFrames(a) && AreFrames(b)
    requires forall i :: 0 <= i < |a| ==> FrameText(a[i]) in texts
    requires forall i :: 0 <= i < |b| ==> FrameText(b[i]) in texts
    ensures NoClash(TipFn(sha), a, b)
  {
    hide FrameText, IsFrame, TipOf, CollisionFree;
    forall i, j | 0 <= i < |a| && 0 <= j < |b| && TipFn(sha)(a[i]) == TipFn(sha)(b[j]) ensures a[i] == b[j] {
      TipsApart(sha, texts, a[i], b[j]);
    }
  }

  lemma ApartParts(sha: Sha, s: State, t: State, g: string)
    requires Sha256Like(sha) && Apart(sha, s, t) && g in s.geneses + t.geneses
    ensures GenesisApart(TipFn(sha), g, s.accepted) && GenesisApart(TipFn(sha), g, t.accepted)
  {
    hide GenesisApart, CollisionFree, TipFn;
    ApartPart(sha, s.accepted, t.accepted, g);
  }

  lemma ApartPart(sha: Sha, a: seq<Frame>, b: seq<Frame>, g: string)
    requires Sha256Like(sha) && GenesisApart(TipFn(sha), g, a + b)
    ensures GenesisApart(TipFn(sha), g, a) && GenesisApart(TipFn(sha), g, b)
  {
    hide TipFn;
    var all := a + b;
    forall i | 0 <= i < |a| ensures TipFn(sha)(a[i]) != g { assert all[i] == a[i]; }
    forall i | 0 <= i < |b| ensures TipFn(sha)(b[i]) != g { assert all[|a| + i] == b[i]; }
  }

  lemma ApartMeansNoCollisions(sha: Sha, h: Host, s: State, t: State)
    requires Sha256Like(sha) && Apart(sha, s, t) && AreFrames(s.accepted)
    ensures NoCollisions(EnvOf(sha, h), s)
  {
    FramesDoNotClash(sha, AcceptedTexts(s) + AcceptedTexts(t), s.accepted, s.accepted);
    forall g | g in s.geneses ensures GenesisApart(TipFn(sha), g, s.accepted) { ApartParts(sha, s, t, g); }
  }

  lemma ApartSymmetric(sha: Sha, s: State, t: State)
    requires Sha256Like(sha) && Apart(sha, s, t)
    ensures Apart(sha, t, s)
  {
    assert AcceptedTexts(t) + AcceptedTexts(s) == AcceptedTexts(s) + AcceptedTexts(t);
    forall g | g in t.geneses + s.geneses ensures GenesisApart(TipFn(sha), g, t.accepted + s.accepted) {
      ApartParts(sha, s, t, g);
    }
  }

  /** A replica's state after a run, as far as one chain is concerned. */
  lemma ReachedChain(sha: Sha, h: Host, start: State, events: seq<Event>, other: State, sid: string)
    requires Sha256Like(sha) && IsStart(start) && EventsOk(events)
    requires Apart(sha, Run(EnvOf(sha, h), start, events), other)
    ensures var s := Run(EnvOf(sha, h), start, events);
      && Inv(EnvOf(sha, h), s) && AreFrames(s.accepted)
      && (sid in s.chains ==>
            ChainLinked(EnvOf(sha, h), s, sid, s.chains[sid]) && ChainLogged(s, sid, s.chains[sid]))
  {
    hide Run, Apart, NoCollisions;
    var s := Run(EnvOf(sha, h), start, events);
    RunKeepsFrames(EnvOf(sha, h), start, events);
    ApartMeansNoCollisions(sha, h, s, other);
    SyncCountsOf(sha, h);
    StartHasInv(EnvOf(sha, h), start);
    RunKeepsInv(EnvOf(sha, h), start, events);
  }

  lemma HistoriesDoNotClash(sha: Sha, s: State, a: seq<Frame>, t: State, b: seq<Frame>)
    requires Sha256Like(sha) && Apart(sha, s, t) && AreFrames(s.accepted) && AreFrames(t.accepted)
    requires forall i :: 0 <= i < |a| ==> a[i] in s.accepted
    requires forall i :: 0 <= i < |b| ==> b[i] in t.accepted
    ensures NoClash(TipFn(sha), a, b)
  {
    hide FrameText, IsFrame;
    var texts := AcceptedTexts(s) + AcceptedTexts(t);
    forall i | 0 <= i < |a| ensures IsFrame(a[i]) && FrameText(a[i]) in texts {
      var k :| 0 <= k < |s.accepted| && s.accepted[k] == a[i];
    }
    forall i | 0 <= i < |b| ensures IsFrame(b[i]) && FrameText(b[i]) in texts {
      var k :| 0 <= k < |t.accepted| && t.accepted[k] == b[i];
    }
    FramesDoNotClash(sha, texts, a, b);
  }

  lemma GenesisOffHistory(sha: Sha, s: State, t: State, g: string, a: seq<Frame>)
    requires Sha256Like(sha) && Apart(sha, s, t) && g in s.geneses + t.geneses
    requires forall i :: 0 <= i < |a| ==> a[i] in t.accepted
    ensures GenesisApart(TipFn(sha), g, a)
  {
    ApartParts(sha, s, t, g);
    forall i | 0 <= i < |a| ensures TipFn(sha)(a[i]) != g {
      var k :| 0 <= k < |t.accepted| && t.accepted[k] == a[i];
    }
  }

  // ----- Agreement of tips

  /** In every two runs, two open chains have the same tip exactly when they started at the same genesis
      and accepted exactly the same frames in the same order; then, in the same session, they have the
      same ops and the same checkpoint. */
  lemma RunsAgree(
      sha: Sha, ha: Host, sa: State, ea: seq<Event>, hb: Host, sb: State, eb: seq<Event>,
      sidA: string, sidB: string)
    requires Sha256Like(sha) && IsStart(sa) && IsStart(sb) && EventsOk(ea) && EventsOk(eb)
    requires Apart(sha, Run(EnvOf(sha, ha), sa, ea), Run(EnvOf(sha, hb), sb, eb))
    requires sidA in Run(EnvOf(sha, ha), sa, ea).chains && sidB in Run(EnvOf(sha, hb), sb, eb).chains
    ensures var c, d := Run(EnvOf(sha, ha), sa, ea).chains[sidA], Run(EnvOf(sha, hb), sb, eb).chains[sidB];
      && (c.tip == d.tip <==> c.init.genesis == d.init.genesis && c.history == d.history)
      && (c.tip == d.tip && sidA == sidB ==> c.ops == d.ops && CheckpointOf(sha, c.ops) == CheckpointOf(sha, d.ops))
  {
    hide Run, Apart, Inv, CheckpointOf, AreFrames, OpsOf, Tagged, TipOf, FrameText;
    var s, t := Run(EnvOf(sha, ha), sa, ea), Run(EnvOf(sha, hb), sb, eb);
    var c, d := s.chains[sidA], t.chains[sidB];
    ReachedChain(sha, ha, sa, ea, t, sidA);
    ApartSymmetric(sha, s, t);
    ReachedChain(sha, hb, sb, eb, s, sidB);
    if c.tip == d.tip {
      HistoriesDoNotClash(sha, s, c.history, t, d.history);
      GenesisOffHistory(sha, s, t, c.init.genesis, d.history);
      GenesisOffHistory(sha, t, s, d.init.genesis, c.history);
      EqualTipsEqualHistories(ParentHash, TipFn(sha), c.init.genesis, c.history, d.init.genesis, d.history);
    }
  }

  /** Once the histories of two chains differ at one position, their tips never coincide again as long
      as both stay open, whatever either replica does or receives. */
  lemma DivergedRunsStayApart(
      sha: Sha, ha: Host, sa: State, ea: seq<Event>, moreA: seq<Event>,
      hb: Host, sb: State, eb: seq<Event>, moreB: seq<Event>, sidA: string, sidB: string, i: nat)
    requires Sha256Like(sha) && IsStart(sa) && IsStart(sb) && EventsOk(ea + moreA) && EventsOk(eb + moreB)
    requires StaysOpen(EnvOf(sha, ha), sa, ea, moreA, sidA) && StaysOpen(EnvOf(sha, hb), sb, eb, moreB, sidB)
    requires Apart(sha, Run(EnvOf(sha, ha), sa, ea + moreA), Run(EnvOf(sha, hb), sb, eb + moreB))
    requires sidA in Run(EnvOf(sha, ha), sa, ea).chains && sidB in Run(EnvOf(sha, hb), sb, eb).chains
    requires
      var a := Run(EnvOf(sha, ha), sa, ea).chains[sidA].history;
      var b := Run(EnvOf(sha, hb), sb, eb).chains[sidB].history;
      i < |a| && i < |b| && a[i] != b[i]
    ensures var s, t := Run(EnvOf(sha, ha), sa, ea + moreA), Run(EnvOf(sha, hb), sb, eb + moreB);
      sidA in s.chains && sidB in t.chains && s.chains[sidA].tip != t.chains[sidB].tip
  {
    hide Run, Apart, StaysOpen, CheckpointOf, EventsOk;
    OpenChainGrows(EnvOf(sha, ha), sa, ea, moreA, sidA);
    OpenChainGrows(EnvOf(sha, hb), sb, eb, moreB, sidB);
    RunsAgree(sha, ha, sa, ea + moreA, hb, sb, eb + moreB, sidA, sidB);
  }

  // ----- Session envelopes

  /** The envelope's ops are the receiver's own at those places, and its new checkpoint is the
      receiver's own of that prefix. Nothing is asked of the root of the base checkpoint. */
  ghost predicate EnvelopeFits(sha: Sha, h: Host, s: State, e: WireEnvelope)
    requires Sha256Like(sha)
  {
    && h.syncParty.Some? && e.fromParty != h.syncParty.value && e.sessionId in s.chains
    && var ops := s.chains[e.sessionId].ops;
    && 0 <= e.base.seqNo <= e.next.seqNo <= |ops| && e.next.seqNo <= MAX_SAFE_INTEGER
    && e.deltaOps == OpJsons(ops[e.base.seqNo..e.next.seqNo])
    && e.next == CheckpointOf(sha, ops[..e.next.seqNo])
  }

  lemma DeltaIsOwn(ops: seq<SessionOp>, base: int, delta: seq<Json>)
    requires IsLog(ops) && AreDocuments(delta) && 0 <= base && base + |delta| <= |ops|
    ensures DeltaMatches(ops, base, delta) <==> delta == OpJsons(ops[base..base + |delta|])
  {
    hide Print, OpJson, IsDocument, IsOp;
    var own := OpJsons(ops[base..base + |delta|]);
    forall i | 0 <= i < |delta| ensures Print(OpJson(ops[base + i])) == Print(delta[i]) <==> own[i] == delta[i] {
      assert IsOp(ops[base + i]);
      OpDocument(ops[base + i]);
      DocumentTexts(OpJson(ops[base + i]), delta[i]);
    }
    if DeltaMatches(ops, base, delta) {
      forall i | 0 <= i < |delta| ensures own[i] == delta[i] {
        assert PrintsLike(ops, base + i, delta[i]);
      }
    }
  }

  lemma ParsesOwnOps(ops: seq<SessionOp>)
    requires IsLog(ops)
    ensures ParseOps(OpJsons(ops)) == Some(ops)
  {
    hide OpJson, ParseOp, IsOp;
    var js := OpJsons(ops);
    forall i | 0 <= i < |ops| ensures ParseOp(js[i]) == Some(ops[i]) {
      assert IsOp(ops[i]);
      ParseOpJson(ops[i]);
    }
    var parsed := ParseOps(js);
    assert parsed.Some?;
    assert parsed.value == ops;
  }

  /** Claiming the checkpoint of a prefix with the ops that complete it is what extending accepts. */
  lemma ExtendsExactly(sha: Sha, ops: seq<SessionOp>, base: nat, end: nat, claimed: Checkpoint)
    requires Sha256Like(sha) && IsLog(ops) && base <= end <= |ops|
    ensures ExtendsBy(sha, ops[..base], OpJsons(ops[base..end]), claimed).Extends?
       <==> claimed == CheckpointOf(sha, ops[..end]) && end <= MAX_SAFE_INTEGER
  {
    hide OpJsons, ParseOps, LeafDigests, RootHex, IsHexDigest;
    FrontIsLog(ops, end);
    FrontIsLog(ops[..end], base);
    assert ops[..end][base..] == ops[base..end];
    hide IsLog;
    ParsesOwnOps(ops[base..end]);
    assert ops[..base] + ops[base..end] == ops[..end];
    RootHexIsDigest(sha, LeafDigests(sha, ops[..end]));
  }

  /** An envelope is accepted exactly when it fits the receiver's log; a refused one changes nothing. */
  lemma EnvelopeAcceptedExactly(sha: Sha, h: Host, s: State, e: WireEnvelope)
    requires Sha256Like(sha) && AreDocuments(e.deltaOps)
    requires e.sessionId in s.chains ==> IsLog(s.chains[e.sessionId].ops)
    ensures var (t, r) := HandleEnvelope(EnvOf(sha, h), s, e);
      && (r.Done? <==> EnvelopeFits(sha, h, s, e))
      && (r.Ignored? <==> h.syncParty.Some? && e.sessionId !in s.chains && e.sessionId in s.ended)
      && t == if r.Done? then
                s.(chains := s.chains[
                     e.sessionId := s.chains[e.sessionId].(confirmedSeq := e.next.seqNo, pendingAck := true)])
              else s
  {
    hide DeltaMatches, OpJsons, ExtendsBy, CheckpointOf, IsLog, AreDocuments;
    if e.sessionId in s.chains {
      var ops := s.chains[e.sessionId].ops;
      if EnvelopeOk(EnvOf(sha, h), s.chains[e.sessionId], e) { AcceptedLengths(sha, ops, e); }
      if 0 <= e.base.seqNo <= e.next.seqNo <= |ops| && e.next.seqNo - e.base.seqNo == |e.deltaOps| {
        DeltaIsOwn(ops, e.base.seqNo, e.deltaOps);
        ExtendsExactly(sha, ops, e.base.seqNo, e.next.seqNo, e.next);
      }
      if EnvelopeFits(sha, h, s, e) { OpJsonsLength(ops[e.base.seqNo..e.next.seqNo]); }
    }
  }

  lemma OpJsonsLength(ops: seq<SessionOp>)
    ensures |OpJsons(ops)| == |ops|
  {
  }

  /** A negative base never passes: the length claimed would have to be that of the slice it names. */
  lemma AcceptedLengths(sha: Sha, ops: seq<SessionOp>, e: WireEnvelope)
    requires Sha256Like(sha) && e.base.seqNo <= |ops| && e.next.seqNo - e.base.seqNo == |e.deltaOps|
    requires ExtendsBy(sha, SliceTo(ops, e.base.seqNo), e.deltaOps, e.next).Extends?
    ensures 0 <= e.base.seqNo <= e.next.seqNo && SliceTo(ops, e.base.seqNo) == ops[..e.base.seqNo]
  {
    hide RootHex, LeafDigests;
  }

  /** A peer takes the envelope a sender flushed exactly when sync is on, the parties differ, the
      session is open there, and the sender's whole log is a prefix of the peer's own. */
  lemma FlushAcceptedExactly(sha: Sha, ha: Host, s: State, hb: Host, t: State, sid: string)
    requires Sha256Like(sha) && Inv(EnvOf(sha, ha), s) && Flush(EnvOf(sha, ha), s, sid).1.Some? && sid in s.chains
    requires IsLog(s.chains[sid].ops) && (sid in t.chains ==> IsLog(t.chains[sid].ops))
    requires sid in t.chains && |s.chains[sid].ops| <= |t.chains[sid].ops| ==>
      CollisionFree(sha, LogTexts(sha, s.chains[sid].ops) + LogTexts(sha, t.chains[sid].ops[..|s.chains[sid].ops|]))
    ensures
      var log, e := s.chains[sid].ops, Flush(EnvOf(sha, ha), s, sid).1.value;
      HandleEnvelope(EnvOf(sha, hb), t, e).1.Done? <==>
        && hb.syncParty.Some? && hb.syncParty != ha.syncParty && sid in t.chains
        && |log| <= MAX_SAFE_INTEGER && log <= t.chains[sid].ops
    ensures
      var log, (u, r) := s.chains[sid].ops, HandleEnvelope(EnvOf(sha, hb), t, Flush(EnvOf(sha, ha), s, sid).1.value);
      r.Done? ==>
        && sid in t.chains
        && u == t.(chains := t.chains[sid := t.chains[sid].(confirmedSeq := |log|, pendingAck := true)])
  {
    hide HandleEnvelope, Flush, EnvelopeFits, CheckpointOf, IsLog, CollisionFree, LogTexts, OpJsons, Inv, AreDocuments;
    var log, e := s.chains[sid].ops, Flush(EnvOf(sha, ha), s, sid).1.value;
    var base := FlushSends(sha, ha, s, sid);
    EnvelopeAcceptedExactly(sha, hb, t, e);
    if sid in t.chains { FlushedFits(sha, hb, t, e, log, base); }
    if sid !in t.chains { UnknownDoesNotFit(sha, hb, t, e); }
  }

  lemma UnknownDoesNotFit(sha: Sha, h: Host, s: State, e: WireEnvelope)
    requires Sha256Like(sha) && e.sessionId !in s.chains
    ensures !EnvelopeFits(sha, h, s, e)
  {
  }

  /** The envelope a sender builds: its unconfirmed ops between the checkpoints around them. */
  lemma FlushSends(sha: Sha, h: Host, s: State, sid: string) returns (base: nat)
    requires Sha256Like(sha) && Inv(EnvOf(sha, h), s) && Flush(EnvOf(sha, h), s, sid).1.Some? && sid in s.chains
    requires IsLog(s.chains[sid].ops)
    ensures var log, e := s.chains[sid].ops, Flush(EnvOf(sha, h), s, sid).1.value;
      && e.sessionId == sid && h.syncParty == Some(e.fromParty) && base == s.chains[sid].confirmedSeq <= |log|
      && e.base == CheckpointOf(sha, log[..base])
      && e.base.seqNo == base && e.deltaOps == OpJsons(log[base..]) && e.next == CheckpointOf(sha, log)
      && AreDocuments(e.deltaOps)
  {
    hide RoutingExact, Counted, StoreSafety.Good, ChainLinked, OpJsons, AreDocuments, IsLog, RootHex, LeafDigests,
      Tagged, OpsOf;
    assert ChainLogged(s, sid, s.chains[sid]);
    var log := s.chains[sid].ops;
    base := s.chains[sid].confirmedSeq;
    assert SliceTo(log, base) == log[..base];
    FrontIsLog(log, base);
    FlushIsDocuments(log[base..]);
  }

  lemma FlushedFits(sha: Sha, h: Host, t: State, e: WireEnvelope, log: seq<SessionOp>, base: nat)
    requires Sha256Like(sha) && e.sessionId in t.chains && IsLog(log) && IsLog(t.chains[e.sessionId].ops)
    requires base <= |log| && e.base.seqNo == base && e.deltaOps == OpJsons(log[base..])
    requires e.next == CheckpointOf(sha, log)
    requires |log| <= |t.chains[e.sessionId].ops| ==>
      CollisionFree(sha, LogTexts(sha, log) + LogTexts(sha, t.chains[e.sessionId].ops[..|log|]))
    ensures EnvelopeFits(sha, h, t, e) <==>
      && h.syncParty.Some? && h.syncParty.value != e.fromParty
      && |log| <= MAX_SAFE_INTEGER && log <= t.chains[e.sessionId].ops
    ensures e.next.seqNo == |log|
  {
    hide CheckpointOf, IsLog, CollisionFree, LogTexts, OpJsons;
    CheckpointLength(sha, log);
    var own := t.chains[e.sessionId].ops;
    if |log| <= |own| {
      var front := own[..|log|];
      FrontIsLog(own, |log|);
      CheckpointDeterminesLog(sha, log, front);
      if log == front { assert own[base..|log|] == log[base..]; }
    }
  }

  lemma CheckpointLength(sha: Sha, ops: seq<SessionOp>)
    requires Sha256Like(sha)
    ensures CheckpointOf(sha, ops).seqNo == |ops|
  {
  }

  lemma FrontIsLog(ops: seq<SessionOp>, n: nat)
    requires IsLog(ops) && n <= |ops|
    ensures IsLog(ops[..n]) && IsLog(ops[n..])
  {
  }

  lemma FlushIsDocuments(ops: seq<SessionOp>)
    requires IsLog(ops)
    ensures AreDocuments(OpJsons(ops))
  {
    hide OpJson, IsOp, IsDocument;
    forall i | 0 <= i < |ops| ensures IsDocument(OpJsons(ops)[i]) {
      assert IsOp(ops[i]);
      OpDocument(ops[i]);
    }
  }

  lemma OpsAreLog(history: seq<Frame>, accepted: seq<Frame>, sid: string)
    requires AreFrames(accepted) && forall i :: 0 <= i < |history| ==> history[i] in accepted
    ensures IsLog(OpsOf(history, sid))
  {
    hide FrameOp, IsOp, IsFrame;
    forall i | 0 <= i < |history| ensures IsOp(OpsOf(history, sid)[i]) {
      var k :| 0 <= k < |accepted| && accepted[k] == history[i];
      FrameOpIsOp(history[i], sid);
    }
  }

  lemma ReachedLog(sha: Sha, h: Host, start: State, events: seq<Event>, other: State, sid: string)
    requires Sha256Like(sha) && IsStart(start) && EventsOk(events)
    requires Apart(sha, Run(EnvOf(sha, h), start, events), other)
    ensures var s := Run(EnvOf(sha, h), start, events); sid in s.chains ==> IsLog(s.chains[sid].ops)
  {
    hide Run, Apart, Inv, AreFrames, EventsOk, IsLog;
    var s := Run(EnvOf(sha, h), start, events);
    ReachedChain(sha, h, start, events, other, sid);
    if sid in s.chains { OpsAreLog(s.chains[sid].history, s.accepted, sid); }
  }

  /** In every two runs, a peer takes what the sender flushed exactly when the sender's log is a prefix of its own. */
  lemma FlushBetweenRuns(
      sha: Sha, ha: Host, sa: State, ea: seq<Event>, hb: Host, sb: State, eb: seq<Event>, sid: string)
    requires Sha256Like(sha) && IsStart(sa) && IsStart(sb) && EventsOk(ea) && EventsOk(eb)
    requires Apart(sha, Run(EnvOf(sha, ha), sa, ea), Run(EnvOf(sha, hb), sb, eb))
    requires
      var s, t := Run(EnvOf(sha, ha), sa, ea), Run(EnvOf(sha, hb), sb, eb);
      && sid in s.chains && sid in t.chains && Flush(EnvOf(sha, ha), s, sid).1.Some?
      && (|s.chains[sid].ops| <= |t.chains[sid].ops| ==>
            CollisionFree(sha, LogTexts(sha, s.chains[sid].ops)
                               + LogTexts(sha, t.chains[sid].ops[..|s.chains[sid].ops|])))
    ensures
      var s, t := Run(EnvOf(sha, ha), sa, ea), Run(EnvOf(sha, hb), sb, eb);
      HandleEnvelope(EnvOf(sha, hb), t, Flush(EnvOf(sha, ha), s, sid).1.value).1.Done? <==>
        && hb.syncParty.Some? && hb.syncParty != ha.syncParty
        && |s.chains[sid].ops| <= MAX_SAFE_INTEGER && s.chains[sid].ops <= t.chains[sid].ops
  {
    hide Run, Apart, Inv, Flush, HandleEnvelope, EventsOk, CollisionFree, LogTexts, IsLog;
    var s, t := Run(EnvOf(sha, ha), sa, ea), Run(EnvOf(sha, hb), sb, eb);
    ApartSymmetric(sha, s, t);
    ReachedChain(sha, ha, sa, ea, t, sid);
    ReachedLog(sha, ha, sa, ea, t, sid);
    ReachedLog(sha, hb, sb, eb, s, sid);
    FlushAcceptedExactly(sha, ha, s, hb, t, sid);
  }
}
