/** Two replicas that exchange frames and envelopes: after every frame that gets through they stand at
    the same tip, and what one has confirmed is common to both logs. */
module Exchange {
  import opened Text
  import opened Digests
  import opened SessionMerkle
  import opened HashChain
  import opened Frames
  import opened NbcTurn
  import opened RuntimeModel
  import opened Hosting
  import opened RuntimeSafety
  import opened Agreement
  import StoreSafety
  import TurnCodec

  // ----- Frames

  /** The event makes the replica sign a frame on the chain that leaves it open. */
  predicate Emits(e: Event, sid: string) { e == DoEndOffers(sid) || (e.DoTurn? && e.sid == sid) }

  /** The frame extends the chain that accepted it. */
  ghost predicate Extended(env: Env, s: State, t: State, sid: string, f: Frame) {
    && sid in s.chains && sid in t.chains && f.pHash == s.chains[sid].tip
    && t.chains[sid].history == s.chains[sid].history + [f] && t.chains[sid].tip == env.tip(f)
  }

  /** What the replica signs extends its own chain. */
  lemma EmittedExtends(env: Env, s: State, e: Event, sid: string)
    requires sid in s.chains && Emits(e, sid) && |Step(env, s, e).accepted| > |s.accepted|
    ensures var t := Step(env, s, e); var f := t.accepted[|s.accepted|];
      && t.accepted == s.accepted + [f] && Extended(env, s, t, sid, f) && (f.kind == TURN || f.kind == END_OFFERS)
  {
    hide EmitTurn, TurnOnStore, FrameOp, TurnCodec.Serialize, StampClock;
    if e.DoTurn? { OutboundTurn(env, s, sid, e.body, e.hlc, e.now); }
  }

  /** An acceptable frame other than a termination extends the chain that accepts it. */
  lemma ReceivedExtends(env: Env, s: State, f: Frame, now: Option<real>, sid: string)
    requires RoutingExact(s) && env.key(f) !in s.dedupe && Acceptable(env, s, f, now, sid) && f.kind != TERMINATE
    ensures HandleFrame(env, s, f, now).1.Done? && Extended(env, s, HandleFrame(env, s, f, now).0, sid, f)
  {
    hide TurnOnStore, FrameOp;
    RoutedAtTip(s, f.pHash);
  }

  /** Two chains at the same tip are at the same tip again, one frame on, whenever one side signs a turn or
      an end of offers and the other verifies it, has not seen it and, for a turn, its store takes it. */
  lemma SentFrameMeets(a: Env, s: State, e: Event, sidA: string, b: Env, t: State, sidB: string, now: Option<real>)
    requires Inv(a, s) && Inv(b, t) && a.tip == b.tip
    requires sidA in s.chains && sidB in t.chains && s.chains[sidA].tip == t.chains[sidB].tip
    requires Emits(e, sidA) && |Step(a, s, e).accepted| > |s.accepted|
    requires var f := Step(a, s, e).accepted[|s.accepted|];
      && b.key(f) !in t.dedupe && b.valid(f)
      && (f.kind == TURN ==> TurnOnStore(b, t, sidB, f.actor, f.body, now).1.Done?)
    ensures var s2 := Step(a, s, e); var f := s2.accepted[|s.accepted|]; var (t2, r) := HandleFrame(b, t, f, now);
      && r.Done? && Extended(a, s, s2, sidA, f) && Extended(b, t, t2, sidB, f)
      && s2.chains[sidA].tip == t2.chains[sidB].tip
  {
    hide Step, HandleFrame, TurnOnStore, ChainsOk, Counted, StoreSafety.Good, RoutingExact;
    EmittedExtends(a, s, e, sidA);
    ReceivedExtends(b, t, Step(a, s, e).accepted[|s.accepted|], now, sidB);
  }

  // ----- A stretch of a run

  /** A replica's run, of which the last events are looked at one by one. */
  datatype Stretch = Stretch(host: Host, start: State, events: seq<Event>, more: seq<Event>) {
    ghost function At(sha: Sha, k: nat): State
      requires Sha256Like(sha) && k <= |more|
    {
      Run(EnvOf(sha, host), start, events + more[..k])
    }

    ghost function End(sha: Sha): State
      requires Sha256Like(sha)
    {
      At(sha, |more|)
    }

    ghost predicate Open(sha: Sha, sid: string)
      requires Sha256Like(sha)
    {
      forall k :: 0 <= k <= |more| ==> sid in At(sha, k).chains
    }

    ghost predicate Proper() { IsStart(start) && EventsOk(events) && EventsOk(more) }
  }

  lemma AtStep(sha: Sha, r: Stretch, k: nat)
    requires Sha256Like(sha) && k < |r.more|
    ensures r.At(sha, k + 1) == Step(EnvOf(sha, r.host), r.At(sha, k), r.more[k])
  {
    hide EnvOf, Step;
    var all := r.events + r.more[..k + 1];
    assert all[..|all| - 1] == r.events + r.more[..k] && all[|all| - 1] == r.more[k];
  }

  lemma {:induction false} AtGrows(sha: Sha, r: Stretch, k: nat, n: nat)
    requires Sha256Like(sha) && k <= n <= |r.more|
    ensures r.At(sha, k).accepted <= r.At(sha, n).accepted && r.At(sha, k).geneses <= r.At(sha, n).geneses
    decreases n
  {
    hide Step, EnvOf, Run;
    if k < n {
      AtGrows(sha, r, k, n - 1);
      AtStep(sha, r, n - 1);
      StepGrows(EnvOf(sha, r.host), r.At(sha, n - 1), r.more[n - 1]);
    }
  }

  lemma EarlierTexts(s: State, t: State)
    requires s.accepted <= t.accepted
    ensures AcceptedTexts(s) <= AcceptedTexts(t)
  {
    hide FrameText;
    forall i | 0 <= i < |s.accepted| ensures s.accepted[i] == t.accepted[i] {}
  }

  lemma EarlierApart(sha: Sha, s: State, s2: State, t: State)
    requires Sha256Like(sha) && Apart(sha, s2, t) && s.accepted <= s2.accepted && s.geneses <= s2.geneses
    ensures Apart(sha, s, t)
  {
    EarlierTexts(s, s2);
    hide FrameText, AcceptedTexts, TipFn;
    forall g | g in s.geneses + t.geneses ensures GenesisApart(TipFn(sha), g, s.accepted + t.accepted) {
      ApartParts(sha, s2, t, g);
      forall i | 0 <= i < |s.accepted + t.accepted| ensures TipFn(sha)((s.accepted + t.accepted)[i]) != g {
        if i < |s.accepted| { assert s2.accepted[i] == s.accepted[i]; }
      }
    }
  }

  /** Every state of the stretch has the invariant, and the chain's log there is a log of documents. */
  lemma AtHasInv(sha: Sha, r: Stretch, other: State, k: nat, sid: string)
    requires Sha256Like(sha) && r.Proper() && k <= |r.more| && Apart(sha, r.End(sha), other)
    ensures Inv(EnvOf(sha, r.host), r.At(sha, k))
    ensures sid in r.At(sha, k).chains ==> IsLog(r.At(sha, k).chains[sid].ops)
  {
    hide Run, Apart, Inv, IsStart, EventOk, EnvOf, IsLog;
    AtGrows(sha, r, k, |r.more|);
    EarlierApart(sha, r.At(sha, k), r.End(sha), other);
    ReachedChain(sha, r.host, r.start, r.events + r.more[..k], other, sid);
    ReachedLog(sha, r.host, r.start, r.events + r.more[..k], other, sid);
  }

  // ----- Logs

  /** Every text hashed for the checkpoint of some prefix of a log. */
  ghost function PrefixTexts(sha: Sha, ops: seq<SessionOp>): set<string>
    requires Sha256Like(sha)
  {
    LogTexts(sha, ops) + if |ops| == 0 then {} else PrefixTexts(sha, ops[..|ops| - 1])
  }

  lemma {:induction false} PrefixTextsHold(sha: Sha, ops: seq<SessionOp>, n: nat)
    requires Sha256Like(sha) && n <= |ops|
    ensures LogTexts(sha, ops[..n]) <= PrefixTexts(sha, ops)
  {
    hide LogTexts;
    if n == |ops| {
      assert ops[..n] == ops;
    } else {
      PrefixTextsHold(sha, ops[..|ops| - 1], n);
      assert ops[..|ops| - 1][..n] == ops[..n];
    }
  }

  lemma OpsOfPrefix(a: seq<Frame>, b: seq<Frame>, sid: string)
    requires a <= b
    ensures OpsOf(a, sid) <= OpsOf(b, sid)
  {
    hide FrameOp;
    forall i | 0 <= i < |a| ensures OpsOf(a, sid)[i] == OpsOf(b, sid)[i] { assert a[i] == b[i]; }
  }

  /** A step that leaves the chain open only adds to its log. */
  lemma StepKeepsOps(env: Env, s: State, e: Event, sid: string)
    requires sid in s.chains && sid in Step(env, s, e).chains
    requires Inv(env, s) && Inv(env, Step(env, s, e))
    ensures s.chains[sid].ops <= Step(env, s, e).chains[sid].ops
  {
    hide Step, RoutingExact, Counted, StoreSafety.Good, ChainLinked, Tagged, OpsOf;
    var t := Step(env, s, e);
    StepKeepsHistory(env, s, e, sid);
    assert ChainLogged(s, sid, s.chains[sid]) && ChainLogged(t, sid, t.chains[sid]);
    OpsOfPrefix(s.chains[sid].history, t.chains[sid].history, sid);
  }

  lemma {:induction false} OpenLogGrows(sha: Sha, r: Stretch, other: State, k: nat, n: nat, sid: string)
    requires Sha256Like(sha) && r.Proper() && Apart(sha, r.End(sha), other) && r.Open(sha, sid) && k <= n <= |r.more|
    ensures r.At(sha, k).chains[sid].ops <= r.At(sha, n).chains[sid].ops
    decreases n
  {
    hide Run, Apart, Inv, EnvOf, Step, r.Proper, r.At;
    if k < n {
      OpenLogGrows(sha, r, other, k, n - 1, sid);
      AtHasInv(sha, r, other, n - 1, sid);
      AtHasInv(sha, r, other, n, sid);
      AtStep(sha, r, n - 1);
      StepKeepsOps(EnvOf(sha, r.host), r.At(sha, n - 1), r.more[n - 1], sid);
    }
  }

  // ----- Envelopes

  /** The envelope is what the replica flushed at some moment of the stretch. */
  ghost predicate FlushedBy(sha: Sha, r: Stretch, sid: string, e: WireEnvelope)
    requires Sha256Like(sha)
  {
    exists k :: 0 <= k <= |r.more| && Flush(EnvOf(sha, r.host), r.At(sha, k), sid).1 == Some(e)
  }

  /** Every envelope among the events that is for the session came from the other replica's flushes. */
  ghost predicate FedBy(sha: Sha, r: Stretch, sid: string, events: seq<Event>)
    requires Sha256Like(sha)
  {
    forall i :: 0 <= i < |events| && events[i].OnEnvelope? && events[i].envelope.sessionId == sid ==>
      FlushedBy(sha, r, sid, events[i].envelope)
  }

  /** What the chain has confirmed is where the two logs begin alike. */
  ghost predicate Common(c: Chain, other: seq<SessionOp>) {
    0 <= c.confirmedSeq <= |c.ops| && c.confirmedSeq <= |other| && c.ops[..c.confirmedSeq] == other[..c.confirmedSeq]
  }

  /** Only an envelope for the session moves what is confirmed. */
  lemma OthersConfirmNothing(env: Env, s: State, e: Event, sid: string)
    requires sid in s.chains && sid in Step(env, s, e).chains
    requires !(e.OnEnvelope? && e.envelope.sessionId == sid)
    ensures Step(env, s, e).chains[sid].confirmedSeq == s.chains[sid].confirmedSeq
  {
    hide TurnOnStore, EnvelopeOk, OutboundError, FrameOp, TurnCodec.Serialize, StampClock, StoreSafety.Apply;
  }

  lemma RefusalChangesNothing(env: Env, s: State, e: WireEnvelope)
    ensures !HandleEnvelope(env, s, e).1.Done? ==> HandleEnvelope(env, s, e).0 == s
  {
    hide EnvelopeOk;
  }

  lemma CommonGrows(c: Chain, d: Chain, log: seq<SessionOp>)
    requires Common(c, log) && c.ops <= d.ops && d.confirmedSeq == c.confirmedSeq
    ensures Common(d, log)
  {
    assert d.ops[..c.confirmedSeq] == c.ops[..c.confirmedSeq];
  }

  /** An envelope flushed at a log that begins the sender's final log confirms a common prefix, or is refused. */
  lemma FlushConfirmsCommon(
      sha: Sha, ha: Host, s: State, hb: Host, t: State, e: WireEnvelope, sid: string,
      log: seq<SessionOp>, own: seq<SessionOp>)
    requires Sha256Like(sha) && Inv(EnvOf(sha, ha), s) && sid in s.chains && sid in t.chains
    requires Flush(EnvOf(sha, ha), s, sid).1 == Some(e)
    requires IsLog(s.chains[sid].ops) && IsLog(t.chains[sid].ops)
    requires s.chains[sid].ops <= log && t.chains[sid].ops <= own
    requires CollisionFree(sha, PrefixTexts(sha, log) + PrefixTexts(sha, own))
    requires Common(t.chains[sid], log)
    ensures var u := HandleEnvelope(EnvOf(sha, hb), t, e).0; sid in u.chains && Common(u.chains[sid], log)
  {
    hide Inv, Flush, HandleEnvelope, IsLog, LogTexts, PrefixTexts;
    var n := |s.chains[sid].ops|;
    PrefixTextsHold(sha, log, n);
    assert log[..n] == s.chains[sid].ops;
    if n <= |t.chains[sid].ops| {
      PrefixTextsHold(sha, own, n);
      assert own[..n] == t.chains[sid].ops[..n];
    }
    FlushAcceptedExactly(sha, ha, s, hb, t, sid);
    RefusalChangesNothing(EnvOf(sha, hb), t, e);
  }

  /** Two replicas keep a session open over a stretch of their runs, and neither their frames nor the
      prefixes of their logs collide. */
  ghost predicate Together(sha: Sha, a: Stretch, b: Stretch, sid: string)
    requires Sha256Like(sha)
  {
    && a.Proper() && b.Proper() && a.Open(sha, sid) && b.Open(sha, sid) && Apart(sha, a.End(sha), b.End(sha))
    && CollisionFree(sha, PrefixTexts(sha, a.End(sha).chains[sid].ops) + PrefixTexts(sha, b.End(sha).chains[sid].ops))
  }

  lemma EnvelopeConfirmsCommon(sha: Sha, a: Stretch, b: Stretch, n: nat, sid: string)
    requires Sha256Like(sha) && Together(sha, a, b, sid) && n < |b.more|
    requires b.more[n].OnEnvelope? && b.more[n].envelope.sessionId == sid && FlushedBy(sha, a, sid, b.more[n].envelope)
    requires Common(b.At(sha, n).chains[sid], a.End(sha).chains[sid].ops)
    ensures Common(b.At(sha, n + 1).chains[sid], a.End(sha).chains[sid].ops)
  {
    hide Run, Apart, Inv, Flush, HandleEnvelope, IsLog, PrefixTexts, CollisionFree, EnvOf, Common,
      a.Proper, b.Proper, a.At, b.At;
    var e := b.more[n].envelope;
    var k :| 0 <= k <= |a.more| && Flush(EnvOf(sha, a.host), a.At(sha, k), sid).1 == Some(e);
    ApartSymmetric(sha, a.End(sha), b.End(sha));
    AtHasInv(sha, a, b.End(sha), k, sid);
    AtHasInv(sha, b, a.End(sha), n, sid);
    OpenLogGrows(sha, a, b.End(sha), k, |a.more|, sid);
    OpenLogGrows(sha, b, a.End(sha), n, |b.more|, sid);
    AtStep(sha, b, n);
    FlushConfirmsCommon(sha, a.host, a.At(sha, k), b.host, b.At(sha, n), e, sid,
                        a.End(sha).chains[sid].ops, b.End(sha).chains[sid].ops);
  }

  /** If one replica is handed no envelopes for the session but those the other flushed, in any order, late,
      repeated or not at all, and had confirmed nothing at first, then at every later moment the ops it has
      confirmed are the first ops of both logs. */
  lemma {:induction false} ConfirmedIsCommon(sha: Sha, a: Stretch, b: Stretch, n: nat, sid: string)
    requires Sha256Like(sha) && Together(sha, a, b, sid) && n <= |b.more|
    requires FedBy(sha, a, sid, b.more) && b.At(sha, 0).chains[sid].confirmedSeq == 0
    ensures Common(b.At(sha, n).chains[sid], a.End(sha).chains[sid].ops)
    decreases n
  {
    hide Run, Apart, Inv, PrefixTexts, CollisionFree, EnvOf, a.Proper, b.Proper, a.At, b.At, Step, FlushedBy;
    if n > 0 {
      ConfirmedIsCommon(sha, a, b, n - 1, sid);
      var e := b.more[n - 1];
      if e.OnEnvelope? && e.envelope.sessionId == sid {
        EnvelopeConfirmsCommon(sha, a, b, n - 1, sid);
      } else {
        ApartSymmetric(sha, a.End(sha), b.End(sha));
        AtStep(sha, b, n - 1);
        OthersConfirmNothing(EnvOf(sha, b.host), b.At(sha, n - 1), e, sid);
        OpenLogGrows(sha, b, a.End(sha), n - 1, n, sid);
        CommonGrows(b.At(sha, n - 1).chains[sid], b.At(sha, n).chains[sid], a.End(sha).chains[sid].ops);
      }
    }
  }

  /** When both are fed by each other alone, what either has confirmed begins both logs. */
  lemma BothConfirmCommon(sha: Sha, a: Stretch, b: Stretch, sid: string)
    requires Sha256Like(sha) && Together(sha, a, b, sid)
    requires FedBy(sha, a, sid, b.more) && b.At(sha, 0).chains[sid].confirmedSeq == 0
    requires FedBy(sha, b, sid, a.more) && a.At(sha, 0).chains[sid].confirmedSeq == 0
    ensures Common(a.End(sha).chains[sid], b.End(sha).chains[sid].ops)
    ensures Common(b.End(sha).chains[sid], a.End(sha).chains[sid].ops)
  {
    hide Run, Apart, PrefixTexts, EnvOf, a.Proper, b.Proper, a.At, b.At, FedBy, Common;
    ApartSymmetric(sha, a.End(sha), b.End(sha));
    var x, y := PrefixTexts(sha, a.End(sha).chains[sid].ops), PrefixTexts(sha, b.End(sha).chains[sid].ops);
    assert x + y == y + x;
    ConfirmedIsCommon(sha, a, b, |b.more|, sid);
    ConfirmedIsCommon(sha, b, a, |a.more|, sid);
  }
}
