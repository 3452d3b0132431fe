/** What the theorems about two replicas assume can be met, whatever the hash: two replicas open a chain,
    and one ends its offers on it or both do. */
module Witnesses {
  import opened Text
  import opened CanonicalJson
  import opened Digests
  import opened SessionMerkle
  import opened Frames
  import opened RuntimeModel
  import opened Hosting
  import opened RuntimeSafety
  import opened Agreement
  import opened Exchange
  import opened Wire
  import opened ReadLoop
  import opened Lockstep
  import StoreSafety
  import D = FrameDecoder

  /** A host and the state its runtime starts in. */
  datatype Peer = Peer(host: Host, start: State) {
    /** The runtime takes the init. */
    ghost predicate Opens(init: Init) {
      IsStart(start) && NormalizeInit(init) == Some(init) && Register(start, init).1.Done?
    }

    ghost function After(sha: Sha, events: seq<Event>): State
      requires Sha256Like(sha)
    {
      Run(EnvOf(sha, host), start, events)
    }

    /** The frame with which it ends its offers on a new chain. */
    ghost function Ending(init: Init): Frame { SignedFrame(host.signer, init.genesis, END_OFFERS, JObject(map[])) }
  }

  function Ends(init: Init): seq<Event> { [OnInit(init), DoEndOffers(init.sessionId)] }

  function Hears(init: Init, f: Frame): seq<Event> { [OnInit(init), OnFrame(f, None)] }

  /** One chain, which has accepted one frame. */
  ghost predicate HasOne(sha: Sha, s: State, init: Init, f: Frame)
    requires Sha256Like(sha)
  {
    && s.accepted == [f] && s.geneses == {init.genesis} && init.sessionId in s.chains
    && s.chains[init.sessionId] ==
         Chain(init, TipOf(sha, f), [FrameOp(f, init.sessionId)], 0, false, [f], 0)
  }

  lemma RunOfTwo(env: Env, start: State, a: Event, b: Event)
    ensures Run(env, start, [a, b]) == Step(env, Step(env, start, a), b)
  {
    hide Step;
    var events := [a, b];
    assert events[..1] == [a] && events[..1][..0] == [];
    assert Run(env, start, events[..1]) == Step(env, Run(env, start, []), a);
  }

  /** A chain was just opened, and nothing else has happened. */
  ghost predicate HasNone(s: State, init: Init) {
    && s.accepted == [] && s.globalOps == [] && s.dedupe == {} && s.geneses == {init.genesis}
    && s.chains == map[init.sessionId := Chain(init, init.genesis, [], 0, false, [], 0)]
    && s.tips == map[init.genesis := init.sessionId]
  }

  lemma OpensOne(p: Peer, init: Init)
    requires p.Opens(init)
    ensures HasNone(Register(p.start, init).0, init)
  {
    hide NormalizeInit, TemplateMatch, StoreSafety.Good;
  }

  lemma EndsOne(sha: Sha, p: Peer, s: State, init: Init)
    requires Sha256Like(sha) && HasNone(s, init)
    ensures HasOne(sha, EmitEndOffers(EnvOf(sha, p.host), s, init.sessionId).0, init, p.Ending(init))
  {
    hide FrameOp, FrameText;
  }

  lemma HearsOne(sha: Sha, p: Peer, s: State, init: Init, f: Frame)
    requires Sha256Like(sha) && HasNone(s, init) && f.kind == END_OFFERS && f.pHash == init.genesis
    requires SignatureOk(p.host.verifier, f)
    ensures var (t, r) := HandleFrame(EnvOf(sha, p.host), s, f, None); r.Done? && HasOne(sha, t, init, f)
  {
    hide FrameOp, FrameText, SignatureOk;
  }

  lemma OpensAndEnds(sha: Sha, p: Peer, init: Init)
    requires Sha256Like(sha) && p.Opens(init)
    ensures HasOne(sha, p.After(sha, Ends(init)), init, p.Ending(init))
  {
    hide Run, Register, EmitEndOffers, EnvOf, HasOne, HasNone;
    RunOfTwo(EnvOf(sha, p.host), p.start, OnInit(init), DoEndOffers(init.sessionId));
    OpensOne(p, init);
    EndsOne(sha, p, Register(p.start, init).0, init);
  }

  lemma OpensAndHears(sha: Sha, p: Peer, init: Init, f: Frame)
    requires Sha256Like(sha) && p.Opens(init) && f.kind == END_OFFERS && f.pHash == init.genesis
    requires SignatureOk(p.host.verifier, f)
    ensures HasOne(sha, p.After(sha, Hears(init, f)), init, f)
  {
    hide Run, Register, HandleFrame, EnvOf, HasOne, HasNone, SignatureOk;
    RunOfTwo(EnvOf(sha, p.host), p.start, OnInit(init), OnFrame(f, None));
    OpensOne(p, init);
    HearsOne(sha, p, Register(p.start, init).0, init, f);
  }

  /** Two states with one frame each are apart when the texts do not collide and neither hash is the genesis. */
  lemma OneEachApart(sha: Sha, s: State, t: State, f: Frame, g: Frame, init: Init)
    requires Sha256Like(sha) && HasOne(sha, s, init, f) && HasOne(sha, t, init, g)
    requires CollisionFree(sha, {FrameText(f), FrameText(g)})
    requires TipOf(sha, f) != init.genesis && TipOf(sha, g) != init.genesis
    ensures Apart(sha, s, t)
  {
    hide FrameText, TipOf, FrameOp;
    assert s.accepted + t.accepted == [f, g];
    forall x | x in AcceptedTexts(s) + AcceptedTexts(t) ensures x in {FrameText(f), FrameText(g)} {}
  }

  /** The agreement theorem applies, with a frame on each side and equal tips. */
  lemma RunsMeet(sha: Sha, a: Peer, b: Peer, init: Init)
    requires Sha256Like(sha) && a.Opens(init) && b.Opens(init)
    requires SignatureOk(b.host.verifier, a.Ending(init)) && TipOf(sha, a.Ending(init)) != init.genesis
    ensures var s, t := a.After(sha, Ends(init)), b.After(sha, Hears(init, a.Ending(init)));
      && EventsOk(Ends(init)) && EventsOk(Hears(init, a.Ending(init))) && Apart(sha, s, t)
      && init.sessionId in s.chains && init.sessionId in t.chains
      && s.chains[init.sessionId].history == t.chains[init.sessionId].history == [a.Ending(init)]
      && s.chains[init.sessionId].tip == t.chains[init.sessionId].tip
  {
    hide Run, Apart, FrameText, SignatureOk, FrameOp;
    TerminationIsFrame("", None);
    OpensAndEnds(sha, a, init);
    OpensAndHears(sha, b, init, a.Ending(init));
    OneEachApart(sha, a.After(sha, Ends(init)), b.After(sha, Hears(init, a.Ending(init))),
                 a.Ending(init), a.Ending(init), init);
  }

  /** The divergence theorem applies: both sides end their offers at once, then flush. */
  lemma RunsDiverge(sha: Sha, a: Peer, b: Peer, init: Init)
    requires Sha256Like(sha) && a.Opens(init) && b.Opens(init) && a.host.signer.actor != b.host.signer.actor
    requires CollisionFree(sha, {FrameText(a.Ending(init)), FrameText(b.Ending(init))})
    requires TipOf(sha, a.Ending(init)) != init.genesis && TipOf(sha, b.Ending(init)) != init.genesis
    ensures var more, sid := [DoFlush(init.sessionId)], init.sessionId;
      && EventsOk(Ends(init) + more)
      && StaysOpen(EnvOf(sha, a.host), a.start, Ends(init), more, sid)
      && StaysOpen(EnvOf(sha, b.host), b.start, Ends(init), more, sid)
      && Apart(sha, a.After(sha, Ends(init) + more), b.After(sha, Ends(init) + more))
      && var s, t := a.After(sha, Ends(init)), b.After(sha, Ends(init));
      && sid in s.chains && s.chains[sid].history == [a.Ending(init)]
      && sid in t.chains && t.chains[sid].history == [b.Ending(init)]
      && a.Ending(init) != b.Ending(init)
  {
    hide Run, Apart, FrameText, FrameOp, TipOf, StaysOpen, EnvOf, Register, a.Opens, b.Opens;
    OpensAndEnds(sha, a, init);
    OpensAndEnds(sha, b, init);
    EndsAndFlushes(sha, a, init);
    EndsAndFlushes(sha, b, init);
    var more := [DoFlush(init.sessionId)];
    OneEachApart(sha, a.After(sha, Ends(init)), b.After(sha, Ends(init)), a.Ending(init), b.Ending(init), init);
    SameApart(sha, a.After(sha, Ends(init)), a.After(sha, Ends(init) + more),
              b.After(sha, Ends(init)), b.After(sha, Ends(init) + more));
  }

  lemma SameApart(sha: Sha, s: State, s2: State, t: State, t2: State)
    requires Sha256Like(sha) && Apart(sha, s, t)
    requires s2.accepted == s.accepted && s2.geneses == s.geneses && t2.accepted == t.accepted
    requires t2.geneses == t.geneses
    ensures Apart(sha, s2, t2)
  {
    hide FrameText;
    assert AcceptedTexts(s2) == AcceptedTexts(s) && AcceptedTexts(t2) == AcceptedTexts(t);
  }

  lemma FlushLeavesOpen(env: Env, s: State, sid: string)
    requires sid in s.chains
    ensures var t := Step(env, s, DoFlush(sid));
      && sid in t.chains && t.accepted == s.accepted && t.geneses == s.geneses
      && t.chains[sid].ops == s.chains[sid].ops && t.chains[sid].confirmedSeq == s.chains[sid].confirmedSeq
  {
  }

  lemma EndsAndFlushes(sha: Sha, p: Peer, init: Init)
    requires Sha256Like(sha) && p.Opens(init)
    ensures var more, sid := [DoFlush(init.sessionId)], init.sessionId;
      var s, t := p.After(sha, Ends(init)), p.After(sha, Ends(init) + more);
      && t.accepted == s.accepted && t.geneses == s.geneses
      && StaysOpen(EnvOf(sha, p.host), p.start, Ends(init), more, sid)
  {
    hide FrameText, FrameOp, Step, EnvOf, SignedFrame, Register;
    OpensAndEnds(sha, p, init);
    var more, sid, env := [DoFlush(init.sessionId)], init.sessionId, EnvOf(sha, p.host);
    var all := Ends(init) + more;
    assert all[..|all| - 1] == Ends(init);
    FlushLeavesOpen(env, p.After(sha, Ends(init)), sid);
    forall k | 0 <= k <= |more| ensures sid in Run(env, p.start, Ends(init) + more[..k]).chains {
      assert Ends(init) + more[..0] == Ends(init) && Ends(init) + more[..1] == all;
    }
  }

  /** The envelope theorem applies, and the envelope is accepted: one side ends its offers and flushes, the
      other has received the frame. */
  lemma FlushGetsThrough(sha: Sha, a: Peer, b: Peer, init: Init)
    requires Sha256Like(sha) && a.Opens(init) && b.Opens(init)
    requires SignatureOk(b.host.verifier, a.Ending(init)) && TipOf(sha, a.Ending(init)) != init.genesis
    requires a.host.syncParty.Some? && b.host.syncParty.Some? && a.host.syncParty != b.host.syncParty
    requires CollisionFree(sha, LogTexts(sha, [FrameOp(a.Ending(init), init.sessionId)]))
    ensures var s, t := a.After(sha, Ends(init)), b.After(sha, Hears(init, a.Ending(init)));
      var sent := Flush(EnvOf(sha, a.host), s, init.sessionId).1;
      && init.sessionId in s.chains && init.sessionId in t.chains
      && s.chains[init.sessionId].ops == t.chains[init.sessionId].ops == [FrameOp(a.Ending(init), init.sessionId)]
      && sent.Some? && HandleEnvelope(EnvOf(sha, b.host), t, sent.value).1.Done?
  {
    hide Run, Apart, FrameText, SignatureOk, FrameOp, LogTexts, HandleEnvelope;
    RunsMeet(sha, a, b, init);
    OpensAndEnds(sha, a, init);
    OpensAndHears(sha, b, init, a.Ending(init));
    var s, t := a.After(sha, Ends(init)), b.After(sha, Hears(init, a.Ending(init)));
    var log := s.chains[init.sessionId].ops;
    assert log[..|log|] == log;
    assert LogTexts(sha, log) + LogTexts(sha, log) == LogTexts(sha, log);
    FlushesOne(EnvOf(sha, a.host), s, init.sessionId);
    FlushBetweenRuns(sha, a.host, a.start, Ends(init), b.host, b.start, Hears(init, a.Ending(init)), init.sessionId);
  }

  lemma FlushesOne(env: Env, s: State, sid: string)
    requires env.syncParty.Some? && sid in s.chains && |s.chains[sid].ops| == 1 && s.chains[sid].confirmedSeq == 0
    ensures Flush(env, s, sid).1.Some?
  {
  }

  // ----- A stretch in which an envelope is accepted

  /** One step after a run. */
  lemma StretchOfOne(sha: Sha, r: Stretch)
    requires Sha256Like(sha) && |r.more| == 1
    ensures r.At(sha, 0) == Run(EnvOf(sha, r.host), r.start, r.events)
    ensures r.At(sha, 1) == Step(EnvOf(sha, r.host), r.At(sha, 0), r.more[0])
  {
    hide EnvOf, Step;
    assert r.events + r.more[..0] == r.events;
    AtStep(sha, r, 0);
  }

  lemma EnvelopeLeavesOpen(env: Env, s: State, e: WireEnvelope)
    requires e.sessionId in s.chains && HandleEnvelope(env, s, e).1.Done?
    ensures var t, sid := Step(env, s, OnEnvelope(e)), e.sessionId;
      && sid in t.chains && t.accepted == s.accepted && t.geneses == s.geneses
      && t.chains[sid].ops == s.chains[sid].ops && t.chains[sid].confirmedSeq == e.next.seqNo
  {
    hide EnvelopeOk;
  }

  lemma FlushesAll(sha: Sha, h: Host, s: State, sid: string)
    requires Sha256Like(sha) && Flush(EnvOf(sha, h), s, sid).1.Some?
    ensures var e := Flush(EnvOf(sha, h), s, sid).1.value;
      sid in s.chains && e.sessionId == sid && e.next.seqNo == |s.chains[sid].ops|
  {
    hide RootHex, LeafDigests, OpJsons, SliceTo;
  }

  /** One side's flush and the other side's taking it, as the last steps of their runs. */
  ghost function Flushes(a: Peer, init: Init): Stretch {
    Stretch(a.host, a.start, Ends(init), [DoFlush(init.sessionId)])
  }

  ghost function Confirms(b: Peer, init: Init, f: Frame, e: WireEnvelope): Stretch {
    Stretch(b.host, b.start, Hears(init, f), [OnEnvelope(e)])
  }

  lemma FlushStretch(sha: Sha, a: Peer, init: Init)
    requires Sha256Like(sha) && a.Opens(init)
    ensures var x, sid := Flushes(a, init), init.sessionId;
      && x.At(sha, 0) == a.After(sha, Ends(init)) && x.Open(sha, sid)
      && x.End(sha).accepted == x.At(sha, 0).accepted && x.End(sha).geneses == x.At(sha, 0).geneses
      && x.At(sha, 0).chains[sid].confirmedSeq == 0
      && x.End(sha).chains[sid].ops == [FrameOp(a.Ending(init), sid)]
  {
    hide Run, FrameText, FrameOp, EnvOf, Step, Register, TipOf, Ends;
    var x := Flushes(a, init);
    OpensAndEnds(sha, a, init);
    StretchOfOne(sha, x);
    FlushLeavesOpen(EnvOf(sha, a.host), x.At(sha, 0), init.sessionId);
  }

  lemma ConfirmStretch(sha: Sha, b: Peer, init: Init, f: Frame, e: WireEnvelope)
    requires Sha256Like(sha) && b.Opens(init) && f.kind == END_OFFERS && f.pHash == init.genesis
    requires SignatureOk(b.host.verifier, f) && e.sessionId == init.sessionId
    requires HandleEnvelope(EnvOf(sha, b.host), b.After(sha, Hears(init, f)), e).1.Done?
    ensures var y, sid := Confirms(b, init, f, e), init.sessionId;
      && y.At(sha, 0) == b.After(sha, Hears(init, f)) && y.Open(sha, sid)
      && y.End(sha).accepted == y.At(sha, 0).accepted && y.End(sha).geneses == y.At(sha, 0).geneses
      && y.At(sha, 0).chains[sid].confirmedSeq == 0 && y.End(sha).chains[sid].confirmedSeq == e.next.seqNo
      && y.End(sha).chains[sid].ops == [FrameOp(f, sid)]
  {
    hide Run, FrameText, FrameOp, EnvOf, Step, Register, TipOf, Hears, HandleEnvelope, SignatureOk;
    var y := Confirms(b, init, f, e);
    OpensAndHears(sha, b, init, f);
    StretchOfOne(sha, y);
    EnvelopeLeavesOpen(EnvOf(sha, b.host), y.At(sha, 0), e);
  }

  lemma PrefixOfOne(sha: Sha, op: SessionOp)
    requires Sha256Like(sha)
    ensures LogTexts(sha, [op]) <= PrefixTexts(sha, [op])
  {
    hide LogTexts;
  }

  lemma Joined(sha: Sha, x: Stretch, y: Stretch, sid: string, op: SessionOp)
    requires Sha256Like(sha) && x.Proper() && y.Proper() && x.Open(sha, sid) && y.Open(sha, sid)
    requires Apart(sha, x.At(sha, 0), y.At(sha, 0))
    requires x.End(sha).accepted == x.At(sha, 0).accepted && x.End(sha).geneses == x.At(sha, 0).geneses
    requires y.End(sha).accepted == y.At(sha, 0).accepted && y.End(sha).geneses == y.At(sha, 0).geneses
    requires x.End(sha).chains[sid].ops == [op] && y.End(sha).chains[sid].ops == [op]
    requires CollisionFree(sha, PrefixTexts(sha, [op]))
    ensures Together(sha, x, y, sid)
  {
    hide Run, Apart, PrefixTexts, CollisionFree, EnvOf, IsStart, EventsOk;
    SameApart(sha, x.At(sha, 0), x.End(sha), y.At(sha, 0), y.End(sha));
    assert PrefixTexts(sha, [op]) + PrefixTexts(sha, [op]) == PrefixTexts(sha, [op]);
  }

  lemma FedByEachOther(sha: Sha, x: Stretch, y: Stretch, sid: string, e: WireEnvelope)
    requires Sha256Like(sha) && x.more == [DoFlush(sid)] && y.more == [OnEnvelope(e)]
    requires Flush(EnvOf(sha, x.host), x.At(sha, 0), sid).1 == Some(e)
    ensures FedBy(sha, x, sid, y.more) && FedBy(sha, y, sid, x.more)
  {
    hide Run, EnvOf, Flush;
    assert FlushedBy(sha, x, sid, e);
  }

  lemma WitnessEventsOk(e: WireEnvelope, sid: string)
    ensures EventsOk([DoFlush(sid)]) && EventsOk([OnEnvelope(e)])
  {
  }

  /** What the theorems about confirmed ops assume can be met, with an envelope accepted: both feed each
      other their own flushes alone, and the receiver goes from nothing confirmed to the whole log. */
  lemma ConfirmsTogether(sha: Sha, a: Peer, b: Peer, init: Init)
    requires Sha256Like(sha) && a.Opens(init) && b.Opens(init)
    requires SignatureOk(b.host.verifier, a.Ending(init)) && TipOf(sha, a.Ending(init)) != init.genesis
    requires a.host.syncParty.Some? && b.host.syncParty.Some? && a.host.syncParty != b.host.syncParty
    requires CollisionFree(sha, PrefixTexts(sha, [FrameOp(a.Ending(init), init.sessionId)]))
    ensures var sent := Flush(EnvOf(sha, a.host), a.After(sha, Ends(init)), init.sessionId).1;
      sent.Some? &&
      var x, y, sid := Flushes(a, init), Confirms(b, init, a.Ending(init), sent.value), init.sessionId;
      && Together(sha, x, y, sid) && FedBy(sha, x, sid, y.more) && FedBy(sha, y, sid, x.more)
      && x.At(sha, 0).chains[sid].confirmedSeq == 0
      && y.At(sha, 0).chains[sid].confirmedSeq == 0 && y.At(sha, 1).chains[sid].confirmedSeq == 1
  {
    hide Run, Apart, FrameText, SignatureOk, FrameOp, LogTexts, HandleEnvelope, Flush, EnvOf, IsStart, Register,
      EventOk, HasOne;
    var sid, f := init.sessionId, a.Ending(init);
    PrefixOfOne(sha, FrameOp(f, sid));
    FlushGetsThrough(sha, a, b, init);
    RunsMeet(sha, a, b, init);
    FlushesAll(sha, a.host, a.After(sha, Ends(init)), sid);
    var e := Flush(EnvOf(sha, a.host), a.After(sha, Ends(init)), sid).1.value;
    var x, y := Flushes(a, init), Confirms(b, init, f, e);
    WitnessEventsOk(e, sid);
    hide EventsOk, Ends, Hears, PrefixTexts, CollisionFree;
    FlushStretch(sha, a, init);
    ConfirmStretch(sha, b, init, f, e);
    Joined(sha, x, y, sid, FrameOp(f, sid));
    FedByEachOther(sha, x, y, sid, e);
  }

  // ----- A frame that is sent and taken

  /** What the theorem about one sent frame assumes can be met: two replicas that have just opened a chain,
      and one of them ends its offers. */
  lemma FrameMeets(sha: Sha, a: Peer, b: Peer, init: Init)
    requires Sha256Like(sha) && a.Opens(init) && b.Opens(init) && SignatureOk(b.host.verifier, a.Ending(init))
    ensures var s, t, e, sid := Register(a.start, init).0, Register(b.start, init).0,
                                DoEndOffers(init.sessionId), init.sessionId;
      && Inv(EnvOf(sha, a.host), s) && Inv(EnvOf(sha, b.host), t) && EnvOf(sha, a.host).tip == EnvOf(sha, b.host).tip
      && sid in s.chains && sid in t.chains && s.chains[sid].tip == t.chains[sid].tip && Emits(e, sid)
      && Step(EnvOf(sha, a.host), s, e).accepted == s.accepted + [a.Ending(init)]
      && EnvOf(sha, b.host).key(a.Ending(init)) !in t.dedupe && EnvOf(sha, b.host).valid(a.Ending(init))
      && a.Ending(init).kind != TURN
  {
    hide FrameOp, FrameText, SignatureOk, Inv, Register;
    OpensOne(a, init);
    OpensOne(b, init);
    StartHasInv(EnvOf(sha, a.host), a.start);
    StartHasInv(EnvOf(sha, b.host), b.start);
    RegisterKeepsInv(EnvOf(sha, a.host), a.start, init);
    RegisterKeepsInv(EnvOf(sha, b.host), b.start, init);
  }

  // ----- A run that is sent and taken

  const AtOnce := Answer([], None, false, false)

  ghost function OpenAndEnd(a: Peer, init: Init): seq<Message> { [InitMessage(init), FrameMessage(a.Ending(init))] }

  /** One side opens a chain and ends its offers on it, the other does nothing but read. */
  ghost function Reads(sha: Sha, a: Peer, b: Peer, init: Init): Link
    requires Sha256Like(sha)
  {
    Link(EnvOf(sha, a.host), a.start, Ends(init),
         Delivery(EnvOf(sha, b.host), false, b.start, MeantAll(OpenAndEnd(a, init)), _ => AtOnce))
  }

  lemma SignsEnding(sha: Sha, a: Peer, s: State, init: Init)
    requires Sha256Like(sha) && HasNone(s, init)
    ensures Sent(EnvOf(sha, a.host), s, DoEndOffers(init.sessionId)) == [FrameMessage(a.Ending(init))]
  {
    hide EmitEndOffers, FrameOp, FrameText, TipOf;
    EndsOne(sha, a, s, init);
  }

  lemma WritesInit(sha: Sha, a: Peer, init: Init)
    requires Sha256Like(sha) && a.Opens(init)
    ensures Sent(EnvOf(sha, a.host), a.start, OnInit(init)) == [InitMessage(init)]
  {
    hide Register, NormalizeInit, IsStart, EnvOf;
  }

  /** What the sender's two steps write. */
  lemma SendsBoth(sha: Sha, a: Peer, b: Peer, init: Init)
    requires Sha256Like(sha) && a.Opens(init)
    ensures var l := Reads(sha, a, b, init);
      && l.At(0) == a.start && l.At(1) == Register(a.start, init).0 && l.At(2) == a.After(sha, Ends(init))
      && l.SentBy(2) == OpenAndEnd(a, init)
  {
    hide Register, NormalizeInit, EmitEndOffers, Sent, EnvOf, HasNone, Run, a.Opens, a.Ending;
    var l := Reads(sha, a, b, init);
    OpensOne(a, init);
    WritesInit(sha, a, init);
    RunOfOne(l.a, a.start, OnInit(init));
    assert l.events[..0] == [] && l.events[..2] == l.events;
    SenderStep(l, 0);
    SenderStep(l, 1);
    SignsEnding(sha, a, l.At(1), init);
  }

  lemma NothingCloses(d: Delivery)
    requires !d.closeOnTerminate && forall k :: 0 <= k < |d.ys| ==> d.answers(k) == AtOnce && d.OutcomeOf(k).Done?
    ensures forall k :: 0 <= k < |d.ys| ==> !d.Closing(k)
  {
    hide d.OutcomeOf;
  }

  lemma TakesInit(env: Env, p: Peer, init: Init)
    requires p.Opens(init)
    ensures Process(env, p.start, Meant(InitMessage(init)), None).1.Done?
    ensures HasNone(Run(env, p.start, [OnInit(init)]), init)
  {
    hide Register, NormalizeInit, Process, HasNone, Meant;
    InitProcessed(env, p.start, init, None);
    RunOfOne(env, p.start, OnInit(init));
    OpensOne(p, init);
  }

  lemma TakesEnding(sha: Sha, p: Peer, s: State, init: Init, f: Frame)
    requires Sha256Like(sha) && HasNone(s, init) && f.kind == END_OFFERS && f.pHash == init.genesis
    requires SignatureOk(p.host.verifier, f)
    ensures Process(EnvOf(sha, p.host), s, FrameYield(f), None).1.Done?
  {
    hide HandleFrame, EnvOf, SignatureOk, HasOne;
    HearsOne(sha, p, s, init, f);
    assert init.sessionId in s.chains;
  }

  lemma BothOk(a: Peer, init: Init)
    requires NormalizeInit(init) == Some(init)
    ensures MessageOk(InitMessage(init)) && MessageOk(FrameMessage(a.Ending(init)))
    ensures a.Ending(init).kind == END_OFFERS && a.Ending(init).pHash == init.genesis
  {
    TerminationIsFrame("", None);
  }

  /** The steps that the two messages stand for. */
  lemma StepsOfBoth(sha: Sha, a: Peer, b: Peer, init: Init)
    requires Sha256Like(sha) && NormalizeInit(init) == Some(init)
    ensures var d, f := Reads(sha, a, b, init).d, a.Ending(init);
      && d.ys == [Meant(InitMessage(init)), FrameYield(f)]
      && d.Steps(0) == [] && d.Steps(1) == [OnInit(init)] && d.Steps(2) == Hears(init, f)
  {
    hide EnvOf, MessageOk, EventsFor, IsFrame, NormalizeInit, InitJson;
    var d, f := Reads(sha, a, b, init).d, a.Ending(init);
    BothOk(a, init);
    hide a.Ending;
    MeantEvents(InitMessage(init), None);
    MeantEvents(FrameMessage(f), None);
    assert d.Steps(0) == [];
    assert d.Steps(1) == [OnInit(init)];
  }

  lemma OutcomeAtOnce(d: Delivery, k: nat)
    requires k < |d.ys| && d.answers(k) == AtOnce
    ensures d.OutcomeOf(k) == Process(d.env, Run(d.env, d.from, d.Steps(k)), d.ys[k], None).1
  {
    hide Process, Run;
    assert d.Steps(k) + [] == d.Steps(k);
  }

  lemma OutcomesOfBoth(sha: Sha, a: Peer, b: Peer, init: Init)
    requires Sha256Like(sha) && b.Opens(init) && SignatureOk(b.host.verifier, a.Ending(init))
    ensures var d := Reads(sha, a, b, init).d; d.OutcomeOf(0).Done? && d.OutcomeOf(1).Done?
  {
    hide Run, Process, EnvOf, SignatureOk, HasNone, Meant, MeantAll, Delivery.Steps, Delivery.OutcomeOf;
    var d, f := Reads(sha, a, b, init).d, a.Ending(init);
    BothOk(a, init);
    StepsOfBoth(sha, a, b, init);
    hide b.Opens, a.Ending, Hears;
    OutcomeAtOnce(d, 0);
    OutcomeAtOnce(d, 1);
    RunOfOne(d.env, b.start, OnInit(init));
    TakesInit(d.env, b, init);
    TakesEnding(sha, b, Run(d.env, b.start, [OnInit(init)]), init, f);
  }

  /** What the receiver makes of them. */
  lemma TakesBoth(sha: Sha, a: Peer, b: Peer, init: Init)
    requires Sha256Like(sha) && b.Opens(init) && SignatureOk(b.host.verifier, a.Ending(init))
    ensures var l := Reads(sha, a, b, init);
      && l.d.Steps(2) == Hears(init, a.Ending(init)) && l.Takes(2)
      && forall k :: 0 <= k < 2 ==> !l.d.Closing(k)
  {
    hide EnvOf, SignatureOk, MeantAll, Hears, a.Ending, Delivery.Closing, Delivery.Steps, Delivery.OutcomeOf;
    assert NormalizeInit(init) == Some(init);
    hide b.Opens;
    var d := Reads(sha, a, b, init).d;
    StepsOfBoth(sha, a, b, init);
    OutcomesOfBoth(sha, a, b, init);
    NothingCloses(d);
  }

  lemma ReadsAll(l: Link, ms: seq<Message>, chunks: seq<string>)
    requires l.d.ys == MeantAll(ms) && MessagesOk(ms) && forall k :: 0 <= k < |l.d.ys| ==> !l.d.Closing(k)
    requires D.Flatten(chunks) == D.EncodeAll(TextsOf(ms)) && D.AllWithinCap("", chunks)
    ensures var read := Reading(l, chunks); !read.stopped && read.state == l.Received(|ms|)
  {
    hide MessagesOk, D.Flatten, D.EncodeAll, D.AllWithinCap, TextsOf, ReadChunks, l.d.Closing, l.d.Steps, Run;
    StreamIsRun(l.d, ms, chunks);
  }

  lemma GoesOneWay(sha: Sha, a: Peer, b: Peer, init: Init)
    requires Sha256Like(sha) && a.Opens(init)
    ensures Reads(sha, a, b, init).OneWay()
  {
    hide Run, EnvOf, Sent, Register, Meant, NormalizeInit, StoreSafety.Good, HandleFrame, a.Ending;
    SendsBoth(sha, a, b, init);
  }

  lemma TwoOfEach(a: Peer, init: Init)
    ensures |Ends(init)| == 2 && |OpenAndEnd(a, init)| == 2
  {
  }

  lemma ReadsBoth(sha: Sha, a: Peer, b: Peer, init: Init, chunks: seq<string>)
    requires Sha256Like(sha) && a.Opens(init) && b.Opens(init) && SignatureOk(b.host.verifier, a.Ending(init))
    requires MessagesOk(OpenAndEnd(a, init))
    requires D.Flatten(chunks) == D.EncodeAll(TextsOf(OpenAndEnd(a, init))) && D.AllWithinCap("", chunks)
    ensures var l := Reads(sha, a, b, init);
      && Carries(l, chunks) && !Reading(l, chunks).stopped && l.At(2) == a.After(sha, Ends(init))
      && Reading(l, chunks).state == l.Received(2) == b.After(sha, Hears(init, a.Ending(init)))
  {
    hide Run, EnvOf, SignatureOk, MessageText, D.Flatten, D.EncodeAll, D.AllWithinCap, Sent, Register, MessageOk,
      b.Opens, a.Ending, NormalizeInit, IsStart, Reading, TextsOf, OpenAndEnd, Delivery.Closing, Delivery.OutcomeOf,
      Delivery.Steps, Link.SentBy, Link.Takes, Ends, Hears;
    var l := Reads(sha, a, b, init);
    SendsBoth(sha, a, b, init);
    TakesBoth(sha, a, b, init);
    TwoOfEach(a, init);
    ReadsAll(l, OpenAndEnd(a, init), chunks);
  }

  /** What the theorem about reading a sender's whole run assumes can be met, however its bytes are cut: the
      receiver reads the init and the frame, and stands at the sender's tip. */
  lemma ReaderKeepsUp(sha: Sha, a: Peer, b: Peer, init: Init, chunks: seq<string>)
    requires Sha256Like(sha) && a.Opens(init) && b.Opens(init)
    requires SignatureOk(b.host.verifier, a.Ending(init)) && TipOf(sha, a.Ending(init)) != init.genesis
    requires MessagesOk(OpenAndEnd(a, init))
    requires D.Flatten(chunks) == D.EncodeAll(TextsOf(OpenAndEnd(a, init))) && D.AllWithinCap("", chunks)
    ensures var l, sid := Reads(sha, a, b, init), init.sessionId;
      && l.OneWay() && EventsOk(l.events) && Carries(l, chunks) && Apart(sha, l.At(2), l.Received(2)) && l.Takes(2)
      && !Reading(l, chunks).stopped
      && sid in l.At(2).chains && sid in Reading(l, chunks).state.chains
      && Reading(l, chunks).state.chains[sid].history == [a.Ending(init)]
  {
    hide Run, EnvOf, SignatureOk, MessageText, TipOf, D.Flatten, D.EncodeAll, D.AllWithinCap, Apart, Sent, Register,
      HasOne, MessageOk, EventOk, ReadChunks, a.Opens, b.Opens, a.Ending, EventsOk;
    var l := Reads(sha, a, b, init);
    hide Ends, Hears, OpenAndEnd, Carries, Reading, Delivery.Steps, Link.SentBy, Delivery.OutcomeOf, TextsOf;
    ReadsBoth(sha, a, b, init, chunks);
    GoesOneWay(sha, a, b, init);
    TakesBoth(sha, a, b, init);
    RunsMeet(sha, a, b, init);
  }
}
