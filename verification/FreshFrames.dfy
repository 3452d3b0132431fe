/** Which frames are taken for echoes: over SHA-256 a frame that extends an open chain is new, unless the chain
    was opened before at the same genesis and took a frame with the same signature then. */
module FreshFrames {
  import opened Text
  import opened CanonicalJson
  import opened Digests
  import opened HashChain
  import opened Frames
  import opened NbcTurn
  import opened RuntimeModel
  import opened Hosting
  import opened RuntimeSafety
  import opened Agreement
  import StoreSafety
  import TurnCodec

  // ----- Echoes

  /** What identifies a frame among those seen. */
  function KeyText(f: Frame): string { f.pHash + ":" + f.sig }

  ghost function KeyTexts(s: State, f: Frame): set<string> {
    {KeyText(f)} + set i | 0 <= i < |s.accepted| :: KeyText(s.accepted[i])
  }

  /** Some accepted frame is identified by the same text. */
  ghost predicate SeenBefore(s: State, f: Frame) {
    exists i :: 0 <= i < |s.accepted| && KeyText(s.accepted[i]) == KeyText(f)
  }

  /** A key was seen exactly when a frame identified by the same text was accepted. */
  lemma KeySeenExactly(sha: Sha, h: Host, s: State, f: Frame)
    requires Sha256Like(sha) && Counted(EnvOf(sha, h), s) && CollisionFree(sha, KeyTexts(s, f))
    ensures EnvOf(sha, h).key(f) in s.dedupe <==> SeenBefore(s, f)
  {
    var env := EnvOf(sha, h);
    if env.key(f) in s.dedupe {
      var i :| 0 <= i < |s.accepted| && env.key(s.accepted[i]) == env.key(f);
      assert KeyText(s.accepted[i]) in KeyTexts(s, f);
      ShaHexInjective(sha, KeyTexts(s, f), KeyText(s.accepted[i]), KeyText(f));
    }
  }

  /** An inbound frame is taken for an echo exactly when a frame with the same parent and signature text was
      accepted before. */
  lemma IgnoredExactly(sha: Sha, h: Host, s: State, f: Frame, now: Option<real>)
    requires Sha256Like(sha) && Inv(EnvOf(sha, h), s) && CollisionFree(sha, KeyTexts(s, f))
    ensures HandleFrame(EnvOf(sha, h), s, f, now).1.Ignored? <==> SeenBefore(s, f)
  {
    hide EnvOf, StoreSafety.Good, ChainsOk, RoutingExact, KeyTexts, CollisionFree, HandleFrame;
    KeySeenExactly(sha, h, s, f);
    InboundFrameExact(EnvOf(sha, h), s, f, now);
  }

  // ----- Parents are past

  /** The parent hash is a genesis, or the tip that some accepted frame led to. */
  ghost predicate Grounded(env: Env, s: State, parent: string) {
    parent in s.geneses || exists j :: 0 <= j < |s.accepted| && env.tip(s.accepted[j]) == parent
  }

  /** No accepted frame extends the tip of an open chain that has accepted anything. */
  ghost predicate ParentsPast(s: State) {
    forall sid, i :: sid in s.chains && 0 <= i < |s.accepted| && s.accepted[i].pHash == s.chains[sid].tip ==>
      s.chains[sid].history == []
  }

  ghost predicate Past(env: Env, s: State) {
    ParentsPast(s) && forall i :: 0 <= i < |s.accepted| ==> Grounded(env, s, s.accepted[i].pHash)
  }

  /** Nothing was accepted; open chains are as they were, or new. */
  ghost predicate Rests(s: State, t: State) {
    && t.accepted == s.accepted && s.geneses <= t.geneses
    && forall sid :: sid in t.chains && t.chains[sid].history != [] ==>
         sid in s.chains && t.chains[sid].tip == s.chains[sid].tip && t.chains[sid].history == s.chains[sid].history
  }

  /** One frame was accepted at the tip of one chain. */
  ghost predicate Takes(env: Env, s: State, t: State, sid: string, f: Frame) {
    && t.accepted == s.accepted + [f] && t.geneses == s.geneses && env.key(f) !in s.dedupe
    && sid in s.chains && f.pHash == s.chains[sid].tip && (sid in t.chains ==> t.chains[sid].tip == env.tip(f))
    && forall other :: other in t.chains && other != sid ==> other in s.chains && t.chains[other] == s.chains[other]
  }

  lemma FrameRestsOrTakes(env: Env, s: State, f: Frame, now: Option<real>) returns (sid: string)
    requires RoutingExact(s)
    ensures var t := HandleFrame(env, s, f, now).0; Rests(s, t) || Takes(env, s, t, sid, f)
  {
    hide TurnOnStore, FrameOp;
    RoutedAtTip(s, f.pHash);
    sid := if Route(s, f.pHash).Some? then Route(s, f.pHash).value else "";
  }

  lemma TurnRestsOrTakes(env: Env, s: State, e: Event) returns (f: Frame)
    requires e.DoTurn?
    ensures var t := Step(env, s, e); Rests(s, t) || Takes(env, s, t, e.sid, f)
  {
    hide TurnOnStore, FrameOp, OutboundError, TurnCodec.Serialize, StampClock;
    f := if e.sid in s.chains then TurnFrame(env, s, e.sid, e.body, e.hlc) else Frame("", "", "", "", JNull);
  }

  lemma EnvelopeRests(env: Env, s: State, e: WireEnvelope)
    ensures Rests(s, HandleEnvelope(env, s, e).0)
  {
    hide EnvelopeOk;
  }

  lemma RegisterRests(s: State, init: Init)
    ensures Rests(s, Register(s, init).0)
  {
    hide TemplateMatch, NormalizeInit;
  }

  /** Every step accepts one frame at an open chain's tip, or none. */
  lemma StepRestsOrTakes(env: Env, s: State, e: Event) returns (sid: string, f: Frame)
    requires RoutingExact(s)
    ensures var t := Step(env, s, e); Rests(s, t) || Takes(env, s, t, sid, f)
  {
    hide HandleFrame, EmitTurn, HandleEnvelope, Register, FrameOp, RoutingExact;
    sid, f := "", Frame("", "", "", "", JNull);
    match e {
      case OnInit(init) => RegisterRests(s, init);
      case DoTurn(on, body, hlc, now) =>
        sid := on;
        f := TurnRestsOrTakes(env, s, e);
      case DoEndOffers(on) =>
        sid := on;
        if on in s.chains { f := Signed(env, s.chains[on].tip, END_OFFERS, JObject(map[])); }
      case DoTerminate(on, reason, code) =>
        sid := on;
        if on in s.chains { f := Signed(env, s.chains[on].tip, TERMINATE, TerminateBody(reason, code)); }
      case OnFrame(inbound, now) =>
        f := inbound;
        sid := FrameRestsOrTakes(env, s, inbound, now);
      case OnEnvelope(envelope) => EnvelopeRests(env, s, envelope);
      case _ =>
    }
  }

  lemma RestKeepsPast(env: Env, s: State, t: State)
    requires Past(env, s) && Rests(s, t)
    ensures Past(env, t)
  {
    forall i | 0 <= i < |t.accepted| ensures Grounded(env, t, t.accepted[i].pHash) {
      assert Grounded(env, s, s.accepted[i].pHash);
    }
  }

  /** The tip that a new frame leads to is no accepted frame's parent. */
  lemma NewTipHasNoChild(env: Env, s: State, t: State, f: Frame, parent: string)
    requires Counted(env, s) && env.key(f) !in s.dedupe && t.accepted == s.accepted + [f] && t.geneses == s.geneses
    requires NoCollisions(env, t) && Grounded(env, s, parent)
    ensures parent != env.tip(f)
  {
    assert t.accepted[|s.accepted|] == f;
    if parent in s.geneses {
      assert GenesisApart(env.tip, parent, t.accepted);
    } else {
      var j :| 0 <= j < |s.accepted| && env.tip(s.accepted[j]) == parent;
      assert t.accepted[j] == s.accepted[j] && env.key(s.accepted[j]) in s.dedupe;
    }
  }

  lemma TakeKeepsPast(env: Env, s: State, t: State, sid: string, f: Frame)
    requires Inv(env, s) && Past(env, s) && Takes(env, s, t, sid, f) && NoCollisions(env, t)
    ensures Past(env, t)
  {
    hide StoreSafety.Good, ChainLogged, Counted, NoCollisions;
    assert ChainLinked(env, s, sid, s.chains[sid]);
    TipIsGrounded(env, s, sid);
    forall i | 0 <= i < |t.accepted|
      ensures Grounded(env, s, t.accepted[i].pHash) && Grounded(env, t, t.accepted[i].pHash)
    {
      if i < |s.accepted| { assert t.accepted[i] == s.accepted[i]; }
      GroundedLater(env, s, t, t.accepted[i].pHash);
    }
    forall other, i | other in t.chains && 0 <= i < |t.accepted| && t.accepted[i].pHash == t.chains[other].tip
      ensures t.chains[other].history == []
    {
      NewTipHasNoChild(env, s, t, f, t.accepted[i].pHash);
      if i < |s.accepted| { assert t.accepted[i] == s.accepted[i]; }
    }
  }

  lemma TipIsGrounded(env: Env, s: State, sid: string)
    requires sid in s.chains && ChainLinked(env, s, sid, s.chains[sid])
    ensures Grounded(env, s, s.chains[sid].tip)
  {
    var c := s.chains[sid];
    if |c.history| > 0 { var j :| 0 <= j < |s.accepted| && s.accepted[j] == c.history[|c.history| - 1]; }
  }

  lemma GroundedLater(env: Env, s: State, t: State, parent: string)
    requires Grounded(env, s, parent) && s.accepted <= t.accepted && s.geneses <= t.geneses
    ensures Grounded(env, t, parent)
  {
    if parent !in s.geneses {
      var j :| 0 <= j < |s.accepted| && env.tip(s.accepted[j]) == parent;
      assert t.accepted[j] == s.accepted[j];
    }
  }

  lemma StepKeepsPast(env: Env, s: State, e: Event)
    requires Inv(env, s) && Past(env, s) && NoCollisions(env, Step(env, s, e))
    ensures Past(env, Step(env, s, e))
  {
    hide Step, NoCollisions, Past, Rests, ChainsOk, Counted, RoutingExact, StoreSafety.Good;
    var sid, f := StepRestsOrTakes(env, s, e);
    if Rests(s, Step(env, s, e)) {
      RestKeepsPast(env, s, Step(env, s, e));
    } else {
      TakeKeepsPast(env, s, Step(env, s, e), sid, f);
    }
  }

  lemma {:induction false} RunKeepsPast(env: Env, start: State, events: seq<Event>)
    requires Inv(env, start) && Past(env, start) && SyncCounts(env) && NoCollisions(env, Run(env, start, events))
    ensures Past(env, Run(env, start, events))
  {
    hide Step, NoCollisions, Inv, Past;
    if |events| > 0 {
      var s, e := Run(env, start, events[..|events| - 1]), events[|events| - 1];
      StepGrows(env, s, e);
      EarlierNoCollisions(env, s, Step(env, s, e));
      RunKeepsPast(env, start, events[..|events| - 1]);
      RunKeepsInv(env, start, events[..|events| - 1]);
      StepKeepsPast(env, s, e);
    }
  }

  // ----- Frames at the tip of an open chain

  lemma ColonSplits(a: string, x: string, b: string, y: string)
    requires ':' !in a && ':' !in b && a + ":" + x == b + ":" + y
    ensures a == b && x == y
  {
    var text := a + ":" + x;
    assert text[|a|] == ':' && text[|b|] == ':';
    assert forall i :: 0 <= i < |a| ==> text[i] == a[i];
    assert forall i :: 0 <= i < |b| ==> text[i] == b[i];
    assert a == text[..|a|] && b == text[..|b|];
    assert x == text[|a| + 1..] && y == text[|b| + 1..];
  }

  /** No genesis registered so far holds a colon. */
  ghost predicate PlainGeneses(s: State) { forall g :: g in s.geneses ==> ':' !in g }

  lemma ParentHasNoColon(sha: Sha, h: Host, s: State, parent: string)
    requires Sha256Like(sha) && PlainGeneses(s) && Grounded(EnvOf(sha, h), s, parent)
    ensures ':' !in parent
  {
    hide FrameText;
    if parent !in s.geneses {
      var j :| 0 <= j < |s.accepted| && TipOf(sha, s.accepted[j]) == parent;
      HexIsLower(sha(FrameText(s.accepted[j])));
    }
  }

  /** A frame with this parent and this signature was accepted. */
  ghost predicate Repeats(s: State, f: Frame) {
    exists i :: 0 <= i < |s.accepted| && s.accepted[i].pHash == f.pHash && s.accepted[i].sig == f.sig
  }

  lemma SeenIsRepeated(sha: Sha, h: Host, s: State, f: Frame)
    requires Sha256Like(sha) && PlainGeneses(s) && Past(EnvOf(sha, h), s) && Grounded(EnvOf(sha, h), s, f.pHash)
    ensures SeenBefore(s, f) <==> Repeats(s, f)
  {
    hide EnvOf, Grounded;
    ParentHasNoColon(sha, h, s, f.pHash);
    if i :| 0 <= i < |s.accepted| && KeyText(s.accepted[i]) == KeyText(f) {
      ParentHasNoColon(sha, h, s, s.accepted[i].pHash);
      ColonSplits(s.accepted[i].pHash, s.accepted[i].sig, f.pHash, f.sig);
    }
  }

  /** The key of a frame that extends an open chain was seen exactly when that chain has accepted nothing yet
      and a frame with this signature was accepted at the same genesis, when a chain was open there before. */
  lemma KeyAtTip(sha: Sha, h: Host, s: State, f: Frame, sid: string)
    requires Sha256Like(sha) && Inv(EnvOf(sha, h), s) && Past(EnvOf(sha, h), s) && PlainGeneses(s)
    requires CollisionFree(sha, KeyTexts(s, f)) && sid in s.chains && s.chains[sid].tip == f.pHash
    ensures EnvOf(sha, h).key(f) in s.dedupe <==> s.chains[sid].history == [] && Repeats(s, f)
  {
    hide EnvOf, StoreSafety.Good, RoutingExact, Counted, KeyTexts, CollisionFree, Grounded;
    KeySeenExactly(sha, h, s, f);
    TipIsGrounded(EnvOf(sha, h), s, sid);
    SeenIsRepeated(sha, h, s, f);
  }

  // ----- Over runs

  /** A run of a fresh replica over SHA-256 whose frames and keys do not collide. */
  ghost predicate Sound(sha: Sha, h: Host, start: State, events: seq<Event>)
    requires Sha256Like(sha)
  {
    IsStart(start) && NoCollisions(EnvOf(sha, h), Run(EnvOf(sha, h), start, events))
  }

  lemma SoundHasPast(sha: Sha, h: Host, start: State, events: seq<Event>)
    requires Sha256Like(sha) && Sound(sha, h, start, events)
    ensures var s := Run(EnvOf(sha, h), start, events); Inv(EnvOf(sha, h), s) && Past(EnvOf(sha, h), s)
  {
    hide Run, Inv, NoCollisions, EnvOf;
    StartHasInv(EnvOf(sha, h), start);
    SyncCountsOf(sha, h);
    RunKeepsInv(EnvOf(sha, h), start, events);
    RunKeepsPast(EnvOf(sha, h), start, events);
  }

  /** After every run: a frame that extends the tip of an open chain is taken for an echo exactly when the chain
      has accepted nothing yet and the same signature was accepted at this genesis before. A chain that has
      accepted anything ignores nothing that extends it. */
  lemma FreshFrameExact(sha: Sha, h: Host, start: State, events: seq<Event>, f: Frame, now: Option<real>, sid: string)
    requires Sha256Like(sha) && Sound(sha, h, start, events)
    requires var s := Run(EnvOf(sha, h), start, events);
      PlainGeneses(s) && CollisionFree(sha, KeyTexts(s, f)) && sid in s.chains && s.chains[sid].tip == f.pHash
    ensures var s := Run(EnvOf(sha, h), start, events);
      HandleFrame(EnvOf(sha, h), s, f, now).1.Ignored? <==> s.chains[sid].history == [] && Repeats(s, f)
  {
    hide Run, Sound, Past, EnvOf, StoreSafety.Good, ChainsOk, RoutingExact, Counted, KeyTexts, CollisionFree,
      HandleFrame;
    SoundHasPast(sha, h, start, events);
    var s := Run(EnvOf(sha, h), start, events);
    KeyAtTip(sha, h, s, f, sid);
    InboundFrameExact(EnvOf(sha, h), s, f, now);
  }

  /** The frame a replica's own step signs. */
  function OwnFrame(env: Env, s: State, e: Event): Frame
    requires (e.DoTurn? || e.DoEndOffers? || e.DoTerminate?) && e.sid in s.chains
  {
    if e.DoTurn? then TurnFrame(env, s, e.sid, e.body, e.hlc)
    else if e.DoEndOffers? then Signed(env, s.chains[e.sid].tip, END_OFFERS, JObject(map[]))
    else Signed(env, s.chains[e.sid].tip, TERMINATE, TerminateBody(e.reason, e.code))
  }

  /** What a replica signs itself at an open chain that has accepted anything is never dropped: ends of offers and
      terminations go out, and a turn does exactly when the sender's check and the store take it. */
  lemma OwnFramesGoOut(sha: Sha, h: Host, start: State, events: seq<Event>, e: Event)
    requires Sha256Like(sha) && Sound(sha, h, start, events) && (e.DoTurn? || e.DoEndOffers? || e.DoTerminate?)
    requires var s := Run(EnvOf(sha, h), start, events);
      && PlainGeneses(s) && e.sid in s.chains && s.chains[e.sid].history != []
      && CollisionFree(sha, KeyTexts(s, OwnFrame(EnvOf(sha, h), s, e)))
    ensures var s, env := Run(EnvOf(sha, h), start, events), EnvOf(sha, h);
      && (e.DoTurn? ==>
            var r, f := EmitTurn(env, s, e.sid, e.body, e.hlc, e.now).1, OwnFrame(env, s, e);
            && !r.Ignored?
            && (r.Done? <==> OutboundError(s.store, e.body, env.validator).None?
                             && TurnOnStore(env, s, e.sid, f.actor, f.body, e.now).1.Done?))
      && (e.DoEndOffers? ==> EmitEndOffers(env, s, e.sid).1.Done?)
      && (e.DoTerminate? ==> EmitTerminate(env, s, e.sid, e.reason, e.code).1.Done?)
  {
    hide Run, Sound, Past, EnvOf, Inv, KeyTexts, CollisionFree, TurnOnStore, OutboundError, Accept, TerminateBody;
    SoundHasPast(sha, h, start, events);
    var s := Run(EnvOf(sha, h), start, events);
    KeyAtTip(sha, h, s, OwnFrame(EnvOf(sha, h), s, e), e.sid);
  }

  // ----- Signatures

  /** The runtime's environment signs as the host's signer does. */
  lemma SignedByHost(sha: Sha, h: Host, tip: string, kind: string, body: Json)
    requires Sha256Like(sha)
    ensures Signed(EnvOf(sha, h), tip, kind, body) == SignedFrame(h.signer, tip, kind, body)
  {
    hide FrameText;
  }

  /** Every frame a replica signs in any step is valid at every host that honours its signer. */
  lemma SignedIsValid(sha: Sha, ha: Host, s: State, e: Event, hb: Host)
    requires Sha256Like(sha) && Honours(hb.verifier, ha.signer) && (e.DoTurn? || e.DoEndOffers? || e.DoTerminate?)
    requires e.sid in s.chains
    ensures EnvOf(sha, hb).valid(OwnFrame(EnvOf(sha, ha), s, e))
  {
    hide Honours, SignatureOk, FrameText, SignedFrame, TurnCodec.Serialize, StampClock, TerminateBody;
    var f := OwnFrame(EnvOf(sha, ha), s, e);
    SignedByHost(sha, ha, f.pHash, f.kind, f.body);
    SignedIsVerified(ha.signer, hb.verifier, f.pHash, f.kind, f.body);
  }

  ghost predicate AllValid(env: Env, s: State) { forall i :: 0 <= i < |s.accepted| ==> env.valid(s.accepted[i]) }

  lemma FrameAdds(env: Env, s: State, f: Frame, now: Option<real>)
    ensures var t := HandleFrame(env, s, f, now).0;
      t.accepted == s.accepted || (t.accepted == s.accepted + [f] && env.valid(f))
  {
    hide TurnOnStore, FrameOp;
  }

  /** A step accepts nothing, or the frame it signs itself, or a valid frame it is handed. */
  lemma StepAdds(env: Env, s: State, e: Event)
    ensures var t := Step(env, s, e);
      || t.accepted == s.accepted
      || (e.OnFrame? && t.accepted == s.accepted + [e.frame] && env.valid(e.frame))
      || ((e.DoTurn? || e.DoEndOffers? || e.DoTerminate?) && e.sid in s.chains
          && t.accepted == s.accepted + [OwnFrame(env, s, e)])
  {
    hide HandleFrame, EmitTurn, HandleEnvelope, Register, FrameOp, TerminateBody;
    match e {
      case OnInit(init) => RegisterRests(s, init);
      case DoTurn(sid, body, hlc, now) => OutboundTurn(env, s, sid, body, hlc, now);
      case OnFrame(f, now) => FrameAdds(env, s, f, now);
      case OnEnvelope(envelope) => EnvelopeRests(env, s, envelope);
      case _ =>
    }
  }

  /** A replica that honours its own signer has accepted valid frames alone. */
  lemma {:induction false} RunKeepsValid(sha: Sha, h: Host, start: State, events: seq<Event>)
    requires Sha256Like(sha) && Honours(h.verifier, h.signer) && AllValid(EnvOf(sha, h), start)
    ensures AllValid(EnvOf(sha, h), Run(EnvOf(sha, h), start, events))
  {
    hide Step, EnvOf, Honours, OwnFrame;
    if |events| > 0 {
      var s, e := Run(EnvOf(sha, h), start, events[..|events| - 1]), events[|events| - 1];
      RunKeepsValid(sha, h, start, events[..|events| - 1]);
      StepAdds(EnvOf(sha, h), s, e);
      if (e.DoTurn? || e.DoEndOffers? || e.DoTerminate?) && e.sid in s.chains { SignedIsValid(sha, h, s, e, h); }
    }
  }

  /** No signature fits two texts, whoever the actors are. */
  ghost predicate FitsOneText(verifier: Verifier, sig: string) {
    forall a, b, x, y :: verifier(a, x, sig) && verifier(b, y, sig) ==> x == y
  }

  lemma SameSignatureSameFrame(verifier: Verifier, f: Frame, g: Frame)
    requires IsFrame(f) && IsFrame(g) && f.sig == g.sig && FitsOneText(verifier, f.sig)
    requires SignatureOk(verifier, f) && SignatureOk(verifier, g)
    ensures f == g
  {
    FrameTexts(f.(sig := ""), g.(sig := ""));
    hide FrameText;
  }

  /** When signatures fit one text each, a valid frame that was not accepted before and extends the tip of an
      open chain is never taken for an echo. */
  lemma NewFrameIsNoEcho(sha: Sha, h: Host, start: State, events: seq<Event>, f: Frame, now: Option<real>, sid: string)
    requires Sha256Like(sha) && Sound(sha, h, start, events) && EventsOk(events)
    requires Honours(h.verifier, h.signer) && FitsOneText(h.verifier, f.sig)
    requires IsFrame(f) && SignatureOk(h.verifier, f)
    requires var s := Run(EnvOf(sha, h), start, events);
      && PlainGeneses(s) && CollisionFree(sha, KeyTexts(s, f)) && f !in s.accepted
      && sid in s.chains && s.chains[sid].tip == f.pHash
    ensures !HandleFrame(EnvOf(sha, h), Run(EnvOf(sha, h), start, events), f, now).1.Ignored?
  {
    hide Run, Inv, NoCollisions, Honours, FitsOneText, SignatureOk, IsFrame, EventsOk, KeyTexts, CollisionFree,
      HandleFrame, StoreSafety.Good;
    FreshFrameExact(sha, h, start, events, f, now, sid);
    RunKeepsValid(sha, h, start, events);
    RunKeepsFrames(EnvOf(sha, h), start, events);
    var s := Run(EnvOf(sha, h), start, events);
    if i :| 0 <= i < |s.accepted| && s.accepted[i].pHash == f.pHash && s.accepted[i].sig == f.sig {
      SameSignatureSameFrame(h.verifier, f, s.accepted[i]);
    }
  }
}
