/** A replica that takes everything another one sends, however the bytes arrive, ends up where that one is. */
module Lockstep {
  import opened Text
  import opened CanonicalJson
  import opened Digests
  import opened SessionMerkle
  import opened Frames
  import opened NbcTurn
  import opened RuntimeModel
  import opened Hosting
  import opened RuntimeSafety
  import opened Agreement
  import opened Wire
  import opened ReadLoop
  import StoreSafety
  import TurnCodec
  import D = FrameDecoder

  // ----- What a run sends

  /** The step signs a frame, if it gets that far. */
  predicate Signs(e: Event) { e.DoTurn? || e.DoEndOffers? || e.DoTerminate? }

  /** What a step of the replica's own writes to the channel. An init is written before it is registered,
      hence also when registering it fails. */
  ghost function Sent(env: Env, s: State, e: Event): seq<Message> {
    match e
    case OnInit(i) => (match NormalizeInit(i) case Some(wire) => [InitMessage(wire)] case None => [])
    case DoFlush(sid) => (match Flush(env, s, sid).1 case Some(envelope) => [EnvelopeMessage(envelope)] case None => [])
    case _ =>
      if Signs(e) && |Step(env, s, e).accepted| > |s.accepted|
      then [FrameMessage(Step(env, s, e).accepted[|s.accepted|])]
      else []
  }

  /** The sender's step takes no frame from elsewhere and opens no session that it has open. */
  ghost predicate Outbound(env: Env, s: State, e: Event) {
    && (e.OnFrame? ==> !HandleFrame(env, s, e.frame, e.at).1.Done?)
    && (e.OnInit? ==> e.init.sessionId !in s.chains)
  }

  /** The receiver's own step opens no chain and signs nothing. */
  predicate Quiet(e: Event) { e.DoDestroy? || e.DoFlush? || e.DoStore? || e.OnEnvelope? }

  // ----- Tips

  /** Every chain open in both states has one tip. */
  predicate InStep(s: State, t: State) {
    forall sid :: sid in s.chains && sid in t.chains ==> s.chains[sid].tip == t.chains[sid].tip
  }

  /** No chain was opened and no tip moved; chains may have been closed. */
  predicate NoNewTips(s: State, t: State) {
    forall sid :: sid in t.chains ==> sid in s.chains && t.chains[sid].tip == s.chains[sid].tip
  }

  /** The frame moved the tip of the chain it extends, or closed it, and left every other tip alone. */
  ghost predicate Moves(env: Env, s: State, t: State, sid: string, f: Frame) {
    && sid in s.chains && f.pHash == s.chains[sid].tip
    && (sid in t.chains ==> t.chains[sid].tip == env.tip(f))
    && forall other :: other in t.chains && other != sid ==>
         other in s.chains && t.chains[other].tip == s.chains[other].tip
  }

  lemma NoNewTipsInStep(s: State, s2: State, t: State, t2: State)
    requires InStep(s, t) && NoNewTips(s, s2) && NoNewTips(t, t2)
    ensures InStep(s2, t2)
  {
  }

  /** The same frame moves the same chain on both sides, or chains that the other side does not have. */
  lemma MovesMeet(a: Env, s: State, s2: State, sidA: string, b: Env, t: State, t2: State, sidB: string, f: Frame)
    requires RoutingExact(s) && RoutingExact(t) && InStep(s, t) && a.tip == b.tip
    requires Moves(a, s, s2, sidA, f) && Moves(b, t, t2, sidB, f)
    ensures InStep(s2, t2)
  {
  }

  lemma QuietKeepsTips(env: Env, s: State, e: Event)
    requires Quiet(e)
    ensures NoNewTips(s, Step(env, s, e))
  {
    hide EnvelopeOk;
  }

  lemma {:induction false} QuietRunKeepsTips(env: Env, s: State, es: seq<Event>)
    requires forall i :: 0 <= i < |es| ==> Quiet(es[i])
    ensures NoNewTips(s, Run(env, s, es))
  {
    hide Step, Quiet;
    if |es| > 0 {
      QuietRunKeepsTips(env, s, es[..|es| - 1]);
      QuietKeepsTips(env, Run(env, s, es[..|es| - 1]), es[|es| - 1]);
    }
  }

  /** A step that sends nothing moves no tip. */
  lemma SilentKeepsTips(env: Env, s: State, e: Event)
    requires Sent(env, s, e) == [] && Outbound(env, s, e)
    ensures NoNewTips(s, Step(env, s, e))
  {
    hide EnvelopeOk, TurnOnStore, OutboundError, FrameOp, TurnCodec.Serialize, StampClock;
  }

  /** A step that sends a frame moves the tip of the chain it signed on. */
  lemma SignedMoves(env: Env, s: State, e: Event) returns (sid: string)
    requires Signs(e) && |Step(env, s, e).accepted| > |s.accepted|
    ensures Moves(env, s, Step(env, s, e), sid, Step(env, s, e).accepted[|s.accepted|])
  {
    hide TurnOnStore, OutboundError, FrameOp, TurnCodec.Serialize, StampClock;
    sid := e.sid;
    if e.DoTurn? { OutboundTurn(env, s, sid, e.body, e.hlc, e.now); }
  }

  lemma TakenMoves(env: Env, s: State, f: Frame, now: Option<real>) returns (sid: string)
    requires RoutingExact(s) && HandleFrame(env, s, f, now).1.Done?
    ensures Moves(env, s, HandleFrame(env, s, f, now).0, sid, f)
  {
    hide TurnOnStore, FrameOp;
    RoutedAtTip(s, f.pHash);
    sid := Route(s, f.pHash).value;
  }

  lemma NormalTwice(i: Init)
    ensures NormalizeInit(i).Some? ==> NormalizeInit(NormalizeInit(i).value) == NormalizeInit(i)
  {
    LexTotal(i.first.pubkey, i.second.pubkey);
  }

  /** Once the receiver has opened the chain of an init that was sent, the two are in step exactly unless the
      sender had the session open, at another tip: writing an init before registering it risks that. */
  lemma InitInStep(s: State, i: Init, t: State)
    requires InStep(s, t) && NormalizeInit(i).Some? && Register(t, NormalizeInit(i).value).1.Done?
    ensures InStep(Register(s, i).0, Register(t, NormalizeInit(i).value).0)
       <==> (i.sessionId in s.chains ==> s.chains[i.sessionId].tip == i.genesis)
  {
    hide TemplateMatch;
    NormalTwice(i);
    assert NormalizeInit(i).value.sessionId == i.sessionId && NormalizeInit(i).value.genesis == i.genesis;
    hide NormalizeInit;
    var t2 := Register(t, NormalizeInit(i).value).0;
    assert i.sessionId in t2.chains && t2.chains[i.sessionId].tip == i.genesis;
  }

  lemma SentAtMostOne(env: Env, s: State, e: Event)
    ensures |Sent(env, s, e)| <= 1
  {
    hide Step, Flush;
  }

  lemma EnvelopeProcessed(env: Env, s: State, e: WireEnvelope, now: Option<real>)
    ensures Process(env, s, EnvelopeYield(e), now) == HandleEnvelope(env, s, e)
    ensures NoNewTips(s, HandleEnvelope(env, s, e).0)
  {
    hide EnvelopeOk;
  }

  lemma FrameProcessed(env: Env, s: State, f: Frame, now: Option<real>)
    requires Process(env, s, FrameYield(f), now).1.Done?
    ensures Process(env, s, FrameYield(f), now) == HandleFrame(env, s, f, now)
  {
    hide HandleFrame;
  }

  lemma InitProcessed(env: Env, s: State, i: Init, now: Option<real>)
    ensures Process(env, s, Meant(InitMessage(i)), now) == Register(s, i)
  {
    InitArrives(i);
    hide Register, InitJson, InitFromJson;
  }

  /** A message that is sent, and taken unless it is an envelope, leaves the two in step. */
  lemma SentKeepsStep(a: Env, s: State, e: Event, b: Env, t: State, m: Message, now: Option<real>)
    requires RoutingExact(s) && RoutingExact(t) && InStep(s, t) && a.tip == b.tip
    requires Outbound(a, s, e) && Sent(a, s, e) == [m]
    requires m.EnvelopeMessage? || Process(b, t, Meant(m), now).1.Done?
    ensures InStep(Step(a, s, e), Process(b, t, Meant(m), now).0)
  {
    hide RoutingExact, InStep, NormalizeInit, Register, Process, HandleFrame, HandleEnvelope, Flush, NoNewTips, Moves,
      EmitTurn, EmitEndOffers, EmitTerminate;
    match m {
      case InitMessage(wire) =>
        InitProcessed(b, t, wire, now);
        InitInStep(s, e.init, t);
      case FrameMessage(f) =>
        FrameProcessed(b, t, f, now);
        var sidA := SignedMoves(a, s, e);
        var sidB := TakenMoves(b, t, f, now);
        MovesMeet(a, s, Step(a, s, e), sidA, b, t, HandleFrame(b, t, f, now).0, sidB, f);
      case EnvelopeMessage(envelope) =>
        QuietKeepsTips(a, s, e);
        EnvelopeProcessed(b, t, envelope, now);
        NoNewTipsInStep(s, Step(a, s, e), t, HandleEnvelope(b, t, envelope).0);
    }
  }

  // ----- A sender's run and a receiver's

  /** A sender's run, and the delivery of what it sends to a receiver. */
  datatype Link = Link(a: Env, start: State, events: seq<Event>, d: Delivery) {
    ghost function At(k: nat): State
      requires k <= |events|
    {
      Run(a, start, events[..k])
    }

    /** What the sender's first k steps write. */
    ghost function SentBy(k: nat): seq<Message>
      requires k <= |events|
    {
      if k == 0 then [] else SentBy(k - 1) + Sent(a, At(k - 1), events[k - 1])
    }

    ghost function Received(k: nat): State
      requires k <= |d.ys|
    {
      Run(d.env, d.from, d.Steps(k))
    }

    /** The sender's state is sound, its frames do not collide, and it is handed documents. */
    ghost predicate SenderSound() {
      && SyncCounts(a) && Inv(a, start) && NoCollisions(a, At(|events|))
      && AreFrames(start.accepted) && EventsOk(events)
    }

    /** Both are sound, hash alike and start in step. */
    ghost predicate Fits() {
      && SenderSound() && SyncCounts(d.env) && Inv(d.env, d.from) && NoCollisions(d.env, Received(|d.ys|))
      && a.tip == d.env.tip && InStep(start, d.from)
    }

    /** Tips move by what is sent and delivered alone. */
    ghost predicate OneWay() {
      && d.ys == MeantAll(SentBy(|events|))
      && (forall k :: 0 <= k < |events| ==> Outbound(a, At(k), events[k]))
      && (forall k, i :: 0 <= k < |d.ys| && 0 <= i < |d.answers(k).before| ==> Quiet(d.answers(k).before[i]))
    }

    /** The receiver takes each of the first n inits and frames. */
    ghost predicate Takes(n: nat)
      requires n <= |d.ys|
    {
      forall k :: 0 <= k < n ==> d.ys[k].EnvelopeYield? || d.OutcomeOf(k).Done?
    }
  }

  lemma {:induction false} InvAlong(env: Env, start: State, events: seq<Event>, all: seq<Event>)
    requires Inv(env, start) && SyncCounts(env) && NoCollisions(env, Run(env, start, all)) && events <= all
    ensures Inv(env, Run(env, start, events))
    decreases |all|
  {
    hide Step, NoCollisions, Inv;
    if events == all {
      RunKeepsInv(env, start, all);
    } else {
      var front, e := all[..|all| - 1], all[|all| - 1];
      StepGrows(env, Run(env, start, front), e);
      EarlierNoCollisions(env, Run(env, start, front), Run(env, start, all));
      InvAlong(env, start, events, front);
    }
  }

  lemma {:induction false} SentGrows(l: Link, k: nat, n: nat)
    requires k <= n <= |l.events|
    ensures l.SentBy(k) <= l.SentBy(n)
    decreases n
  {
    hide Sent, Run;
    if k < n { SentGrows(l, k, n - 1); }
  }

  lemma {:induction false} StepsGrow(d: Delivery, k: nat, n: nat)
    requires k < n <= |d.ys|
    ensures d.Steps(k) + d.answers(k).before <= d.Steps(n)
    decreases n
  {
    hide EventsFor;
    if k < n - 1 { StepsGrow(d, k, n - 1); }
  }

  /** The states that a step of the sender, and the message it sends, start from are routed exactly. */
  lemma BothRouted(l: Link, k: nat, n: nat)
    requires l.Fits() && k <= |l.events| && n < |l.d.ys|
    ensures RoutingExact(l.At(k)) && RoutingExact(l.d.Facing(n))
  {
    hide ChainsOk, Counted, NoCollisions, RoutingExact, Run, l.d.Steps;
    assert l.events[..|l.events|] == l.events;
    InvAlong(l.a, l.start, l.events[..k], l.events);
    StepsGrow(l.d, n, |l.d.ys|);
    InvAlong(l.d.env, l.d.from, l.d.Steps(n) + l.d.answers(n).before, l.d.Steps(|l.d.ys|));
  }

  /** One message, after whatever quiet steps the receiver takes before it. */
  lemma ReceivedStep(l: Link, n: nat)
    requires l.OneWay() && n < |l.d.ys|
    ensures NoNewTips(l.Received(n), l.d.Facing(n))
    ensures l.Received(n + 1) == Process(l.d.env, l.d.Facing(n), l.d.ys[n], l.d.answers(n).now).0
  {
    hide Process, EventsFor, Quiet, Run, NoNewTips;
    var d := l.d;
    var y, a := d.ys[n], d.answers(n);
    RunAppend(d.env, d.from, d.Steps(n), a.before);
    QuietRunKeepsTips(d.env, l.Received(n), a.before);
    ProcessIsRun(d.env, d.Facing(n), y, a.now);
    RunAppend(d.env, d.from, d.Steps(n) + a.before, EventsFor(y, a.now));
  }

  lemma SenderStep(l: Link, k: nat)
    requires k < |l.events|
    ensures l.At(k + 1) == Step(l.a, l.At(k), l.events[k])
    ensures l.SentBy(k + 1) == l.SentBy(k) + Sent(l.a, l.At(k), l.events[k])
  {
    hide Step, Sent;
    assert l.events[..k + 1][..k] == l.events[..k];
  }

  /** A step that sends a message, and the message taken. */
  lemma SendingStep(l: Link, k: nat, m: Message)
    requires l.Fits() && l.OneWay() && k < |l.events| && Sent(l.a, l.At(k), l.events[k]) == [m]
    requires |l.SentBy(k + 1)| <= |l.d.ys| && l.Takes(|l.SentBy(k + 1)|)
    requires InStep(l.At(k), l.Received(|l.SentBy(k)|))
    ensures InStep(l.At(k + 1), l.Received(|l.SentBy(k + 1)|))
  {
    hide Run, Step, Sent, Process, RoutingExact, Outbound, Quiet, InStep, NoNewTips, Inv, NoCollisions, SyncCounts,
      l.d.Steps, l.d.Facing;
    var n := |l.SentBy(k)|;
    SenderStep(l, k);
    SentGrows(l, k + 1, |l.events|);
    assert l.SentBy(k + 1)[n] == m && l.d.ys[n] == Meant(m);
    BothRouted(l, k, n);
    ReceivedStep(l, n);
    StaysNoNewTips(l.At(k));
    NoNewTipsInStep(l.At(k), l.At(k), l.Received(n), l.d.Facing(n));
    SentKeepsStep(l.a, l.At(k), l.events[k], l.d.env, l.d.Facing(n), m, l.d.answers(n).now);
  }

  lemma StaysNoNewTips(s: State)
    ensures NoNewTips(s, s)
  {
  }

  /** A step that sends nothing. */
  lemma SilentStep(l: Link, k: nat)
    requires l.OneWay() && k < |l.events| && Sent(l.a, l.At(k), l.events[k]) == []
    ensures |l.SentBy(k + 1)| == |l.SentBy(k)| && NoNewTips(l.At(k), l.At(k + 1))
  {
    hide Run, Step, Sent, NoNewTips, Outbound, Quiet, l.d.Steps;
    SenderStep(l, k);
    SilentKeepsTips(l.a, l.At(k), l.events[k]);
  }

  /** After any number of the sender's steps, and of the messages they sent, the two are in step. */
  lemma {:induction false} InStepAt(l: Link, k: nat)
    requires l.Fits() && l.OneWay() && k <= |l.events|
    requires |l.SentBy(k)| <= |l.d.ys| && l.Takes(|l.SentBy(k)|)
    ensures InStep(l.At(k), l.Received(|l.SentBy(k)|))
  {
    hide Run, Step, Sent, Inv, NoCollisions, SyncCounts, InStep, NoNewTips, Process, l.OneWay, l.d.Steps, l.d.OutcomeOf;
    if k == 0 {
      NothingSent(l);
    } else {
      SentGrows(l, k - 1, k);
      InStepAt(l, k - 1);
      var s, e := l.At(k - 1), l.events[k - 1];
      SentAtMostOne(l.a, s, e);
      if |Sent(l.a, s, e)| == 1 {
        SendingStep(l, k - 1, Sent(l.a, s, e)[0]);
      } else {
        SilentStep(l, k - 1);
        var t := l.Received(|l.SentBy(k)|);
        StaysNoNewTips(t);
        NoNewTipsInStep(s, l.At(k), t, t);
      }
    }
  }

  lemma NothingSent(l: Link)
    ensures l.At(0) == l.start && l.SentBy(0) == [] && l.Received(0) == l.d.from
  {
  }

  // ----- What is sent can be read

  /** What a step sends is a message that arrives. */
  lemma SentIsOk(env: Env, s: State, e: Event, m: Message)
    requires Inv(env, s) && AreFrames(s.accepted) && EventOk(e) && Sent(env, s, e) == [m]
    ensures MessageOk(m)
  {
    hide Step, NormalizeInit, Flush, AreDocuments, RoutingExact, Counted, StoreSafety.Good, ChainLogged, IsFrame;
    match m {
      case InitMessage(wire) => NormalTwice(e.init);
      case FrameMessage(f) => StepKeepsFrames(env, s, e);
      case EnvelopeMessage(envelope) => FlushedIsOk(env, s, e.sid);
    }
  }

  lemma FlushedIsOk(env: Env, s: State, sid: string)
    requires Inv(env, s) && AreFrames(s.accepted) && Flush(env, s, sid).1.Some?
    ensures AreDocuments(Flush(env, s, sid).1.value.deltaOps)
  {
    hide RoutingExact, Counted, StoreSafety.Good, Tagged, IsFrame, IsLog, OpsOf, AreDocuments, OpJsons, SliceTo;
    var c := s.chains[sid];
    assert ChainLinked(env, s, sid, c) && ChainLogged(s, sid, c);
    OpsAreLog(c.history, s.accepted, sid);
    FrontIsLog(c.ops, |SliceTo(c.ops, c.confirmedSeq)|);
    FlushIsDocuments(c.ops[|SliceTo(c.ops, c.confirmedSeq)|..]);
  }

  lemma {:induction false} AllSentOk(l: Link, k: nat)
    requires l.SenderSound() && k <= |l.events|
    ensures forall i :: 0 <= i < |l.SentBy(k)| ==> MessageOk(l.SentBy(k)[i])
  {
    hide Run, Step, Sent, Inv, NoCollisions, SyncCounts, InStep, MessageOk, EventOk, AreFrames, l.d.Steps;
    if k > 0 {
      var s, e := l.At(k - 1), l.events[k - 1];
      AllSentOk(l, k - 1);
      SenderStep(l, k - 1);
      assert l.events[..|l.events|] == l.events;
      InvAlong(l.a, l.start, l.events[..k - 1], l.events);
      RunKeepsFrames(l.a, l.start, l.events[..k - 1]);
      SentAtMostOne(l.a, s, e);
      if |Sent(l.a, s, e)| == 1 { SentIsOk(l.a, s, e, Sent(l.a, s, e)[0]); }
    }
  }

  // ----- Down to the bytes

  /** The bytes of all that is sent, cut into chunks within the buffer's cap. */
  ghost predicate Carries(l: Link, chunks: seq<string>) {
    var ms := l.SentBy(|l.events|);
    && (forall i :: 0 <= i < |ms| ==> |MessageText(ms[i])| <= D.MAX_FRAME_BYTES)
    && D.Flatten(chunks) == D.EncodeAll(TextsOf(ms)) && D.AllWithinCap("", chunks)
  }

  /** What the receiver's read loop makes of the chunks. */
  ghost function Reading(l: Link, chunks: seq<string>): Loop {
    ReadChunks(l.d.env, l.d.closeOnTerminate, Begin(l.d.from), "", chunks, l.d.answers).0
  }

  lemma ReadingIsReceived(l: Link, chunks: seq<string>)
    requires l.Fits() && l.OneWay() && Carries(l, chunks)
    ensures var read := Reading(l, chunks);
      && read.taken <= |l.d.ys| && read.state == l.Received(read.taken)
      && (!read.stopped ==> read.taken == |l.d.ys|)
  {
    hide Run, Step, Sent, Inv, NoCollisions, SyncCounts, InStep, MessageOk, EventOk, AreFrames, MessageText, l.d.Steps,
      l.d.Closing, l.SentBy, D.Flatten, D.EncodeAll, D.AllWithinCap, ReadChunks, TextsOf;
    AllSentOk(l, |l.events|);
    StreamIsRun(l.d, l.SentBy(|l.events|), chunks);
  }

  /** Two replicas start in step, and all that one sends reaches the other, in any chunks, while that one signs
      and opens nothing of its own. When the reading stops, and when it is through, the receiver is in step with
      what the sender was when it had sent what the receiver has read, as long as the receiver took every init
      and frame of it: every chain open on both sides has one tip. */
  lemma ReaderInStep(l: Link, chunks: seq<string>)
    requires l.Fits() && l.OneWay() && Carries(l, chunks)
    ensures var read := Reading(l, chunks);
      && read.taken <= |l.d.ys|
      && (l.Takes(read.taken) ==>
            && (forall k :: 0 <= k <= |l.events| && |l.SentBy(k)| == read.taken ==> InStep(l.At(k), read.state))
            && (!read.stopped ==> InStep(l.At(|l.events|), read.state)))
  {
    hide Run, Inv, NoCollisions, SyncCounts, InStep, EventsOk, AreFrames, Carries, l.d.Steps, l.SentBy, Reading,
      l.d.OutcomeOf, Outbound;
    var read := Reading(l, chunks);
    ReadingIsReceived(l, chunks);
    if l.Takes(read.taken) {
      forall k | 0 <= k <= |l.events| && |l.SentBy(k)| == read.taken ensures InStep(l.At(k), read.state) {
        InStepAt(l, k);
      }
    }
  }

  // ----- Over SHA-256

  lemma {:induction false} StepsOk(l: Link, n: nat)
    requires l.OneWay() && n <= |l.d.ys|
    requires forall i :: 0 <= i < |l.d.ys| ==> MessageOk(l.SentBy(|l.events|)[i])
    ensures EventsOk(l.d.Steps(n))
  {
    hide Run, Outbound, l.SentBy, EventsFor, MessageOk, Meant;
    if n > 0 {
      StepsOk(l, n - 1);
      MeantEvents(l.SentBy(|l.events|)[n - 1], l.d.answers(n - 1).now);
      MessageEventOk(l.SentBy(|l.events|)[n - 1], l.d.answers(n - 1).now);
    }
  }

  lemma MessageEventOk(m: Message, now: Option<real>)
    requires MessageOk(m)
    ensures EventOk(EventOf(m, now))
  {
  }

  // ----- Taking turns

  /** The next exchange goes the other way, from where this one ended. */
  ghost predicate Replies(l: Link, m: Link) {
    && m.a == l.d.env && m.start == l.Received(|l.d.ys|)
    && m.d.env == l.a && m.d.from == l.At(|l.events|)
  }

  /** One exchange of a conversation: all that is sent is taken, and nothing collides. */
  ghost predicate Exchanged(l: Link) {
    && l.OneWay() && l.Takes(|l.d.ys|) && EventsOk(l.events)
    && NoCollisions(l.a, l.At(|l.events|)) && NoCollisions(l.d.env, l.Received(|l.d.ys|))
  }

  /** Exchanges in alternating directions, the first from states that fit. */
  ghost predicate Conversation(ls: seq<Link>) {
    && |ls| > 0 && ls[0].Fits() && AreFrames(ls[0].d.from.accepted)
    && (forall i :: 0 <= i < |ls| ==> Exchanged(ls[i]))
    && (forall i :: 0 < i < |ls| ==> Replies(ls[i - 1], ls[i]))
  }

  lemma AllInStep(l: Link)
    requires l.Fits() && l.OneWay() && l.Takes(|l.d.ys|)
    ensures InStep(l.At(|l.events|), l.Received(|l.d.ys|))
  {
    hide Run, InStep, Outbound, Quiet, l.Fits, l.SentBy, l.d.Steps, l.d.OutcomeOf;
    InStepAt(l, |l.events|);
  }

  /** Where a sound exchange ends, the next one can begin. */
  lemma EndsFit(l: Link)
    requires l.Fits() && l.OneWay() && l.Takes(|l.d.ys|) && AreFrames(l.d.from.accepted)
    ensures Inv(l.a, l.At(|l.events|)) && Inv(l.d.env, l.Received(|l.d.ys|))
    ensures AreFrames(l.At(|l.events|).accepted) && AreFrames(l.Received(|l.d.ys|).accepted)
    ensures InStep(l.Received(|l.d.ys|), l.At(|l.events|))
  {
    hide Run, Inv, NoCollisions, SyncCounts, EventOk, MessageOk, Outbound, Quiet, AreFrames, l.SentBy, l.d.Steps,
      l.d.OutcomeOf;
    assert l.events[..|l.events|] == l.events;
    AllInStep(l);
    InvAlong(l.a, l.start, l.events, l.events);
    InvAlong(l.d.env, l.d.from, l.d.Steps(|l.d.ys|), l.d.Steps(|l.d.ys|));
    RunKeepsFrames(l.a, l.start, l.events);
    AllSentOk(l, |l.events|);
    StepsOk(l, |l.d.ys|);
    RunKeepsFrames(l.d.env, l.d.from, l.d.Steps(|l.d.ys|));
  }

  lemma NextFits(l: Link, m: Link)
    requires l.Fits() && Exchanged(l) && AreFrames(l.d.from.accepted) && Exchanged(m) && Replies(l, m)
    ensures m.Fits() && AreFrames(m.d.from.accepted)
  {
    hide Run, Inv, NoCollisions, SyncCounts, EventsOk, InStep, AreFrames, Link.OneWay, Link.Takes, Link.SentBy,
      Delivery.Steps;
    EndsFit(l);
  }

  lemma {:induction false} EachFits(ls: seq<Link>, i: nat)
    requires Conversation(ls) && i < |ls|
    ensures ls[i].Fits() && AreFrames(ls[i].d.from.accepted)
  {
    hide Link.Fits, Exchanged, Replies, AreFrames;
    if i > 0 {
      EachFits(ls, i - 1);
      NextFits(ls[i - 1], ls[i]);
    }
  }

  /** Two replicas that take turns, each sending any number of messages at a time and the other taking them
      all, have one tip on every chain open on both sides after every exchange. */
  lemma ConversationInStep(ls: seq<Link>, i: nat)
    requires Conversation(ls) && i < |ls|
    ensures InStep(ls[i].At(|ls[i].events|), ls[i].Received(|ls[i].d.ys|))
  {
    hide Link.Fits, Link.OneWay, Link.Takes, Link.SentBy, Delivery.Steps, Replies, AreFrames, InStep, NoCollisions,
      EventsOk, Run;
    EachFits(ls, i);
    AllInStep(ls[i]);
  }

  /** Replicas that start afresh are sound and in step. */
  lemma FreshFits(sha: Sha, ha: Host, hb: Host, l: Link)
    requires Sha256Like(sha) && l.a == EnvOf(sha, ha) && l.d.env == EnvOf(sha, hb)
    requires IsStart(l.start) && IsStart(l.d.from) && l.OneWay() && EventsOk(l.events)
    requires Apart(sha, l.At(|l.events|), l.Received(|l.d.ys|))
    ensures l.Fits() && EventsOk(l.d.Steps(|l.d.ys|))
  {
    hide Run, Apart, Inv, NoCollisions, EventOk, MessageOk, Outbound, Quiet, l.SentBy, l.d.Steps, StoreSafety.Good;
    SyncCountsOf(sha, ha);
    SyncCountsOf(sha, hb);
    StartHasInv(l.a, l.start);
    StartHasInv(l.d.env, l.d.from);
    assert l.events[..|l.events|] == l.events;
    RunKeepsFrames(l.a, l.start, l.events);
    ApartMeansNoCollisions(sha, ha, l.At(|l.events|), l.Received(|l.d.ys|));
    AllSentOk(l, |l.events|);
    StepsOk(l, |l.d.ys|);
    RunKeepsFrames(l.d.env, l.d.from, l.d.Steps(|l.d.ys|));
    ApartSymmetric(sha, l.At(|l.events|), l.Received(|l.d.ys|));
    ApartMeansNoCollisions(sha, hb, l.Received(|l.d.ys|), l.At(|l.events|));
  }

  lemma InStepMeans(s: State, t: State, sid: string)
    requires InStep(s, t) && sid in s.chains && sid in t.chains
    ensures s.chains[sid].tip == t.chains[sid].tip
  {
  }

  /** Two replicas of a SHA-256 host start afresh, and one reads all that the other sends, in any chunks, without
      closing the channel, and takes every init and frame of it: then every chain open on both sides started at
      one genesis, and has one tip, one history, one log and one checkpoint on both. */
  lemma ReaderAgrees(sha: Sha, ha: Host, hb: Host, l: Link, chunks: seq<string>, sid: string)
    requires Sha256Like(sha) && l.a == EnvOf(sha, ha) && l.d.env == EnvOf(sha, hb)
    requires IsStart(l.start) && IsStart(l.d.from) && l.OneWay() && EventsOk(l.events) && Carries(l, chunks)
    requires Apart(sha, l.At(|l.events|), l.Received(|l.d.ys|)) && l.Takes(|l.d.ys|)
    requires !Reading(l, chunks).stopped
    ensures var s, t := l.At(|l.events|), Reading(l, chunks).state;
      sid in s.chains && sid in t.chains ==>
        var c, d := s.chains[sid], t.chains[sid];
        && c.tip == d.tip && c.init.genesis == d.init.genesis && c.history == d.history && c.ops == d.ops
        && CheckpointOf(sha, c.ops) == CheckpointOf(sha, d.ops)
  {
    hide Run, Apart, Inv, InStep, EventsOk, Carries, Reading, CheckpointOf, Outbound, EnvOf, IsStart, EventOk,
      l.Fits, l.OneWay, l.Takes, l.d.Steps;
    FreshFits(sha, ha, hb, l);
    ReadingIsReceived(l, chunks);
    ReaderInStep(l, chunks);
    assert l.events[..|l.events|] == l.events;
    var s, t := l.At(|l.events|), Reading(l, chunks).state;
    if sid in s.chains && sid in t.chains {
      InStepMeans(s, t, sid);
      RunsAgree(sha, ha, l.start, l.events, hb, l.d.from, l.d.Steps(|l.d.ys|), sid, sid);
    }
  }
}
