/** The read loop: payloads are taken off the stream one after another, between and around the replica's
    own steps, until the channel closes. */
module ReadLoop {
  import opened Text
  import opened CanonicalJson
  import opened Frames
  import opened RuntimeModel
  import opened Wire
  import D = FrameDecoder

  const MAX_CONSECUTIVE_FRAME_ERRORS: nat := 16

  /** What surrounds one payload: the steps taken since the payload before it, the clock it is read at,
      whether a handler threw after the payload was taken, and whether the channel was closed meanwhile. */
  datatype Answer = Answer(before: seq<Event>, now: Option<real>, threw: bool, closed: bool)

  /** `taken` counts the payloads processed so far; a stopped loop reads no more. */
  datatype Loop = Loop(state: State, taken: nat, errors: nat, dead: bool, stopped: bool)

  function Begin(s: State): Loop { Loop(s, 0, 0, false, false) }

  /** One more error in a row; the last one allowed closes the channel. */
  function Fail(l: Loop): Loop {
    if l.errors + 1 >= MAX_CONSECUTIVE_FRAME_ERRORS then l.(errors := l.errors + 1, dead := true, stopped := true)
    else l.(errors := l.errors + 1)
  }

  /** A taken payload ends the row of errors, and the loop if the channel is dead. */
  function Succeed(l: Loop): Loop { l.(errors := 0, stopped := l.dead) }

  predicate IsTermination(y: Yield) { y.FrameYield? && y.frame.kind == TERMINATE }

  ghost function TakeOne(env: Env, closeOnTerminate: bool, l: Loop, y: Yield, a: Answer): Loop {
    if l.stopped then l
    else
      var (t, r) := Process(env, Run(env, l.state, a.before), y, a.now);
      var closes := a.closed || (closeOnTerminate && IsTermination(y) && r.Done? && !a.threw);
      var next := l.(state := t, taken := l.taken + 1, dead := l.dead || closes);
      if r.Rejected? || (r.Done? && a.threw) then Fail(next) else Succeed(next)
  }

  ghost function TakeAll(env: Env, closeOnTerminate: bool, l: Loop, ys: seq<Yield>, answers: nat -> Answer): Loop {
    if |ys| == 0 then l
    else
      var before := TakeAll(env, closeOnTerminate, l, ys[..|ys| - 1], answers);
      TakeOne(env, closeOnTerminate, before, ys[|ys| - 1], answers(before.taken))
  }

  /** What one chunk yields and leaves pending. A chunk that fails to decode loses what it held and counts
      as one yield that is nothing. */
  function ChunkYields(pending: string, chunk: string): (seq<Yield>, string) {
    match D.Push(pending, chunk)
    case (Failed, rest) => ([RawYield], rest)
    case (Yields(payloads), rest) => (YieldsOf(payloads), rest)
  }

  function StreamYields(pending: string, chunks: seq<string>): seq<Yield>
    decreases |chunks|
  {
    if |chunks| == 0 then []
    else var (ys, rest) := ChunkYields(pending, chunks[0]); ys + StreamYields(rest, chunks[1..])
  }

  ghost function ReadChunk(env: Env, closeOnTerminate: bool, l: Loop, pending: string, chunk: string,
                           answers: nat -> Answer)
    : (Loop, string)
  {
    if l.stopped then (l, pending)
    else
      var (ys, rest) := ChunkYields(pending, chunk);
      (TakeAll(env, closeOnTerminate, l, ys, answers), rest)
  }

  ghost function ReadChunks(env: Env, closeOnTerminate: bool, l: Loop, pending: string, chunks: seq<string>,
                            answers: nat -> Answer)
    : (Loop, string)
  {
    if |chunks| == 0 then (l, pending)
    else
      var (before, rest) := ReadChunks(env, closeOnTerminate, l, pending, chunks[..|chunks| - 1], answers);
      ReadChunk(env, closeOnTerminate, before, rest, chunks[|chunks| - 1], answers)
  }

  // ----- What a stream makes of a replica

  /** Yields delivered to a replica in some state, and what surrounds each of them. */
  datatype Delivery = Delivery(
    env: Env, closeOnTerminate: bool, from: State, ys: seq<Yield>, answers: nat -> Answer)
  {
    /** The steps up to the k-th yield: the replica's own and those the yields stand for, in order. */
    ghost function Steps(k: nat): seq<Event>
      requires k <= |ys|
    {
      if k == 0 then []
      else Steps(k - 1) + answers(k - 1).before + EventsFor(ys[k - 1], answers(k - 1).now)
    }

    /** The state that yield k meets, and what becomes of it there. */
    ghost function Facing(k: nat): State
      requires k < |ys|
    {
      Run(env, from, Steps(k) + answers(k).before)
    }

    ghost function OutcomeOf(k: nat): Outcome
      requires k < |ys|
    {
      Process(env, Facing(k), ys[k], answers(k).now).1
    }

    ghost predicate Refused(k: nat)
      requires k < |ys|
    {
      OutcomeOf(k).Rejected? || (OutcomeOf(k).Done? && answers(k).threw)
    }

    /** How many in a row were refused up to yield k. */
    ghost function Streak(k: nat): nat
      requires k <= |ys|
    {
      if k == 0 || !Refused(k - 1) then 0 else Streak(k - 1) + 1
    }

    /** The channel is closed while yield k is at hand, by its being a termination or otherwise. */
    ghost predicate Deadly(k: nat)
      requires k < |ys|
    {
      answers(k).closed ||
      (closeOnTerminate && IsTermination(ys[k]) && OutcomeOf(k).Done? && !answers(k).threw)
    }

    ghost predicate DeadBefore(k: nat)
      requires k <= |ys|
    {
      exists j :: 0 <= j < k && Deadly(j)
    }

    /** Nothing is read after yield k: it is the sixteenth refused in a row, or it was taken and the
        channel has been closed. */
    ghost predicate Closing(k: nat)
      requires k < |ys|
    {
      if Refused(k) then Streak(k + 1) >= MAX_CONSECUTIVE_FRAME_ERRORS
      else DeadBefore(k + 1)
    }

    /** The loop has done everything up to the first closing yield, or everything when none closes. */
    ghost predicate Done(l: Loop) {
      && l.taken <= |ys| && l.state == Run(env, from, Steps(l.taken))
      && (forall k :: 0 <= k < l.taken - 1 ==> !Closing(k))
      && (l.stopped <==> l.taken > 0 && Closing(l.taken - 1))
      && (l.stopped <==> exists k :: 0 <= k < |ys| && Closing(k))
      && (!l.stopped ==> l.taken == |ys|)
    }
  }

  /** A row of n refusals ends before yield k exactly when the last n were refused. */
  lemma {:induction false} StreakMeans(d: Delivery, k: nat, n: nat)
    requires k <= |d.ys|
    ensures d.Streak(k) >= n <==> n <= k && forall i :: k - n <= i < k ==> d.Refused(i)
  {
    hide d.Refused;
    if k > 0 && n > 0 { StreakMeans(d, k - 1, n - 1); }
  }

  /** Two stretches of a run, one after the other. */
  lemma {:induction false} RunAppend(env: Env, s: State, a: seq<Event>, b: seq<Event>)
    ensures Run(env, Run(env, s, a), b) == Run(env, s, a + b)
    decreases |b|
  {
    hide Step;
    if |b| == 0 {
      assert a + b == a;
    } else {
      RunAppend(env, s, a, b[..|b| - 1]);
      assert (a + b)[..|a + b| - 1] == a + b[..|b| - 1];
    }
  }

  /** One yield, for a loop that has taken all before it and has not stopped. */
  lemma TakesNext(d: Delivery, l: Loop)
    requires l.taken < |d.ys| && !l.stopped
    requires l.state == Run(d.env, d.from, d.Steps(l.taken)) && l.errors == d.Streak(l.taken)
    requires l.dead <==> d.DeadBefore(l.taken)
    ensures
      var k := l.taken;
      var t := TakeOne(d.env, d.closeOnTerminate, l, d.ys[k], d.answers(k));
      && t.taken == k + 1 && t.state == Run(d.env, d.from, d.Steps(k + 1))
      && (t.stopped <==> d.Closing(k))
      && (!t.stopped ==> t.errors == d.Streak(k + 1) && (t.dead <==> d.DeadBefore(k + 1)))
  {
    hide Process, EventsFor, IsTermination, Run, d.DeadBefore;
    var k := l.taken;
    var y, a := d.ys[k], d.answers(k);
    RunAppend(d.env, d.from, d.Steps(k), a.before);
    ProcessIsRun(d.env, d.Facing(k), y, a.now);
    RunAppend(d.env, d.from, d.Steps(k) + a.before, EventsFor(y, a.now));
    DeadStep(d, k);
  }

  lemma DeadStep(d: Delivery, k: nat)
    requires k < |d.ys|
    ensures d.DeadBefore(k + 1) <==> d.DeadBefore(k) || d.Deadly(k)
  {
    hide d.Deadly;
  }

  /** What the loop has done with the first n yields. */
  lemma {:induction false} ReadsUpTo(d: Delivery, n: nat)
    requires n <= |d.ys|
    ensures var l := TakeAll(d.env, d.closeOnTerminate, Begin(d.from), d.ys[..n], d.answers);
      && l.taken <= n && l.state == Run(d.env, d.from, d.Steps(l.taken))
      && (forall k :: 0 <= k < l.taken - 1 ==> !d.Closing(k))
      && (l.stopped <==> l.taken > 0 && d.Closing(l.taken - 1))
      && (!l.stopped ==> l.taken == n && l.errors == d.Streak(n) && (l.dead <==> d.DeadBefore(n)))
  {
    hide TakeOne, d.Closing, d.DeadBefore, d.Streak, Run;
    var ys := d.ys[..n];
    if n == 0 {
      NothingRead(d);
    } else {
      ReadsUpTo(d, n - 1);
      assert ys[..n - 1] == d.ys[..n - 1];
      var l := TakeAll(d.env, d.closeOnTerminate, Begin(d.from), ys[..n - 1], d.answers);
      if l.stopped {
        StoppedStays(d.env, d.closeOnTerminate, l, ys[n - 1], d.answers(l.taken));
      } else {
        TakesNext(d, l);
      }
    }
  }

  lemma NothingRead(d: Delivery)
    ensures d.Streak(0) == 0 && !d.DeadBefore(0) && Run(d.env, d.from, d.Steps(0)) == d.from
  {
  }

  lemma StoppedStays(env: Env, closeOnTerminate: bool, l: Loop, y: Yield, a: Answer)
    requires l.stopped
    ensures TakeOne(env, closeOnTerminate, l, y, a) == l
  {
  }

  // ----- Chunks

  lemma {:induction false} TakeAppend(env: Env, c: bool, l: Loop, a: seq<Yield>, b: seq<Yield>, answers: nat -> Answer)
    ensures TakeAll(env, c, l, a + b, answers) == TakeAll(env, c, TakeAll(env, c, l, a, answers), b, answers)
    decreases |b|
  {
    hide TakeOne;
    if |b| == 0 {
      assert a + b == a;
    } else {
      TakeAppend(env, c, l, a, b[..|b| - 1], answers);
      assert (a + b)[..|a + b| - 1] == a + b[..|b| - 1];
    }
  }

  lemma {:induction false} StoppedTakesNone(env: Env, c: bool, l: Loop, ys: seq<Yield>, answers: nat -> Answer)
    requires l.stopped
    ensures TakeAll(env, c, l, ys, answers) == l
  {
    if |ys| > 0 { StoppedTakesNone(env, c, l, ys[..|ys| - 1], answers); }
  }

  lemma {:induction false} ReadsFirst(env: Env, c: bool, l: Loop, pending: string, chunks: seq<string>,
                             answers: nat -> Answer)
    requires |chunks| > 0
    ensures var (first, rest) := ReadChunk(env, c, l, pending, chunks[0], answers);
      ReadChunks(env, c, l, pending, chunks, answers) == ReadChunks(env, c, first, rest, chunks[1..], answers)
    decreases |chunks|
  {
    hide ReadChunk;
    if |chunks| == 1 {
      assert chunks[..0] == [];
    } else {
      ReadsFirst(env, c, l, pending, chunks[..|chunks| - 1], answers);
      assert chunks[..|chunks| - 1][1..] == chunks[1..][..|chunks[1..]| - 1];
    }
  }

  lemma {:induction false} StoppedReadsNone(env: Env, c: bool, l: Loop, pending: string, chunks: seq<string>,
                             answers: nat -> Answer)
    requires l.stopped
    ensures ReadChunks(env, c, l, pending, chunks, answers).0 == l
  {
    hide ChunkYields, TakeAll;
    if |chunks| > 0 { StoppedReadsNone(env, c, l, pending, chunks[..|chunks| - 1], answers); }
  }

  /** A loop that has stopped after some chunks is done with the stream. */
  lemma {:induction false} StopsReading(
      env: Env, c: bool, l: Loop, pending: string, chunks: seq<string>, n: nat, answers: nat -> Answer)
    requires n <= |chunks| && ReadChunks(env, c, l, pending, chunks[..n], answers).0.stopped
    ensures ReadChunks(env, c, l, pending, chunks, answers) == ReadChunks(env, c, l, pending, chunks[..n], answers)
    decreases |chunks|
  {
    hide ChunkYields, TakeAll;
    if n == |chunks| {
      assert chunks[..n] == chunks;
    } else {
      var front := chunks[..|chunks| - 1];
      assert front[..n] == chunks[..n];
      StopsReading(env, c, l, pending, front, n, answers);
    }
  }

  /** Reading chunk by chunk takes what the stream yields, chunks that fail to decode included. */
  lemma {:induction false} ReadsYields(env: Env, c: bool, l: Loop, pending: string, chunks: seq<string>,
                                       answers: nat -> Answer)
    ensures ReadChunks(env, c, l, pending, chunks, answers).0
         == TakeAll(env, c, l, StreamYields(pending, chunks), answers)
    decreases |chunks|
  {
    hide ChunkYields, TakeOne;
    if |chunks| == 0 {
    } else if l.stopped {
      StoppedReadsNone(env, c, l, pending, chunks, answers);
      StoppedTakesNone(env, c, l, StreamYields(pending, chunks), answers);
    } else {
      var (ys, rest) := ChunkYields(pending, chunks[0]);
      ReadsFirst(env, c, l, pending, chunks, answers);
      TakeAppend(env, c, l, ys, StreamYields(rest, chunks[1..]), answers);
      ReadsYields(env, c, TakeAll(env, c, l, ys, answers), rest, chunks[1..], answers);
    }
  }

  /** Whatever bytes arrive in whatever chunks, and whatever the replica does around each payload: the loop
      takes exactly the replica's own steps and those the payloads stand for, in order, up to the first
      payload or failed chunk that closes the channel, and all of them exactly when none does. */
  lemma LoopIsRun(d: Delivery, chunks: seq<string>)
    requires d.ys == StreamYields("", chunks)
    ensures d.Done(ReadChunks(d.env, d.closeOnTerminate, Begin(d.from), "", chunks, d.answers).0)
  {
    hide Run, TakeAll, ReadChunks, StreamYields, d.Closing, d.Steps;
    ReadsYields(d.env, d.closeOnTerminate, Begin(d.from), "", chunks, d.answers);
    assert d.ys[..|d.ys|] == d.ys;
    ReadsUpTo(d, |d.ys|);
  }

  /** Sixteen yields refused one after another close the channel, whatever comes after them; what is no
      message, and a chunk that fails to decode, is refused in every state. */
  lemma SixteenRefusals(d: Delivery, k: nat)
    requires k + MAX_CONSECUTIVE_FRAME_ERRORS <= |d.ys|
    requires forall i :: k <= i < k + MAX_CONSECUTIVE_FRAME_ERRORS ==> d.Refused(i) || d.ys[i].RawYield?
    ensures d.Closing(k + MAX_CONSECUTIVE_FRAME_ERRORS - 1)
  {
    forall i | k <= i < k + MAX_CONSECUTIVE_FRAME_ERRORS ensures d.Refused(i) {}
    hide d.Refused, d.DeadBefore, d.Streak;
    StreakMeans(d, k + MAX_CONSECUTIVE_FRAME_ERRORS, MAX_CONSECUTIVE_FRAME_ERRORS);
  }

  // ----- Messages

  ghost predicate MessagesOk(ms: seq<Message>) {
    forall i :: 0 <= i < |ms| ==> MessageOk(ms[i]) && |MessageText(ms[i])| <= D.MAX_FRAME_BYTES
  }

  function MeantAll(ms: seq<Message>): (ys: seq<Yield>)
    ensures |ys| == |ms|
  {
    seq(|ms|, i requires 0 <= i < |ms| => Meant(ms[i]))
  }

  /** A stream that decodes without failure yields its payloads. */
  lemma {:induction false} DecodedYields(pending: string, chunks: seq<string>)
    requires D.PushAll(pending, chunks).0.Yields?
    ensures StreamYields(pending, chunks) == YieldsOf(D.PushAll(pending, chunks).0.payloads)
    decreases |chunks|
  {
    hide D.Push, YieldOf;
    if |chunks| > 0 {
      var (first, rest) := D.Push(pending, chunks[0]);
      var later := D.PushAll(rest, chunks[1..]).0;
      DecodedYields(rest, chunks[1..]);
      assert YieldsOf(first.payloads + later.payloads) == YieldsOf(first.payloads) + YieldsOf(later.payloads);
    }
  }

  /** However the bytes of a list of messages are cut into chunks within the buffer's cap, the stream yields
      the messages in order, each standing for its own step. */
  lemma MessagesYield(ms: seq<Message>, chunks: seq<string>)
    requires MessagesOk(ms) && D.Flatten(chunks) == D.EncodeAll(TextsOf(ms)) && D.AllWithinCap("", chunks)
    ensures StreamYields("", chunks) == MeantAll(ms)
  {
    hide MessageText, MessageOk, YieldOf, Meant, D.PushAll, D.EncodeAll, D.Flatten, D.AllWithinCap, StreamYields;
    D.DecodeEncoded(TextsOf(ms), chunks);
    DecodedYields("", chunks);
    forall i | 0 <= i < |ms| ensures YieldsOf(TextsOf(ms))[i] == MeantAll(ms)[i] { MessageArrives(ms[i]); }
  }

  /** So the loop takes the steps of the messages, and of the replica around them, up to the first closing
      message, and all of them exactly when none closes. */
  lemma StreamIsRun(d: Delivery, ms: seq<Message>, chunks: seq<string>)
    requires MessagesOk(ms) && D.Flatten(chunks) == D.EncodeAll(TextsOf(ms)) && D.AllWithinCap("", chunks)
    requires d.ys == MeantAll(ms)
    ensures d.Done(ReadChunks(d.env, d.closeOnTerminate, Begin(d.from), "", chunks, d.answers).0)
    ensures forall k :: 0 <= k < |ms| ==>
      d.Steps(k + 1) == d.Steps(k) + d.answers(k).before + [EventOf(ms[k], d.answers(k).now)]
  {
    MessagesYield(ms, chunks);
    hide MessageText, D.EncodeAll, D.Flatten, D.AllWithinCap, ReadChunks, StreamYields, d.Done, EventsFor, MessageOk,
      Meant;
    LoopIsRun(d, chunks);
    forall k | 0 <= k < |ms|
      ensures d.Steps(k + 1) == d.Steps(k) + d.answers(k).before + [EventOf(ms[k], d.answers(k).now)]
    {
      MeantEvents(ms[k], d.answers(k).now);
    }
  }
}
