/** Hybrid logical clocks over any number of nodes with arbitrary wall clocks. */
module Hlc {
  import opened Text

  datatype Timestamp = Timestamp(pt: int, lc: int)

  function Max(a: int, b: int): int { if a > b then a else b }

  function SendStamp(s: Timestamp, wall: int): Timestamp {
    var pt := Max(s.pt, wall);
    Timestamp(pt, if pt == s.pt then s.lc + 1 else 0)
  }

  function RecvStamp(s: Timestamp, msg: Timestamp, wall: int): Timestamp {
    var pt := Max(Max(s.pt, msg.pt), wall);
    Timestamp(pt,
      if pt == s.pt && pt == msg.pt then Max(s.lc, msg.lc) + 1
      else if pt == s.pt then s.lc + 1
      else if pt == msg.pt then msg.lc + 1
      else 0)
  }

  class HlcState {
    var pt: int
    var lc: int

    function Now(): Timestamp
      reads this
    {
      Timestamp(pt, lc)
    }

    constructor (wallMs: int)
      ensures Now() == Timestamp(wallMs, 0)
    {
      pt, lc := wallMs, 0;
    }

    method Send(wallMs: int) returns (t: Timestamp)
      modifies this
      ensures t == Now() == SendStamp(old(Now()), wallMs)
    {
      var p := Max(pt, wallMs);
      var l := if p == pt then lc + 1 else 0;
      pt, lc := p, l;
      t := Timestamp(p, l);
    }

    method Recv(msg: Timestamp, wallMs: int)
      modifies this
      ensures Now() == RecvStamp(old(Now()), msg, wallMs)
    {
      var p := Max(Max(pt, msg.pt), wallMs);
      var l := 0;
      if p == pt && p == msg.pt {
        l := Max(lc, msg.lc) + 1;
      } else if p == pt {
        l := lc + 1;
      } else if p == msg.pt {
        l := msg.lc + 1;
      }
      pt, lc := p, l;
    }
  }

  // ----- Runs

  /** What happens at one node: it is created, sends, or receives what an earlier event sent. */
  datatype Event =
    | Create(node: nat, wall: int)
    | Send(node: nat, wall: int)
    | Recv(node: nat, wall: int, from: nat)

  /** The latest event before position i at the same node, if any. */
  function Previous(run: seq<Event>, i: nat, upTo: nat): (p: Option<nat>)
    requires i < |run| && upTo <= i
    ensures p.Some? ==> p.value < upTo && run[p.value].node == run[i].node
    ensures p.Some? ==> forall k :: p.value < k < upTo ==> run[k].node != run[i].node
    ensures p.None? ==> forall k :: 0 <= k < upTo ==> run[k].node != run[i].node
  {
    if upTo == 0 then None
    else if run[upTo - 1].node == run[i].node then Some(upTo - 1)
    else Previous(run, i, upTo - 1)
  }

  /** A node is created first and once; what is received was sent before. */
  predicate EventOk(run: seq<Event>, i: nat)
    requires i < |run|
  {
    && (run[i].Create? <==> Previous(run, i, i).None?)
    && (run[i].Recv? ==> run[i].from < i && run[run[i].from].Send?)
  }

  predicate IsRun(run: seq<Event>) { forall i :: 0 <= i < |run| ==> EventOk(run, i) }

  /** The clocks of all nodes and the timestamps of all events so far. */
  datatype World = World(clocks: map<nat, Timestamp>, stamps: seq<Timestamp>)

  /** One event of a run: the node's clock moves and the event is stamped with it. */
  function Step(w: World, e: Event): World
    requires !e.Create? ==> e.node in w.clocks
    requires e.Recv? ==> e.from < |w.stamps|
  {
    var t :=
      match e
      case Create(_, wall) => Timestamp(wall, 0)
      case Send(node, wall) => SendStamp(w.clocks[node], wall)
      case Recv(node, wall, from) => RecvStamp(w.clocks[node], w.stamps[from], wall);
    World(w.clocks[e.node := t], w.stamps + [t])
  }

  /** The world after the first n events. */
  function After(run: seq<Event>, n: nat): (w: World)
    requires IsRun(run) && n <= |run|
    ensures |w.stamps| == n
    ensures forall i :: 0 <= i < n ==> run[i].node in w.clocks
  {
    if n == 0 then World(map[], [])
    else
      var w := After(run, n - 1);
      assert EventOk(run, n - 1);
      assert !run[n - 1].Create? ==> run[Previous(run, n - 1, n - 1).value].node in w.clocks;
      Step(w, run[n - 1])
  }

  /** A node's clock is the stamp of its latest event. */
  lemma {:induction false} ClockIsLatestStamp(run: seq<Event>, n: nat, i: nat)
    requires IsRun(run) && i < n <= |run| && forall k :: i < k < n ==> run[k].node != run[i].node
    ensures After(run, n).clocks[run[i].node] == After(run, n).stamps[i]
  {
    assert EventOk(run, n - 1);
    if i < n - 1 { ClockIsLatestStamp(run, n - 1, i); }
  }

  function Stamp(run: seq<Event>, i: nat): Timestamp
    requires IsRun(run) && i < |run|
  {
    After(run, i + 1).stamps[i]
  }

  lemma {:induction false} StampStays(run: seq<Event>, i: nat, n: nat)
    requires IsRun(run) && i < n <= |run|
    ensures After(run, n).stamps[i] == Stamp(run, i)
    decreases n
  {
    if n > i + 1 {
      assert EventOk(run, n - 1);
      StampStays(run, i, n - 1);
    }
  }

  /** The event's timestamp in terms of the events it directly follows. */
  lemma StampRule(run: seq<Event>, i: nat)
    requires IsRun(run) && i < |run|
    ensures EventOk(run, i)
    ensures run[i].Create? ==> Stamp(run, i) == Timestamp(run[i].wall, 0)
    ensures run[i].Send? ==>
      Stamp(run, i) == SendStamp(Stamp(run, Previous(run, i, i).value), run[i].wall)
    ensures run[i].Recv? ==>
      Stamp(run, i) == RecvStamp(Stamp(run, Previous(run, i, i).value), Stamp(run, run[i].from), run[i].wall)
  {
    assert EventOk(run, i);
    if !run[i].Create? {
      var p := Previous(run, i, i).value;
      ClockIsLatestStamp(run, i, p);
      StampStays(run, p, i);
    }
    if run[i].Recv? {
      StampStays(run, run[i].from, i);
    }
  }

  // ----- Causality

  /** j directly follows i: the next event at its node, or the receipt of what it sent. */
  predicate Follows(run: seq<Event>, i: nat, j: nat)
    requires IsRun(run) && i < |run| && j < |run|
  {
    Previous(run, j, j) == Some(i) || (run[j].Recv? && run[j].from == i)
  }

  /** A chain of events each of which directly follows the one before. */
  predicate IsPath(run: seq<Event>, path: seq<nat>)
    requires IsRun(run)
  {
    && |path| > 0
    && (forall k :: 0 <= k < |path| ==> path[k] < |run|)
    && (forall k :: 1 <= k < |path| ==> Follows(run, path[k - 1], path[k]))
  }

  predicate Before(a: Timestamp, b: Timestamp) { a.pt < b.pt || (a.pt == b.pt && a.lc < b.lc) }

  lemma FollowsBefore(run: seq<Event>, i: nat, j: nat)
    requires IsRun(run) && i < |run| && j < |run| && Follows(run, i, j)
    ensures Before(Stamp(run, i), Stamp(run, j)) && i < j
  {
    StampRule(run, j);
  }

  lemma PathFront(run: seq<Event>, path: seq<nat>)
    requires IsRun(run) && IsPath(run, path) && |path| > 1
    ensures IsPath(run, path[..|path| - 1]) && Follows(run, path[|path| - 2], path[|path| - 1])
  {
  }

  lemma PathExtend(run: seq<Event>, path: seq<nat>, j: nat)
    requires IsRun(run) && IsPath(run, path) && j < |run| && Follows(run, path[|path| - 1], j)
    ensures IsPath(run, path + [j])
  {
    var longer := path + [j];
    forall k | 1 <= k < |longer| ensures Follows(run, longer[k - 1], longer[k]) {
      if k < |path| { assert longer[k - 1] == path[k - 1] && longer[k] == path[k]; }
    }
  }

  /** An event that causally precedes another has a strictly smaller timestamp. */
  lemma {:induction false} CausalityRespected(run: seq<Event>, path: seq<nat>)
    requires IsRun(run) && IsPath(run, path) && |path| > 1
    ensures Before(Stamp(run, path[0]), Stamp(run, path[|path| - 1]))
  {
    PathFront(run, path);
    FollowsBefore(run, path[|path| - 2], path[|path| - 1]);
    if |path| > 2 { CausalityRespected(run, path[..|path| - 1]); }
  }

  lemma {:induction false} WallIsBelow(run: seq<Event>, path: seq<nat>)
    requires IsRun(run) && IsPath(run, path)
    ensures run[path[0]].wall <= Stamp(run, path[|path| - 1]).pt
  {
    StampRule(run, path[0]);
    if |path| > 1 { CausalityRespected(run, path); }
  }

  /** A causal chain to j that starts at the wall reading its pt came from. */
  lemma {:induction false} WallWitness(run: seq<Event>, j: nat) returns (path: seq<nat>)
    requires IsRun(run) && j < |run|
    ensures IsPath(run, path) && path[|path| - 1] == j && run[path[0]].wall == Stamp(run, j).pt
  {
    StampRule(run, j);
    var pt := Stamp(run, j).pt;
    if pt == run[j].wall {
      path := [j];
    } else {
      var p := Previous(run, j, j).value;
      var i := if Stamp(run, p).pt == pt then p else run[j].from;
      FollowsBefore(run, i, j);
      path := WallWitness(run, i);
      PathExtend(run, path, j);
      path := path + [j];
    }
  }

  /** pt is exactly the largest wall reading in the event's causal past, the event included. */
  lemma PhysicalPartIsLargestWall(run: seq<Event>, j: nat)
    requires IsRun(run) && j < |run|
    ensures forall path :: IsPath(run, path) && path[|path| - 1] == j ==> run[path[0]].wall <= Stamp(run, j).pt
    ensures exists path :: IsPath(run, path) && path[|path| - 1] == j && run[path[0]].wall == Stamp(run, j).pt
  {
    forall path | IsPath(run, path) && path[|path| - 1] == j ensures run[path[0]].wall <= Stamp(run, j).pt {
      WallIsBelow(run, path);
    }
    var path := WallWitness(run, j);
  }

  /** All events of the chain have the given physical part. */
  predicate AtPt(run: seq<Event>, path: seq<nat>, pt: int)
    requires IsRun(run) && IsPath(run, path)
  {
    forall k :: 0 <= k < |path| ==> Stamp(run, path[k]).pt == pt
  }

  lemma {:induction false} ChainIsShort(run: seq<Event>, path: seq<nat>)
    requires IsRun(run) && IsPath(run, path) && AtPt(run, path, Stamp(run, path[|path| - 1]).pt)
    ensures |path| <= Stamp(run, path[|path| - 1]).lc + 1
  {
    var j := path[|path| - 1];
    if |path| == 1 {
      LogicalPartNonNegative(run, j);
    } else {
      PathFront(run, path);
      FollowsBefore(run, path[|path| - 2], j);
      ChainIsShort(run, path[..|path| - 1]);
    }
  }

  lemma {:induction false} LogicalPartNonNegative(run: seq<Event>, j: nat)
    requires IsRun(run) && j < |run|
    ensures Stamp(run, j).lc >= 0
  {
    StampRule(run, j);
    if !run[j].Create? { LogicalPartNonNegative(run, Previous(run, j, j).value); }
    if run[j].Recv? { LogicalPartNonNegative(run, run[j].from); }
  }

  lemma {:induction false} LongChain(run: seq<Event>, j: nat) returns (path: seq<nat>)
    requires IsRun(run) && j < |run|
    ensures IsPath(run, path) && path[|path| - 1] == j && AtPt(run, path, Stamp(run, j).pt)
    ensures |path| == Stamp(run, j).lc + 1
  {
    StampRule(run, j);
    if Stamp(run, j).lc == 0 {
      path := [j];
    } else {
      var i := LogicalSource(run, j);
      path := LongChain(run, i);
      PathExtend(run, path, j);
      path := path + [j];
    }
  }

  /** A positive logical part is one more than that of an event j directly follows. */
  lemma LogicalSource(run: seq<Event>, j: nat) returns (i: nat)
    requires IsRun(run) && j < |run| && Stamp(run, j).lc != 0
    ensures i < j && Follows(run, i, j)
    ensures Stamp(run, i).pt == Stamp(run, j).pt && Stamp(run, i).lc + 1 == Stamp(run, j).lc
  {
    StampRule(run, j);
    var p := Previous(run, j, j).value;
    var s, t := Stamp(run, p), Stamp(run, j);
    i := if s.pt == t.pt && s.lc + 1 == t.lc then p else run[j].from;
    FollowsBefore(run, i, j);
  }

  /** lc is exactly one less than the longest causal chain of events with that pt that ends here. */
  lemma LogicalPartIsLongestChain(run: seq<Event>, j: nat)
    requires IsRun(run) && j < |run|
    ensures forall path :: IsPath(run, path) && path[|path| - 1] == j && AtPt(run, path, Stamp(run, j).pt)
              ==> |path| <= Stamp(run, j).lc + 1
    ensures exists path :: IsPath(run, path) && path[|path| - 1] == j && AtPt(run, path, Stamp(run, j).pt)
              && |path| == Stamp(run, j).lc + 1
  {
    forall path | IsPath(run, path) && path[|path| - 1] == j && AtPt(run, path, Stamp(run, j).pt)
      ensures |path| <= Stamp(run, j).lc + 1
    {
      ChainIsShort(run, path);
    }
    var path := LongChain(run, j);
  }

  // ----- The conservative reading used for bind windows

  datatype Sample = Sample(peerPt: int, recvMs: int)

  const HLC_MIN_SAMPLES: int := 1
  const HLC_MAX_SKEW_MS: real := 30000.0

  function SkewSum(samples: seq<Sample>): int {
    if |samples| == 0 then 0
    else SkewSum(samples[..|samples| - 1]) + samples[|samples| - 1].recvMs - samples[|samples| - 1].peerPt
  }

  function Skew(samples: seq<Sample>): Option<real> {
    if |samples| < HLC_MIN_SAMPLES then None else Some(SkewSum(samples) as real / |samples| as real)
  }

  method EstimateSkewMs(samples: seq<Sample>) returns (offset: Option<real>)
    ensures offset == Skew(samples)
  {
    if |samples| < HLC_MIN_SAMPLES { return None; }
    var sum := 0;
    for i := 0 to |samples|
      invariant sum == SkewSum(samples[..i])
    {
      assert samples[..i + 1][..i] == samples[..i];
      sum := sum + (samples[i].recvMs - samples[i].peerPt);
    }
    assert samples[..|samples|] == samples;
    return Some(sum as real / |samples| as real);
  }

  function RecvTotal(samples: seq<Sample>): int {
    if |samples| == 0 then 0 else RecvTotal(samples[..|samples| - 1]) + samples[|samples| - 1].recvMs
  }

  function PeerTotal(samples: seq<Sample>): int {
    if |samples| == 0 then 0 else PeerTotal(samples[..|samples| - 1]) + samples[|samples| - 1].peerPt
  }

  lemma {:induction false} SumIsDifference(samples: seq<Sample>)
    ensures SkewSum(samples) == RecvTotal(samples) - PeerTotal(samples)
  {
    if |samples| > 0 { SumIsDifference(samples[..|samples| - 1]); }
  }

  /** The offset is how much later, on average, the samples were received than the peers' clocks said. */
  lemma SkewIsMean(samples: seq<Sample>)
    ensures Skew(samples).None? <==> samples == []
    ensures Skew(samples).Some? ==>
      Skew(samples).value * |samples| as real == (RecvTotal(samples) - PeerTotal(samples)) as real
  {
    SumIsDifference(samples);
  }

  /** hlcPhysicalNow. */
  function PhysicalNow(s: Timestamp, wallMs: int): int { Max(s.pt, wallMs) }

  /** Nothing when there are too few samples or the skew is too large. */
  function ConservativeEffectiveNow(s: Timestamp, wallMs: int, samples: seq<Sample>,
                                    maxSkewMs: real := HLC_MAX_SKEW_MS, minSamples: int := HLC_MIN_SAMPLES)
    : (now: Option<real>)
    ensures now.Some? ==> now.value >= s.pt as real && now.value >= wallMs as real
  {
    match Skew(samples)
    case None => None
    case Some(offset) =>
      if |samples| < minSamples then None
      else if (if offset < 0.0 then -offset else offset) > maxSkewMs then None
      else
        var hlcNow := PhysicalNow(s, wallMs) as real;
        var skewed := wallMs as real + offset;
        Some(if skewed > hlcNow then skewed else hlcNow)
  }

  lemma SameFactor(x: real, y: real, n: real)
    requires n != 0.0 && x * n == y * n
    ensures x == y
  {
    assert x == x * n / n && y == y * n / n;
  }

  /** The reading is refused exactly with no samples, too few, or an offset beyond the limit either way; otherwise it
      is the latest of the clock, the wall and the wall moved by the offset. */
  lemma EffectiveNowExactly(s: Timestamp, wallMs: int, samples: seq<Sample>, maxSkewMs: real, minSamples: int,
                            offset: real)
    requires samples != [] ==> offset * |samples| as real == (RecvTotal(samples) - PeerTotal(samples)) as real
    ensures var now := ConservativeEffectiveNow(s, wallMs, samples, maxSkewMs, minSamples);
      && (now.None? <==> samples == [] || |samples| < minSamples || offset > maxSkewMs || -offset > maxSkewMs)
      && (now.Some? ==>
            && now.value >= s.pt as real && now.value >= wallMs as real && now.value >= wallMs as real + offset
            && now.value in {s.pt as real, wallMs as real, wallMs as real + offset})
  {
    SkewIsMean(samples);
    if samples != [] {
      var mean, n := Skew(samples).value, |samples| as real;
      assert mean == offset by { SameFactor(mean, offset, n); }
    }
  }
}
