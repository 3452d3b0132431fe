/** Port aliases: following `ref` to the canonical port, and counting binds per canonical port. */
module PortRefs {
  import opened Text

  datatype Port = Port(id: string, kind: string, promise: string, ref: string)

  type Ports = map<string, Port>

  datatype Resolution =
    | Canonical(id: string, path: seq<string>)
    | Cycle(path: seq<string>)
    | Missing(missingId: string, path: seq<string>)

  function Ref(ports: Ports, id: string): string
    requires id in ports
  {
    Trim(ports[id].ref)
  }

  ghost function Visited(path: seq<string>): set<string> { set p | p in path }

  ghost predicate PathOk(ports: Ports, path: seq<string>) {
    forall i :: 0 <= i < |path| ==> path[i] in ports && Ref(ports, path[i]) != ""
  }

  /** Continue from `current`, having come along `path`. */
  function Walk(ports: Ports, current: string, path: seq<string>): Resolution
    requires PathOk(ports, path)
    decreases ports.Keys - Visited(path)
  {
    if current in path then Cycle(path)
    else if current !in ports then Missing(current, path + [current])
    else if Ref(ports, current) == "" then Canonical(current, path + [current])
    else
      assert Visited(path + [current]) == Visited(path) + {current};
      Walk(ports, Ref(ports, current), path + [current])
  }

  function Resolve(ports: Ports, start: string): Resolution { Walk(ports, start, []) }

  /** The endless loop over `current`, `path` and `visited`. */
  method ResolveCanonicalPortId(ports: Ports, startPortId: string) returns (r: Resolution)
    ensures r == Resolve(ports, startPortId)
  {
    var path: seq<string> := [];
    var visited: set<string> := {};
    var current := startPortId;
    while true
      invariant PathOk(ports, path) && visited == Visited(path)
      invariant Resolve(ports, startPortId) == Walk(ports, current, path)
      decreases ports.Keys - visited
    {
      if current in visited { return Cycle(path); }
      assert Visited(path + [current]) == Visited(path) + {current};
      if current !in ports { return Missing(current, path + [current]); }
      var next := Trim(ports[current].ref);
      if next == "" { return Canonical(current, path + [current]); }
      visited := visited + {current};
      path := path + [current];
      current := next;
    }
  }

  // ----- What resolution means, hop by hop

  /** The port one reaches after n hops, as long as every hop leaves a stored port by a non-empty ref. */
  function Hop(ports: Ports, start: string, n: nat): Option<string> {
    if n == 0 then Some(start)
    else match Hop(ports, start, n - 1)
      case Some(id) => if id in ports && Ref(ports, id) != "" then Some(Ref(ports, id)) else None
      case None => None
  }

  ghost predicate HopsToCanonical(ports: Ports, start: string, id: string) {
    exists n: nat :: Hop(ports, start, n) == Some(id) && id in ports && Ref(ports, id) == ""
  }

  ghost predicate HopsOffMap(ports: Ports, start: string, id: string) {
    exists n: nat :: Hop(ports, start, n) == Some(id) && id !in ports
  }

  ghost predicate HopsForEver(ports: Ports, start: string) { forall n: nat :: Hop(ports, start, n).Some? }

  lemma {:induction false} HopStops(ports: Ports, start: string, n: nat, m: nat)
    requires n <= m && Hop(ports, start, n) == None
    ensures Hop(ports, start, m) == None
    decreases m - n
  {
    if n < m { HopStops(ports, start, n + 1, m); }
  }

  /** A chain that comes back to an earlier port goes round for ever. */
  lemma {:induction false} RepeatHopsForEver(ports: Ports, start: string, i: nat, m: nat, n: nat) returns (k: nat)
    requires i < m && Hop(ports, start, i) == Hop(ports, start, m)
    requires forall j :: 0 <= j <= m ==> Hop(ports, start, j).Some?
    ensures k < m && Hop(ports, start, n) == Hop(ports, start, k)
  {
    if n < m {
      k := n;
    } else {
      var before := RepeatHopsForEver(ports, start, i, m, n - 1);
      assert Hop(ports, start, n) == Hop(ports, start, before + 1);
      k := if before + 1 == m then i else before + 1;
    }
  }

  /** The path holds the ports reached hop by hop. */
  ghost predicate Along(ports: Ports, start: string, path: seq<string>) {
    forall i :: 0 <= i < |path| ==> Hop(ports, start, i) == Some(path[i])
  }

  lemma CycleHopsForEver(ports: Ports, start: string, path: seq<string>, current: string)
    requires Along(ports, start, path) && Hop(ports, start, |path|) == Some(current) && current in path
    ensures HopsForEver(ports, start)
  {
    hide Hop;
    var i :| 0 <= i < |path| && path[i] == current;
    assert forall j :: 0 <= j < |path| ==> Hop(ports, start, j) == Some(path[j]);
    forall n: nat ensures Hop(ports, start, n).Some? {
      var k := RepeatHopsForEver(ports, start, i, |path|, n);
    }
  }

  lemma AlongNext(ports: Ports, start: string, path: seq<string>, current: string)
    requires Along(ports, start, path) && Hop(ports, start, |path|) == Some(current)
    requires current in ports && Ref(ports, current) != ""
    ensures Along(ports, start, path + [current])
    ensures Hop(ports, start, |path| + 1) == Some(Ref(ports, current))
  {
  }

  lemma {:induction false} WalkMeaning(ports: Ports, start: string, current: string, path: seq<string>)
    requires PathOk(ports, path) && Along(ports, start, path) && Hop(ports, start, |path|) == Some(current)
    ensures match Walk(ports, current, path)
      case Canonical(id, _) => HopsToCanonical(ports, start, id)
      case Missing(id, _) => HopsOffMap(ports, start, id)
      case Cycle(_) => HopsForEver(ports, start)
    ensures Along(ports, start, Walk(ports, current, path).path)
    decreases ports.Keys - Visited(path)
  {
    hide Hop, HopsForEver;
    if current in path {
      CycleHopsForEver(ports, start, path, current);
    } else if current in ports && Ref(ports, current) != "" {
      AlongNext(ports, start, path, current);
      assert Visited(path + [current]) == Visited(path) + {current};
      WalkMeaning(ports, start, Ref(ports, current), path + [current]);
    }
  }

  lemma EndingsExclude(ports: Ports, start: string, n: nat, m: nat)
    requires Hop(ports, start, n).Some? && Hop(ports, start, n + 1) == None
    requires Hop(ports, start, m).Some? && Hop(ports, start, m + 1) == None
    ensures n == m
  {
    if n < m { HopStops(ports, start, n + 1, m); }
    if m < n { HopStops(ports, start, m + 1, n); }
  }

  /** The verdict, hop by hop. */
  lemma ResolutionByHops(ports: Ports, start: string, id: string)
    ensures (Resolve(ports, start).Canonical? && Resolve(ports, start).id == id) <==> HopsToCanonical(ports, start, id)
    ensures (Resolve(ports, start).Missing? && Resolve(ports, start).missingId == id) <==> HopsOffMap(ports, start, id)
    ensures Resolve(ports, start).Cycle? <==> HopsForEver(ports, start)
  {
    WalkMeaning(ports, start, start, []);
    var n, last := Ending(ports, start);
    forall m: nat, other: string | Hop(ports, start, m) == Some(other) && (other !in ports || Ref(ports, other) == "")
      ensures !Resolve(ports, start).Cycle? && m == n && other == last
    {
      assert Hop(ports, start, m + 1) == None;
      if !Resolve(ports, start).Cycle? { EndingsExclude(ports, start, n, m); }
    }
  }

  /** Where the chain ends, if it does. */
  lemma Ending(ports: Ports, start: string) returns (n: nat, last: string)
    ensures !Resolve(ports, start).Cycle? ==> Hop(ports, start, n) == Some(last) && Hop(ports, start, n + 1) == None
    ensures Resolve(ports, start).Canonical? ==>
      last == Resolve(ports, start).id && last in ports && Ref(ports, last) == ""
    ensures Resolve(ports, start).Missing? ==> last == Resolve(ports, start).missingId && last !in ports
  {
    WalkMeaning(ports, start, start, []);
    match Resolve(ports, start) {
      case Canonical(id, _) =>
        n, last :| Hop(ports, start, n) == Some(last) && last == id && id in ports && Ref(ports, id) == "";
      case Missing(id, _) =>
        n, last :| Hop(ports, start, n) == Some(last) && last == id && id !in ports;
      case Cycle(_) => n, last := 0, start;
    }
  }

  // ----- What resolution means, by the stored fields alone

  /** The port's field holds `r`, with nothing but white space around it. */
  ghost predicate RefersTo(ports: Ports, id: string, r: string) { id in ports && IsCore(ports[id].ref, r) }

  /** After n steps, each from a stored port to what it refers to, one stands at `id`. */
  ghost predicate Leads(ports: Ports, start: string, n: nat, id: string) {
    if n == 0 then id == start
    else id != "" && exists before :: Leads(ports, start, n - 1, before) && RefersTo(ports, before, id)
  }

  ghost predicate ReachesCanonical(ports: Ports, start: string, id: string) {
    exists n: nat :: Leads(ports, start, n, id) && RefersTo(ports, id, "")
  }

  ghost predicate LeavesMap(ports: Ports, start: string, id: string) {
    exists n: nat :: Leads(ports, start, n, id) && id !in ports
  }

  ghost predicate GoesOn(ports: Ports, start: string, n: nat) { exists id :: Leads(ports, start, n, id) }

  ghost predicate NeverEnds(ports: Ports, start: string) { forall n: nat :: GoesOn(ports, start, n) }

  lemma {:induction false} LeadsByHop(ports: Ports, start: string, n: nat, id: string)
    ensures Leads(ports, start, n, id) <==> Hop(ports, start, n) == Some(id)
  {
    hide IsCore, Trim;
    if n > 0 {
      forall before | before in ports ensures IsCore(ports[before].ref, id) <==> Ref(ports, before) == id {
        TrimIsCore(ports[before].ref, id);
      }
      forall before ensures Leads(ports, start, n - 1, before) <==> Hop(ports, start, n - 1) == Some(before) {
        LeadsByHop(ports, start, n - 1, before);
      }
      if Hop(ports, start, n) == Some(id) {
        var before := Hop(ports, start, n - 1).value;
        assert Leads(ports, start, n - 1, before) && RefersTo(ports, before, id) && id != "";
      }
      if Leads(ports, start, n, id) {
        var before :| Leads(ports, start, n - 1, before) && RefersTo(ports, before, id);
        assert Hop(ports, start, n - 1) == Some(before) && Ref(ports, before) == id;
      }
    }
  }

  lemma LeadsToVerdict(ports: Ports, start: string, id: string)
    ensures ReachesCanonical(ports, start, id) <==> HopsToCanonical(ports, start, id)
    ensures LeavesMap(ports, start, id) <==> HopsOffMap(ports, start, id)
    ensures NeverEnds(ports, start) <==> HopsForEver(ports, start)
  {
    hide IsCore, Trim, Leads, Hop;
    if id in ports { TrimIsCore(ports[id].ref, ""); }
    forall n: nat, other ensures Leads(ports, start, n, other) <==> Hop(ports, start, n) == Some(other) {
      LeadsByHop(ports, start, n, other);
    }
    forall n: nat ensures GoesOn(ports, start, n) <==> Hop(ports, start, n).Some? {
      if Hop(ports, start, n).Some? { assert Leads(ports, start, n, Hop(ports, start, n).value); }
    }
  }

  ghost predicate NoRepeats(path: seq<string>) { forall i, j :: 0 <= i < j < |path| ==> path[i] != path[j] }

  /** The path passes no port twice, ends where the verdict says, and in a cycle goes on to a port it has passed. */
  ghost predicate PathFits(ports: Ports, start: string, r: Resolution) {
    && NoRepeats(r.path)
    && match r
       case Canonical(id, path) => |path| > 0 && path[|path| - 1] == id
       case Missing(id, path) => |path| > 0 && path[|path| - 1] == id
       case Cycle(path) => exists next :: next in path && Leads(ports, start, |path|, next)
  }

  lemma {:induction false} WalkPath(ports: Ports, start: string, current: string, path: seq<string>)
    requires PathOk(ports, path) && NoRepeats(path)
    requires Along(ports, start, path) && Hop(ports, start, |path|) == Some(current)
    ensures PathFits(ports, start, Walk(ports, current, path))
    decreases ports.Keys - Visited(path)
  {
    hide Hop, Leads;
    if current in path {
      LeadsByHop(ports, start, |path|, current);
    } else if current in ports && Ref(ports, current) != "" {
      AlongNext(ports, start, path, current);
      assert Visited(path + [current]) == Visited(path) + {current};
      WalkPath(ports, start, Ref(ports, current), path + [current]);
    }
  }

  /** Resolution reports canonical, missing or cycle exactly when following the stored refs reaches a port
      whose ref is blank, leaves the map, or never ends; and its path lists the ports passed, in order, once each. */
  lemma ResolutionExact(ports: Ports, start: string, id: string)
    ensures (Resolve(ports, start).Canonical? && Resolve(ports, start).id == id) <==> ReachesCanonical(ports, start, id)
    ensures (Resolve(ports, start).Missing? && Resolve(ports, start).missingId == id) <==> LeavesMap(ports, start, id)
    ensures Resolve(ports, start).Cycle? <==> NeverEnds(ports, start)
    ensures forall i :: 0 <= i < |Resolve(ports, start).path| ==> Leads(ports, start, i, Resolve(ports, start).path[i])
    ensures PathFits(ports, start, Resolve(ports, start))
  {
    hide Leads, PathFits, ReachesCanonical, LeavesMap, NeverEnds, HopsToCanonical, HopsOffMap, HopsForEver;
    ResolutionByHops(ports, start, id);
    LeadsToVerdict(ports, start, id);
    WalkMeaning(ports, start, start, []);
    WalkPath(ports, start, start, []);
    forall i | 0 <= i < |Resolve(ports, start).path|
      ensures Leads(ports, start, i, Resolve(ports, start).path[i])
    {
      LeadsByHop(ports, start, i, Resolve(ports, start).path[i]);
    }
  }

  // ----- Growing the map

  lemma {:induction false} WalkStable(ports: Ports, more: Ports, current: string, path: seq<string>)
    requires PathOk(ports, path) && PathOk(more, path)
    requires forall id :: id in ports ==> id in more && more[id] == ports[id]
    requires Walk(ports, current, path).Canonical?
    ensures Walk(more, current, path) == Walk(ports, current, path)
    decreases ports.Keys - Visited(path)
  {
    if current !in path && current in ports && Ref(ports, current) != "" {
      assert Visited(path + [current]) == Visited(path) + {current};
      WalkStable(ports, more, Ref(ports, current), path + [current]);
    }
  }

  /** Storing more ports never changes what an existing port resolves to. */
  lemma ResolveStable(ports: Ports, more: Ports, id: string)
    requires forall k :: k in ports ==> k in more && more[k] == ports[k]
    requires Resolve(ports, id).Canonical?
    ensures Resolve(more, id) == Resolve(ports, id)
  {
    WalkStable(ports, more, id, []);
  }

  /** Every stored port resolves. */
  ghost predicate Closed(ports: Ports) { forall id :: id in ports ==> Resolve(ports, id).Canonical? }

  /** What a port resolves to is a stored port without ref. */
  lemma CanonicalIsStored(ports: Ports, id: string)
    requires Resolve(ports, id).Canonical?
    ensures var c := Resolve(ports, id).id; c in ports && Ref(ports, c) == ""
    ensures id in ports
  {
    WalkMeaning(ports, id, id, []);
  }

  lemma {:induction false} HopShift(ports: Ports, start: string, n: nat)
    requires start in ports && Ref(ports, start) != ""
    ensures Hop(ports, start, n + 1) == Hop(ports, Ref(ports, start), n)
  {
    if n > 0 { HopShift(ports, start, n - 1); }
  }

  lemma AliasResolves(ports: Ports, id: string)
    requires id in ports && Ref(ports, id) != "" && Resolve(ports, Ref(ports, id)).Canonical?
    ensures Resolve(ports, id).Canonical?
  {
    var target := Ref(ports, id);
    var c := Resolve(ports, target).id;
    ResolutionByHops(ports, target, c);
    var n: nat :| Hop(ports, target, n) == Some(c) && c in ports && Ref(ports, c) == "";
    HopShift(ports, id, n);
    assert HopsToCanonical(ports, id, c);
    hide Resolve, Hop;
    ResolutionByHops(ports, id, c);
  }

  /** A new port resolves exactly when its ref is blank or names a port that was stored before. */
  lemma NewPortResolves(ports: Ports, port: Port, target: string)
    requires Closed(ports) && port.id !in ports && IsCore(port.ref, target)
    ensures Resolve(ports[port.id := port], port.id).Canonical? <==> target == "" || target in ports
  {
    TrimIsCore(port.ref, target);
    hide IsCore, Trim;
    var grown, id := ports[port.id := port], port.id;
    assert Ref(grown, id) == target;
    if target in ports {
      if target != "" {
        ResolveStable(ports, grown, target);
        AliasResolves(grown, id);
      }
    } else if target != "" {
      var none: seq<string> := [];
      assert none + [id] == [id] && PathOk(grown, [id]);
      assert Resolve(grown, id) == Walk(grown, target, [id]);
    }
  }

  // ----- Counting binds

  datatype Bind<T> = Bind(offerId: string, portId: string, payload: T)

  predicate ResolvesTo(ports: Ports, id: string, canonicalId: string) {
    Resolve(ports, id).Canonical? && Resolve(ports, id).id == canonicalId
  }

  /** How many binds resolve to the canonical port. */
  function Tally<T>(binds: seq<Bind<T>>, ports: Ports, canonicalId: string): nat {
    if |binds| == 0 then 0
    else
      Tally(binds[..|binds| - 1], ports, canonicalId) +
      if ResolvesTo(ports, binds[|binds| - 1].portId, canonicalId) then 1 else 0
  }

  method CountBindsForCanonicalPort<T>(binds: seq<Bind<T>>, ports: Ports, canonicalId: string) returns (count: nat)
    ensures count == Tally(binds, ports, canonicalId)
  {
    count := 0;
    for i := 0 to |binds|
      invariant count == Tally(binds[..i], ports, canonicalId)
    {
      var resolved := ResolveCanonicalPortId(ports, binds[i].portId);
      assert binds[..i + 1][..i] == binds[..i];
      if resolved.Canonical? && resolved.id == canonicalId { count := count + 1; }
    }
    assert binds[..|binds|] == binds;
  }

  /** Storing more ports never changes a tally of resolvable binds. */
  lemma {:induction false} TallyStable<T>(binds: seq<Bind<T>>, ports: Ports, more: Ports, c: string)
    requires forall k :: k in ports ==> k in more && more[k] == ports[k]
    requires forall i :: 0 <= i < |binds| ==> Resolve(ports, binds[i].portId).Canonical?
    ensures Tally(binds, more, c) == Tally(binds, ports, c)
  {
    if |binds| > 0 {
      TallyStable(binds[..|binds| - 1], ports, more, c);
      ResolveStable(ports, more, binds[|binds| - 1].portId);
    }
  }

  lemma TallyAppend<T>(binds: seq<Bind<T>>, b: Bind<T>, ports: Ports, c: string)
    ensures Tally(binds + [b], ports, c) == Tally(binds, ports, c) + if ResolvesTo(ports, b.portId, c) then 1 else 0
  {
    assert (binds + [b])[..|binds|] == binds;
  }
}
