/** The session log and the Merkle checkpoint that two peers compare. */
module SessionMerkle {
  import opened Text
  import opened Digests
  import opened MerkleTree
  import opened CanonicalJson

  datatype SessionOp = SessionOp(kind: string, payload: Json, sessionId: string)

  datatype Checkpoint = Checkpoint(seqNo: int, rootHex: string)

  function OpJson(op: SessionOp): Json {
    JObject(map["kind" := JString(op.kind), "payload" := op.payload, "session_id" := JString(op.sessionId)])
  }

  ghost predicate IsOp(op: SessionOp) { IsDocument(op.payload) }

  ghost predicate IsLog(ops: seq<SessionOp>) { forall i :: 0 <= i < |ops| ==> IsOp(ops[i]) }

  const LEAF_TAG := "OBP_SESSION_LEAF_v1"
  const EMPTY_LOG_LITERAL := "__empty_session_op_log__"

  ghost function LeafText(op: SessionOp): string { LEAF_TAG + "\0" + Print(OpJson(op)) }

  const EMPTY_LOG_TEXT := LEAF_TAG + "\0" + EMPTY_LOG_LITERAL

  function InternalText(left: string, right: string): string { [1 as char] + left + right }

  function InternalDigest(sha: Sha): Node<string>
    requires Sha256Like(sha)
  {
    (left, right) => ShaBytes(sha, InternalText(left, right))
  }

  ghost function LeafDigests(sha: Sha, ops: seq<SessionOp>): (ds: seq<string>)
    requires Sha256Like(sha)
    ensures |ds| == |ops|
    ensures forall i :: 0 <= i < |ds| ==> |ds[i]| == 32
  {
    seq(|ops|, i requires 0 <= i < |ops| => ShaBytes(sha, LeafText(ops[i])))
  }

  function RootHex(sha: Sha, digests: seq<string>): string
    requires Sha256Like(sha)
  {
    if |digests| == 0 then ShaHex(sha, EMPTY_LOG_TEXT) else ShaHex(sha, Root(InternalDigest(sha), digests))
  }

  ghost function CheckpointOf(sha: Sha, ops: seq<SessionOp>): Checkpoint
    requires Sha256Like(sha)
  {
    Checkpoint(|ops|, RootHex(sha, LeafDigests(sha, ops)))
  }

  // ----- The algorithms

  method SessionOpLeafDigest(sha: Sha, op: SessionOp) returns (digest: string)
    requires Sha256Like(sha)
    ensures digest == ShaBytes(sha, LeafText(op))
  {
    var json := StableStringify(OpJson(op));
    digest := ShaBytes(sha, LEAF_TAG + "\0" + json);
  }

  method MerkleRootHexFromLeafDigests(sha: Sha, leafDigests: seq<string>) returns (root: string)
    requires Sha256Like(sha)
    ensures root == RootHex(sha, leafDigests)
  {
    if |leafDigests| == 0 { return ShaHex(sha, EMPTY_LOG_TEXT); }
    var node := InternalDigest(sha);
    var level := leafDigests;
    while |level| > 1
      invariant |level| > 0 && Root(node, level) == Root(node, leafDigests)
      decreases |level|
    {
      level := PairUp(node, level);
    }
    root := ShaHex(sha, level[0]);
  }

  method CheckpointForSessionOps(sha: Sha, ops: seq<SessionOp>) returns (cp: Checkpoint)
    requires Sha256Like(sha)
    ensures cp == CheckpointOf(sha, ops)
  {
    hide LeafText, RootHex;
    var leaves: seq<string> := [];
    for i := 0 to |ops|
      invariant |leaves| == i
      invariant forall j :: 0 <= j < i ==> leaves[j] == LeafDigests(sha, ops)[j]
    {
      var digest := SessionOpLeafDigest(sha, ops[i]);
      leaves := leaves + [digest];
    }
    assert leaves == LeafDigests(sha, ops);
    var root := MerkleRootHexFromLeafDigests(sha, leaves);
    cp := Checkpoint(|ops|, root);
  }

  // ----- What the root is

  /** The texts hashed for leaves, for inner nodes and for the empty log are never the same. */
  lemma DomainsApart(op: SessionOp, left: string, right: string)
    ensures LeafText(op) != InternalText(left, right) && InternalText(left, right) != EMPTY_LOG_TEXT
    ensures LeafText(op) != EMPTY_LOG_TEXT
  {
    var n := |LEAF_TAG| + 1;
    assert LeafText(op)[0] == 'O' && EMPTY_LOG_TEXT[0] == 'O';
    assert LeafText(op)[n] == '{' && EMPTY_LOG_TEXT[n] == '_';
  }

  /** The root of one op is the hash of its digest; that of two hashes the byte 1 and their digests in order. */
  lemma SmallRoots(sha: Sha, a: SessionOp, b: SessionOp)
    requires Sha256Like(sha)
    ensures CheckpointOf(sha, [a]) == Checkpoint(1, ShaHex(sha, sha(LeafText(a))))
    ensures CheckpointOf(sha, [a, b])
         == Checkpoint(2, ShaHex(sha, sha("\U{1}" + sha(LeafText(a)) + sha(LeafText(b)))))
  {
    hide LeafText;
    assert LeafDigests(sha, [a]) == [sha(LeafText(a))];
    assert LeafDigests(sha, [a, b]) == [sha(LeafText(a)), sha(LeafText(b))];
    RootOfTwo(InternalDigest(sha), sha(LeafText(a)), sha(LeafText(b)));
  }

  // ----- A checkpoint determines the log

  ghost function InternalTexts(pairs: set<(string, string)>): set<string> {
    set p | p in pairs :: InternalText(p.0, p.1)
  }

  ghost function LogPairs(sha: Sha, ops: seq<SessionOp>): set<(string, string)>
    requires Sha256Like(sha)
  {
    if |ops| == 0 then {} else TreePairs(Layers(InternalDigest(sha), LeafDigests(sha, ops)))
  }

  /** Every text hashed to compute the checkpoint of a log. */
  ghost function LogTexts(sha: Sha, ops: seq<SessionOp>): set<string>
    requires Sha256Like(sha)
  {
    (set i | 0 <= i < |ops| :: LeafText(ops[i])) + InternalTexts(LogPairs(sha, ops)) +
    {if |ops| == 0 then EMPTY_LOG_TEXT else Root(InternalDigest(sha), LeafDigests(sha, ops))}
  }

  lemma {:induction false} LogPairsWidth(sha: Sha, digests: seq<string>)
    requires Sha256Like(sha) && |digests| > 0
    requires forall i :: 0 <= i < |digests| ==> |digests[i]| == 32
    ensures forall p :: p in TreePairs(Layers(InternalDigest(sha), digests)) ==> |p.0| == |p.1| == 32
    decreases |digests|
  {
    if |digests| > 1 {
      LayersAbove(InternalDigest(sha), digests);
      LogPairsWidth(sha, NextLayer(InternalDigest(sha), digests));
    }
  }

  lemma InternalTextInjective(p: (string, string), q: (string, string))
    requires |p.0| == |q.0| && InternalText(p.0, p.1) == InternalText(q.0, q.1)
    ensures p == q
  {
    var x, y := InternalText(p.0, p.1), InternalText(q.0, q.1);
    assert x[1..1 + |p.0|] == p.0 && y[1..1 + |q.0|] == q.0;
    assert x[1 + |p.0|..] == p.1 && y[1 + |q.0|..] == q.1;
  }

  lemma LogPairsApart(sha: Sha, texts: set<string>, ps: set<(string, string)>, qs: set<(string, string)>)
    requires Sha256Like(sha) && CollisionFree(sha, texts) && InternalTexts(ps) <= texts && InternalTexts(qs) <= texts
    requires forall p :: p in ps + qs ==> |p.0| == |p.1| == 32
    ensures NoMixups(InternalDigest(sha), ps, qs)
  {
    var node := InternalDigest(sha);
    forall p, q | p in ps && q in qs && node(p.0, p.1) == node(q.0, q.1) ensures p == q {
      assert InternalText(p.0, p.1) in InternalTexts(ps) && InternalText(q.0, q.1) in InternalTexts(qs);
      InternalTextInjective(p, q);
    }
  }

  lemma OpDocument(op: SessionOp)
    requires IsOp(op)
    ensures IsDocument(OpJson(op))
  {
    ObjectDocument(OpJson(op).members);
  }

  lemma OpTexts(a: SessionOp, b: SessionOp)
    requires IsOp(a) && IsOp(b)
    ensures Print(OpJson(a)) == Print(OpJson(b)) <==> a == b
  {
    OpDocument(a);
    OpDocument(b);
    DocumentTexts(OpJson(a), OpJson(b));
    OpJsonInjective(a, b);
  }

  lemma OpJsonInjective(a: SessionOp, b: SessionOp)
    ensures OpJson(a) == OpJson(b) <==> a == b
  {
    var x, y := OpJson(a).members, OpJson(b).members;
    assert x["kind"] == JString(a.kind) && y["kind"] == JString(b.kind);
    assert x["payload"] == a.payload && y["payload"] == b.payload;
    assert x["session_id"] == JString(a.sessionId) && y["session_id"] == JString(b.sessionId);
  }

  lemma LeafDigestsDetermineLog(sha: Sha, a: seq<SessionOp>, b: seq<SessionOp>)
    requires Sha256Like(sha) && IsLog(a) && IsLog(b) && CollisionFree(sha, LogTexts(sha, a) + LogTexts(sha, b))
    requires LeafDigests(sha, a) == LeafDigests(sha, b)
    ensures a == b
  {
    assert |a| == |LeafDigests(sha, a)| == |b|;
    forall i | 0 <= i < |a| ensures a[i] == b[i] {
      assert LeafDigests(sha, a)[i] == ShaBytes(sha, LeafText(a[i]));
      assert LeafDigests(sha, b)[i] == ShaBytes(sha, LeafText(b[i]));
      assert LeafText(a[i]) in LogTexts(sha, a) && LeafText(b[i]) in LogTexts(sha, b);
      var k := |LEAF_TAG| + 1;
      assert LeafText(a[i])[k..] == Print(OpJson(a[i])) && LeafText(b[i])[k..] == Print(OpJson(b[i]));
      OpTexts(a[i], b[i]);
    }
  }

  /** Two logs have the same checkpoint exactly when they are the same log, for every length. */
  lemma CheckpointDeterminesLog(sha: Sha, a: seq<SessionOp>, b: seq<SessionOp>)
    requires Sha256Like(sha) && IsLog(a) && IsLog(b)
    requires CollisionFree(sha, LogTexts(sha, a) + LogTexts(sha, b))
    ensures CheckpointOf(sha, a) == CheckpointOf(sha, b) <==> a == b
  {
    if CheckpointOf(sha, a) == CheckpointOf(sha, b) && |a| > 0 {
      var texts := LogTexts(sha, a) + LogTexts(sha, b);
      var node := InternalDigest(sha);
      var da, db := LeafDigests(sha, a), LeafDigests(sha, b);
      ShaHexInjective(sha, texts, Root(node, da), Root(node, db));
      LogPairsWidth(sha, da);
      LogPairsWidth(sha, db);
      LogPairsApart(sha, texts, TreePairs(Layers(node, da)), TreePairs(Layers(node, db)));
      RootDeterminesLeaves(node, da, db);
      LeafDigestsDetermineLog(sha, a, b);
    }
  }

  // ----- Envelopes

  datatype Envelope = Envelope(base: Checkpoint, deltaOps: seq<SessionOp>, next: Checkpoint)

  datatype VerifyError =
    | SeqMismatch(expected: int, actual: int)
    | RootMismatch(expectedHex: string, recomputedHex: string)

  ghost function EnvelopeError(sha: Sha, localOps: seq<SessionOp>, envelope: Envelope): Option<VerifyError>
    requires Sha256Like(sha)
  {
    CheckpointError(CheckpointOf(sha, localOps), envelope.base,
      CheckpointError(CheckpointOf(sha, localOps + envelope.deltaOps), envelope.next, None))
  }

  function CheckpointError(recomputed: Checkpoint, claimed: Checkpoint,
                           otherwise: Option<VerifyError>): Option<VerifyError> {
    if recomputed == claimed then otherwise
    else if recomputed.seqNo != claimed.seqNo then Some(SeqMismatch(recomputed.seqNo, claimed.seqNo))
    else Some(RootMismatch(claimed.rootHex, recomputed.rootHex))
  }

  /** No error means both checkpoints are the recomputed ones. A wrong length is reported with the recomputed length
      and the claimed one, a wrong root only where the length is right, and the new checkpoint only after the base. */
  lemma VerdictExactly(sha: Sha, localOps: seq<SessionOp>, e: Envelope)
    requires Sha256Like(sha)
    ensures var base, next := CheckpointOf(sha, localOps), CheckpointOf(sha, localOps + e.deltaOps);
      && (EnvelopeError(sha, localOps, e) == None <==> e.base == base && e.next == next)
      && (forall n, m :: EnvelopeError(sha, localOps, e) == Some(SeqMismatch(n, m)) <==>
            || (n == |localOps| && m == e.base.seqNo && n != m)
            || (e.base == base && n == |localOps| + |e.deltaOps| && m == e.next.seqNo && n != m))
      && (forall x, y :: EnvelopeError(sha, localOps, e) == Some(RootMismatch(x, y)) <==>
            || (e.base.seqNo == |localOps| && x == e.base.rootHex && y == base.rootHex && x != y)
            || (e.base == base && e.next.seqNo == |localOps| + |e.deltaOps|
                && x == e.next.rootHex && y == next.rootHex && x != y))
  {
    hide RootHex, LeafDigests;
  }

  method VerifySessionEnvelope(sha: Sha, localOps: seq<SessionOp>, envelope: Envelope) returns (r: Option<VerifyError>)
    requires Sha256Like(sha)
    ensures r == EnvelopeError(sha, localOps, envelope)
  {
    var expectedBase := CheckpointForSessionOps(sha, localOps);
    if expectedBase != envelope.base {
      if expectedBase.seqNo != envelope.base.seqNo {
        return Some(SeqMismatch(expectedBase.seqNo, envelope.base.seqNo));
      }
      return Some(RootMismatch(envelope.base.rootHex, expectedBase.rootHex));
    }
    var recomputed := CheckpointForSessionOps(sha, localOps + envelope.deltaOps);
    if recomputed != envelope.next {
      if recomputed.seqNo != envelope.next.seqNo {
        return Some(SeqMismatch(recomputed.seqNo, envelope.next.seqNo));
      }
      return Some(RootMismatch(envelope.next.rootHex, recomputed.rootHex));
    }
    return None;
  }

  /** Two envelopes that verify on the same prefix with the same new checkpoint carry the same ops. */
  lemma EnvelopesAgree(sha: Sha, localOps: seq<SessionOp>, e: Envelope, f: Envelope)
    requires Sha256Like(sha) && IsLog(localOps + e.deltaOps) && IsLog(localOps + f.deltaOps)
    requires CollisionFree(sha, LogTexts(sha, localOps + e.deltaOps) + LogTexts(sha, localOps + f.deltaOps))
    requires EnvelopeError(sha, localOps, e) == None && EnvelopeError(sha, localOps, f) == None
    ensures e.next == f.next <==> e.deltaOps == f.deltaOps
    ensures e.base == f.base
  {
    CheckpointDeterminesLog(sha, localOps + e.deltaOps, localOps + f.deltaOps);
    assert (localOps + e.deltaOps)[|localOps|..] == e.deltaOps;
    assert (localOps + f.deltaOps)[|localOps|..] == f.deltaOps;
  }

  // ----- Extending a prefix of the log (verifySessionOpsExtends)

  datatype ExtendsResult = Extends(checkpoint: Checkpoint) | SeqDiffers | RootDiffers | Thrown

  /** One delta op of an envelope; anything but an object with a string kind is refused. */
  function ParseOp(v: Json): Option<SessionOp> {
    if !v.JObject? || !Get(v.members, "kind").JString? then None
    else
      var id := Get(v.members, "session_id");
      var payload := Get(v.members, "payload");
      Some(SessionOp(v.members["kind"].s,
                     if payload.JUndefined? then JNull else payload,
                     if id.JString? then id.s else ""))
  }

  function ParseOps(vs: seq<Json>): (r: Option<seq<SessionOp>>)
    ensures r.Some? ==> |r.value| == |vs| && forall i :: 0 <= i < |vs| ==> ParseOp(vs[i]) == Some(r.value[i])
    ensures r.None? ==> exists i :: 0 <= i < |vs| && ParseOp(vs[i]) == None
  {
    if |vs| == 0 then Some([])
    else match (ParseOp(vs[0]), ParseOps(vs[1..]))
      case (Some(op), Some(ops)) => Some([op] + ops)
      case (None, _) => None
      case (Some(op), None) =>
        assert exists i :: 0 <= i < |vs[1..]| && ParseOp(vs[1..][i]) == None && vs[1..][i] == vs[i + 1];
        None
  }

  predicate IsHexDigest(s: string) {
    |s| == 64 && forall i :: 0 <= i < 64 ==> ('0' <= s[i] <= '9' || 'a' <= s[i] <= 'f')
  }

  ghost function ExtendsBy(sha: Sha, baseOps: seq<SessionOp>, deltaOps: seq<Json>, claimed: Checkpoint): ExtendsResult
    requires Sha256Like(sha)
  {
    match ParseOps(deltaOps)
    case None => Thrown
    case Some(delta) =>
      var cp := CheckpointOf(sha, baseOps + delta);
      if cp.seqNo != claimed.seqNo then SeqDiffers
      else if !IsHexDigest(claimed.rootHex) then Thrown
      else if cp.rootHex != claimed.rootHex then RootDiffers
      else if cp.seqNo > MAX_SAFE_INTEGER then Thrown
      else Extends(cp)
  }

  /** The roots of checkpoints are well formed. */
  lemma RootHexIsDigest(sha: Sha, digests: seq<string>)
    requires Sha256Like(sha)
    ensures IsHexDigest(RootHex(sha, digests))
  {
    if |digests| == 0 { HexIsLower(sha(EMPTY_LOG_TEXT)); } else { HexIsLower(sha(Root(InternalDigest(sha), digests))); }
  }

  /** Which refusal an extension meets: ops that do not parse throw; then the length decides, then the form of the
      root, then the root itself, and last whether the length is a safe integer. */
  lemma RefusalsExactly(sha: Sha, baseOps: seq<SessionOp>, deltaOps: seq<Json>, claimed: Checkpoint)
    requires Sha256Like(sha)
    ensures var r := ExtendsBy(sha, baseOps, deltaOps, claimed);
      && ((exists i :: 0 <= i < |deltaOps| && ParseOp(deltaOps[i]) == None) ==> r == Thrown)
      && forall ops: seq<SessionOp> :: ParseOps(deltaOps) == Some(ops) ==>
           var own := CheckpointOf(sha, baseOps + ops);
           && (r == SeqDiffers <==> claimed.seqNo != |baseOps| + |deltaOps|)
           && (r == RootDiffers <==>
                 && claimed.seqNo == |baseOps| + |deltaOps| && claimed.rootHex != own.rootHex
                 && IsHexDigest(claimed.rootHex))
           && (r == Extends(own) <==> claimed == own && claimed.seqNo <= MAX_SAFE_INTEGER)
  {
    hide LeafDigests, RootHex, IsHexDigest;
    if ParseOps(deltaOps).Some? {
      RootHexIsDigest(sha, LeafDigests(sha, baseOps + ParseOps(deltaOps).value));
    }
  }

  method VerifySessionOpsExtends(sha: Sha, baseOps: seq<SessionOp>, deltaOps: seq<Json>, claimed: Checkpoint)
    returns (r: ExtendsResult)
    requires Sha256Like(sha)
    ensures r == ExtendsBy(sha, baseOps, deltaOps, claimed)
  {
    var delta := ParseOps(deltaOps);
    if delta.None? { return Thrown; }
    var full := baseOps + delta.value;
    if |full| != claimed.seqNo { return SeqDiffers; }
    var cp := CheckpointForSessionOps(sha, full);
    if !IsHexDigest(claimed.rootHex) { return Thrown; }
    if cp.rootHex != claimed.rootHex { return RootDiffers; }
    if cp.seqNo > MAX_SAFE_INTEGER { return Thrown; }
    return Extends(cp);
  }

  /** Reading an op back from its JSON gives the op. */
  lemma ParseOpJson(op: SessionOp)
    requires IsOp(op)
    ensures ParseOp(OpJson(op)) == Some(op)
  {
    var m := OpJson(op).members;
    assert m["kind"] == JString(op.kind) && m["payload"] == op.payload && m["session_id"] == JString(op.sessionId);
  }
}
