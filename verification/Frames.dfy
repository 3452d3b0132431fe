/** Signed frames, the hash chain they form, and the session op each one stands for. */
module Frames {
  import opened Text
  import opened Digests
  import opened CanonicalJson
  import opened SessionMerkle

  datatype Frame = Frame(pHash: string, actor: string, sig: string, kind: string, body: Json)

  const TURN := "TURN"
  const END_OFFERS := "END_OFFERS"
  const TERMINATE := "TERMINATE"

  /** A frame's body is a JSON object. */
  ghost predicate IsFrame(f: Frame) { f.body.JObject? && IsDocument(f.body) }

  ghost predicate AreFrames(fs: seq<Frame>) { forall i :: 0 <= i < |fs| ==> IsFrame(fs[i]) }

  function FrameJson(f: Frame): Json {
    JObject(map["p_hash" := JString(f.pHash), "actor" := JString(f.actor), "sig" := JString(f.sig),
                "type" := JString(f.kind), "body" := f.body])
  }

  ghost function FrameText(f: Frame): string { Print(FrameJson(f)) }

  /** What is signed: the frame with an empty signature. */
  ghost function SigningText(f: Frame): string { FrameText(f.(sig := "")) }

  /** The hash the next frame must name as its parent. */
  ghost function TipOf(sha: Sha, f: Frame): string
    requires Sha256Like(sha)
  {
    ShaHex(sha, FrameText(f))
  }

  /** isNegotiationFrameObject, with the value it lets through. */
  function FrameFromJson(v: Json): Option<Frame> {
    if v.JObject? && Get(v.members, "p_hash").JString? && Get(v.members, "actor").JString?
       && Get(v.members, "sig").JString? && Get(v.members, "type").JString? && Get(v.members, "body").JObject?
    then Some(Frame(v.members["p_hash"].s, v.members["actor"].s, v.members["sig"].s,
                    v.members["type"].s, v.members["body"]))
    else None
  }

  lemma FrameJsonFields(f: Frame)
    ensures
      var m := FrameJson(f).members;
      && m.Keys == {"p_hash", "actor", "sig", "type", "body"}
      && m["p_hash"] == JString(f.pHash) && m["actor"] == JString(f.actor) && m["sig"] == JString(f.sig)
      && m["type"] == JString(f.kind) && m["body"] == f.body
  {
  }

  lemma FrameDocument(f: Frame)
    requires IsFrame(f)
    ensures IsDocument(FrameJson(f))
  {
    ObjectDocument(FrameJson(f).members);
  }

  /** Two frames have the same text exactly when they are the same frame. */
  lemma FrameTexts(f: Frame, g: Frame)
    requires IsFrame(f) && IsFrame(g)
    ensures FrameText(f) == FrameText(g) <==> f == g
  {
    FrameDocument(f);
    FrameDocument(g);
    DocumentTexts(FrameJson(f), FrameJson(g));
    FrameJsonFields(f);
    FrameJsonFields(g);
  }

  /** The receiver parses the sender's text into the sender's frame, and printing what it parsed
      gives the text the sender hashed: both compute the same tip. */
  lemma ReceiverTip(sha: Sha, f: Frame)
    requires Sha256Like(sha) && IsFrame(f)
    ensures
      var parsed := Parse(FrameText(f));
      && parsed.Some? && FrameFromJson(parsed.value) == Some(f)
      && ShaHex(sha, Print(parsed.value)) == TipOf(sha, f)
  {
    FrameDocument(f);
    DocumentTexts(FrameJson(f), FrameJson(f));
    FrameJsonFields(f);
  }

  /** Collision freedom of the texts of frames, read as a property of their tips. */
  lemma TipsApart(sha: Sha, texts: set<string>, f: Frame, g: Frame)
    requires Sha256Like(sha) && CollisionFree(sha, texts) && FrameText(f) in texts && FrameText(g) in texts
    requires IsFrame(f) && IsFrame(g)
    ensures TipOf(sha, f) == TipOf(sha, g) <==> f == g
  {
    if TipOf(sha, f) == TipOf(sha, g) {
      ShaHexInjective(sha, texts, FrameText(f), FrameText(g));
      FrameTexts(f, g);
    }
  }

  // ----- The ops a frame stands for

  /** `{ actor, ...body }` for turns and ends of offers, the bare body for a termination. */
  function FrameOp(f: Frame, sessionId: string): SessionOp {
    var members := if f.body.JObject? then f.body.members else map[];
    var tagged := JObject(map["actor" := JString(f.actor)] + members);
    if f.kind == TURN then SessionOp("turn", tagged, sessionId)
    else if f.kind == END_OFFERS then SessionOp("end_offers", tagged, sessionId)
    else SessionOp("terminate", f.body, sessionId)
  }

  lemma FrameOpIsOp(f: Frame, sessionId: string)
    requires IsFrame(f)
    ensures IsOp(FrameOp(f, sessionId))
  {
    var members := map["actor" := JString(f.actor)] + f.body.members;
    ObjectDocument(f.body.members);
    ObjectDocument(members);
  }

  ghost function OpsOf(history: seq<Frame>, sessionId: string): (ops: seq<SessionOp>)
    ensures |ops| == |history|
  {
    seq(|history|, i requires 0 <= i < |history| => FrameOp(history[i], sessionId))
  }

  // ----- FrameDag

  datatype Signer = Signer(actor: string, sign: string -> string)

  /** Whether a signature by an actor over a text is valid. */
  type Verifier = (string, string, string) -> bool

  datatype DagError = CausalMismatch | BadSig

  ghost function SignedFrame(signer: Signer, tip: string, kind: string, body: Json): Frame {
    var unsigned := Frame(tip, signer.actor, "", kind, body);
    unsigned.(sig := signer.sign(FrameText(unsigned)))
  }

  ghost predicate SignatureOk(verifier: Verifier, f: Frame) { verifier(f.actor, SigningText(f), f.sig) }

  /** The verifier takes whatever the signer signs. */
  ghost predicate Honours(verifier: Verifier, signer: Signer) {
    forall text :: verifier(signer.actor, text, signer.sign(text))
  }

  /** The signature by the actor fits at most one text. */
  ghost predicate FitsOne(verifier: Verifier, actor: string, sig: string) {
    forall x, y :: verifier(actor, x, sig) && verifier(actor, y, sig) ==> x == y
  }

  /** What is signed is what is verified. */
  lemma SignedIsVerified(signer: Signer, verifier: Verifier, tip: string, kind: string, body: Json)
    requires Honours(verifier, signer)
    ensures SignatureOk(verifier, SignedFrame(signer, tip, kind, body))
  {
    var unsigned := Frame(tip, signer.actor, "", kind, body);
    assert SignedFrame(signer, tip, kind, body).(sig := "") == unsigned;
    hide FrameText;
  }

  /** A signature covers the whole frame: parent, kind and body. */
  lemma SignatureCovers(verifier: Verifier, f: Frame, g: Frame)
    requires IsFrame(f) && IsFrame(g) && f.actor == g.actor && f.sig == g.sig && FitsOne(verifier, f.actor, f.sig)
    requires SignatureOk(verifier, f) && SignatureOk(verifier, g)
    ensures f == g
  {
    FrameTexts(f.(sig := ""), g.(sig := ""));
    hide FrameText;
  }

  class FrameDag {
    var tip: string

    constructor (genesisHash: string)
      ensures tip == genesisHash
    {
      tip := genesisHash;
    }

    method VerifyInboundChild(frame: Frame, verifier: Verifier) returns (error: Option<DagError>)
      ensures error == if frame.pHash != tip then Some(CausalMismatch)
                       else if !SignatureOk(verifier, frame) then Some(BadSig) else None
    {
      if frame.pHash != tip { return Some(CausalMismatch); }
      var payload := StableStringify(FrameJson(frame.(sig := "")));
      if !verifier(frame.actor, payload, frame.sig) { return Some(BadSig); }
      return None;
    }

    method CommitTip(nextTip: string)
      modifies this
      ensures tip == nextTip
    {
      tip := nextTip;
    }

    method SignOutboundAtTip(sha: Sha, signer: Signer, kind: string, body: Json) returns (frame: Frame, nextTip: string)
      requires Sha256Like(sha)
      ensures frame == SignedFrame(signer, tip, kind, body) && nextTip == TipOf(sha, frame)
    {
      var unsigned := Frame(tip, signer.actor, "", kind, body);
      var payload := StableStringify(FrameJson(unsigned));
      frame := unsigned.(sig := signer.sign(payload));
      var text := StableStringify(FrameJson(frame));
      nextTip := ShaHex(sha, text);
    }

    /** A child that fits the tip and is properly signed moves the tip; any other changes nothing. */
    method AppendInbound(sha: Sha, frame: Frame, verifier: Verifier) returns (error: Option<DagError>)
      requires Sha256Like(sha)
      modifies this
      ensures error.None? <==> frame.pHash == old(tip) && SignatureOk(verifier, frame)
      ensures tip == if error.None? then TipOf(sha, frame) else old(tip)
    {
      error := VerifyInboundChild(frame, verifier);
      if error.None? {
        var text := StableStringify(FrameJson(frame));
        CommitTip(ShaHex(sha, text));
      }
    }

    method MintOutbound(sha: Sha, signer: Signer, kind: string, body: Json) returns (frame: Frame)
      requires Sha256Like(sha)
      modifies this
      ensures frame == SignedFrame(signer, old(tip), kind, body) && tip == TipOf(sha, frame)
    {
      var nextTip;
      frame, nextTip := SignOutboundAtTip(sha, signer, kind, body);
      CommitTip(nextTip);
    }
  }
}
