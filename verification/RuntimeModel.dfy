/** The multiplex runtime as a state machine: one function per serialised step, failures included. */
module RuntimeModel {
  import opened Text
  import opened CanonicalJson
  import opened SessionMerkle
  import opened Frames
  import opened TurnCodec
  import opened NbcStore
  import opened NbcTurn
  import opened Hlc
  import StoreSafety

  datatype Party = Party(id: string, pubkey: string)

  datatype Init = Init(sessionId: string, first: Party, second: Party, genesis: string)

  datatype Template = Template(first: Party, second: Party, sessionId: Option<string>, genesis: Option<string>)

  /** An open chain. `history` is the frames it accepted and `since` the length of the global log when
      it was registered: both only record what happened. */
  datatype Chain = Chain(
    init: Init, tip: string, ops: seq<SessionOp>, confirmedSeq: int, pendingAck: bool,
    history: seq<Frame>, since: nat)

  /** `accepted` and `geneses` record every frame accepted and every genesis registered so far. */
  datatype State = State(
    chains: map<string, Chain>,
    tips: map<string, string>,
    globalOps: seq<SessionOp>,
    dedupe: set<string>,
    ended: set<string>,
    template: Option<Template>,
    store: Store,
    accepted: seq<Frame>,
    geneses: set<string>)

  /** What the runtime is given: hashing, signing, verification, host policies, and the session sync. */
  datatype Env = Env(
    tip: Frame -> string,
    key: Frame -> string,
    actor: string,
    sign: (string, string, Json) -> string,
    valid: Frame -> bool,
    policyOk: Json -> bool,
    validator: Validator,
    syncParty: Option<string>,
    checkpoint: seq<SessionOp> -> Checkpoint,
    extendsBy: (seq<SessionOp>, seq<Json>, Checkpoint) -> ExtendsResult)

  datatype Outcome = Done | Ignored | Rejected

  /** A runtime over whatever the host's store already holds. */
  function Start(template: Option<Template>, store: Store): State {
    State(map[], map[], [], {}, {}, template, store, [], {})
  }

  ghost predicate IsStart(s: State) { s == Start(s.template, s.store) && StoreSafety.Good(s.store) }

  // ----- Opening chains

  /** Parties in ascending order of public key; two parties with the same key are refused. */
  function NormalizeInit(i: Init): Option<Init> {
    if i.first.pubkey == i.second.pubkey then None
    else if LexLe(i.first.pubkey, i.second.pubkey) then Some(i)
    else Some(i.(first := i.second, second := i.first))
  }

  predicate TemplateMatch(i: Init, t: Template) {
    && i.first == t.first && i.second == t.second
    && (t.sessionId.Some? ==> i.sessionId == t.sessionId.value)
    && (t.genesis.Some? ==> i.genesis == t.genesis.value)
  }

  function Register(s: State, raw: Init): (State, Outcome) {
    match NormalizeInit(raw)
    case None => (s, Rejected)
    case Some(wire) =>
      if s.template.Some? && !TemplateMatch(wire, s.template.value) then (s, Rejected)
      else
        var template := if s.template.Some? then s.template.value
                        else Template(wire.first, wire.second, Some(wire.sessionId), Some(wire.genesis));
        var known := s.(template := Some(template));
        if wire.sessionId in s.chains || wire.genesis in s.tips then (known, Rejected)
        else
          var chain := Chain(wire, wire.genesis, [], 0, false, [], |s.globalOps|);
          (known.(chains := s.chains[wire.sessionId := chain], tips := s.tips[wire.genesis := wire.sessionId],
                  geneses := s.geneses + {wire.genesis}), Done)
  }

  // ----- Accepting a frame

  /** The dedupe key and the op, in the chain's log and in the global log. */
  function Record(env: Env, s: State, sid: string, f: Frame): State
    requires sid in s.chains
  {
    var c := s.chains[sid];
    var op := FrameOp(f, sid);
    s.(dedupe := s.dedupe + {env.key(f)},
       chains := s.chains[sid := c.(ops := c.ops + [op], history := c.history + [f])],
       globalOps := s.globalOps + [op],
       accepted := s.accepted + [f])
  }

  /** The chain's tip and its routing entry move together. */
  function Advance(s: State, sid: string, oldTip: string, newTip: string): State
    requires sid in s.chains
  {
    s.(chains := s.chains[sid := s.chains[sid].(tip := newTip)], tips := (s.tips - {oldTip})[newTip := sid])
  }

  function Accept(env: Env, s: State, sid: string, f: Frame): State
    requires sid in s.chains
  {
    Advance(Record(env, s, sid, f), sid, s.chains[sid].tip, env.tip(f))
  }

  function Signed(env: Env, tip: string, kind: string, body: Json): Frame {
    Frame(tip, env.actor, env.sign(tip, kind, body), kind, body)
  }

  function PartyIdForActor(i: Init, actor: string): Option<string> {
    if i.first.pubkey == actor then Some(i.first.id)
    else if i.second.pubkey == actor then Some(i.second.id)
    else None
  }

  // ----- Outbound steps

  function StampClock(body: TurnBody, hlc: Option<Timestamp>): TurnBody {
    var needsClock :=
      || body.offer.expiresAtMs != 0
      || (exists i :: 0 <= i < |body.ports| && body.ports[i].expiresAtMs != 0)
      || body.clock.Some?;
    if !needsClock || hlc.None? then body
    else body.(clock := Some(ClockBlock(hlc.value, if body.clock.Some? then body.clock.value.observed else None)))
  }

  /** The store's part of a turn, for the party that signed it. */
  function TurnOnStore(env: Env, s: State, sid: string, actor: string, body: Json, now: Option<real>): (Store, Outcome)
    requires sid in s.chains
  {
    var c := s.chains[sid];
    match (PartyIdForActor(c.init, actor), ParseBody(body))
    case (Some(party), Ok(turn)) =>
      var (store, r) := ApplyTurn(env.policyOk, env.validator, s.store, party, turn, Timing(|c.ops|, now));
      (store, if r.Ok? then Done else Rejected)
    case _ => (s.store, Rejected)
  }

  /** A signed turn is applied to the store first, and accepted when the store took it. */
  function CommitTurn(env: Env, s: State, sid: string, f: Frame, now: Option<real>): (State, Outcome)
    requires sid in s.chains
  {
    var (store, outcome) := TurnOnStore(env, s, sid, f.actor, f.body, now);
    var applied := s.(store := store);
    if outcome != Done then (applied, Rejected) else (Accept(env, applied, sid, f), Done)
  }

  function EmitTurn(env: Env, s: State, sid: string, body: TurnBody, hlc: Option<Timestamp>,
                    now: Option<real>): (State, Outcome)
  {
    if sid !in s.chains || OutboundError(s.store, body, env.validator).Some? then (s, Rejected)
    else
      var f := Signed(env, s.chains[sid].tip, TURN, Serialize(StampClock(body, hlc)));
      if env.key(f) in s.dedupe then (s, Ignored) else CommitTurn(env, s, sid, f, now)
  }

  function EmitEndOffers(env: Env, s: State, sid: string): (State, Outcome) {
    if sid !in s.chains then (s, Rejected)
    else
      var f := Signed(env, s.chains[sid].tip, END_OFFERS, JObject(map[]));
      if env.key(f) in s.dedupe then (s, Ignored) else (Accept(env, s, sid, f), Done)
  }

  function TerminateBody(reason: string, code: Option<string>): Json {
    JObject(map["reason" := JString(reason)] + if code.Some? then map["code" := JString(code.value)] else map[])
  }

  function EmitTerminate(env: Env, s: State, sid: string, reason: string, code: Option<string>): (State, Outcome) {
    if sid !in s.chains then (s, Rejected)
    else
      var f := Signed(env, s.chains[sid].tip, TERMINATE, TerminateBody(reason, code));
      if env.key(f) in s.dedupe then (s, Ignored) else (Accept(env, s, sid, f), Done)
  }

  /** Closes a chain and forgets its routing entries. */
  function Destroy(s: State, sid: string): State {
    if sid !in s.chains then s
    else s.(chains := s.chains - {sid}, tips := map t | t in s.tips && s.tips[t] != sid :: s.tips[t],
            ended := s.ended + {sid})
  }

  // ----- Inbound frames

  /** The open chain whose routing entry is the frame's parent hash. */
  function Route(s: State, pHash: string): Option<string> {
    if pHash in s.tips && s.tips[pHash] in s.chains then Some(s.tips[pHash]) else None
  }

  /** An inbound frame replaces the routing entry it named. */
  function AcceptAt(env: Env, s: State, sid: string, f: Frame): State
    requires sid in s.chains
  {
    Advance(Record(env, s, sid, f), sid, f.pHash, env.tip(f))
  }

  /** A frame whose parent hash is routed to the chain. */
  function HandleAt(env: Env, s: State, sid: string, f: Frame, now: Option<real>): (State, Outcome)
    requires sid in s.chains
  {
    if !env.valid(f) || (f.kind != TERMINATE && f.pHash != s.chains[sid].tip) then (s, Rejected)
    else if f.kind == TURN then
      var (store, outcome) := TurnOnStore(env, s, sid, f.actor, f.body, now);
      var applied := s.(store := store);
      if outcome != Done then (applied, Rejected) else (AcceptAt(env, applied, sid, f), Done)
    else if f.kind == END_OFFERS then (AcceptAt(env, s, sid, f), Done)
    else if f.kind == TERMINATE then (Destroy(Record(env, s, sid, f), sid), Done)
    else (s, Rejected)
  }

  function HandleFrame(env: Env, s: State, f: Frame, now: Option<real>): (State, Outcome) {
    if env.key(f) in s.dedupe then (s, Ignored)
    else match Route(s, f.pHash)
      case None => (s, Rejected)
      case Some(sid) => HandleAt(env, s, sid, f, now)
  }

  // ----- Session envelopes

  datatype WireEnvelope = WireEnvelope(
    sessionId: string, fromParty: string, base: Checkpoint, deltaOps: seq<Json>, next: Checkpoint)

  /** `slice(0, end)`, where a negative end counts from the back. */
  function SliceTo<T>(s: seq<T>, end: int): (r: seq<T>)
    ensures r <= s
  {
    if end > |s| then s
    else if end >= 0 then s[..end]
    else if |s| + end >= 0 then s[..|s| + end]
    else []
  }

  function OpJsons(ops: seq<SessionOp>): seq<Json> { seq(|ops|, i requires 0 <= i < |ops| => OpJson(ops[i])) }

  ghost predicate PrintsLike(ops: seq<SessionOp>, at: int, v: Json) {
    0 <= at < |ops| && Print(OpJson(ops[at])) == Print(v)
  }

  /** Each delta op prints like the local op at its place. */
  ghost predicate DeltaMatches(ops: seq<SessionOp>, baseSeq: int, delta: seq<Json>) {
    forall i :: 0 <= i < |delta| ==> PrintsLike(ops, baseSeq + i, delta[i])
  }

  ghost predicate EnvelopeOk(env: Env, c: Chain, e: WireEnvelope) {
    && env.syncParty.Some? && e.fromParty != env.syncParty.value
    && e.base.seqNo <= |c.ops|
    && env.extendsBy(SliceTo(c.ops, e.base.seqNo), e.deltaOps, e.next).Extends?
    && e.next.seqNo <= |c.ops|
    && e.next.seqNo - e.base.seqNo == |e.deltaOps|
    && DeltaMatches(c.ops, e.base.seqNo, e.deltaOps)
  }

  ghost function HandleEnvelope(env: Env, s: State, e: WireEnvelope): (State, Outcome) {
    if env.syncParty.None? then (s, Rejected)
    else if e.sessionId !in s.chains then (s, if e.sessionId in s.ended then Ignored else Rejected)
    else
      var c := s.chains[e.sessionId];
      if !EnvelopeOk(env, c, e) then (s, Rejected)
      else (s.(chains := s.chains[e.sessionId := c.(confirmedSeq := e.next.seqNo, pendingAck := true)]), Done)
  }

  /** Sends what the peer has not confirmed, or an acknowledgement it is owed. */
  function Flush(env: Env, s: State, sid: string): (State, Option<WireEnvelope>) {
    if env.syncParty.None? || sid !in s.chains then (s, None)
    else
      var c := s.chains[sid];
      var base := SliceTo(c.ops, c.confirmedSeq);
      var delta := c.ops[|base|..];
      if |delta| == 0 && !c.pendingAck then (s, None)
      else
        (s.(chains := s.chains[sid := c.(pendingAck := false)]),
         Some(WireEnvelope(sid, env.syncParty.value, env.checkpoint(base), OpJsons(delta), env.checkpoint(c.ops))))
  }

  // ----- Runs

  /** A step of the runtime, or an operation the host makes on the store it shares with it. */
  datatype Event =
    | OnInit(init: Init)
    | DoTurn(sid: string, body: TurnBody, hlc: Option<Timestamp>, now: Option<real>)
    | DoEndOffers(sid: string)
    | DoTerminate(sid: string, reason: string, code: Option<string>)
    | DoDestroy(sid: string)
    | OnFrame(frame: Frame, at: Option<real>)
    | OnEnvelope(envelope: WireEnvelope)
    | DoFlush(sid: string)
    | DoStore(op: StoreSafety.Op)

  ghost function Step(env: Env, s: State, e: Event): State {
    match e
    case OnInit(init) => Register(s, init).0
    case DoTurn(sid, body, hlc, now) => EmitTurn(env, s, sid, body, hlc, now).0
    case DoEndOffers(sid) => EmitEndOffers(env, s, sid).0
    case DoTerminate(sid, reason, code) => EmitTerminate(env, s, sid, reason, code).0
    case DoDestroy(sid) => Destroy(s, sid)
    case OnFrame(f, now) => HandleFrame(env, s, f, now).0
    case OnEnvelope(envelope) => HandleEnvelope(env, s, envelope).0
    case DoFlush(sid) => Flush(env, s, sid).0
    case DoStore(op) => s.(store := StoreSafety.Apply(env.policyOk, s.store, op))
  }

  ghost function Run(env: Env, start: State, events: seq<Event>): State {
    if |events| == 0 then start
    else Step(env, Run(env, start, events[..|events| - 1]), events[|events| - 1])
  }
}
