/** What a sender writes to the wire, what the receiver reads off it, and what becomes of it there. */
module Wire {
  import opened Text
  import opened CanonicalJson
  import opened SessionMerkle
  import opened Frames
  import opened RuntimeModel
  import TurnCodec

  // ----- Writing

  datatype Message = InitMessage(init: Init) | FrameMessage(frame: Frame) | EnvelopeMessage(envelope: WireEnvelope)

  function InitJson(i: Init): Json {
    JObject(map["session_id" := JString(i.sessionId),
                "party_ids" := JArray([JString(i.first.id), JString(i.second.id)]),
                "actor_pubkeys" := JArray([JString(i.first.pubkey), JString(i.second.pubkey)]),
                "genesis_hash" := JString(i.genesis)])
  }

  function CheckpointJson(cp: Checkpoint): Json {
    JObject(map["seq" := TurnCodec.IntJson(cp.seqNo), "root_hex" := JString(cp.rootHex)])
  }

  function EnvelopeJson(e: WireEnvelope): Json {
    JObject(map["session_id" := JString(e.sessionId), "from_party" := JString(e.fromParty),
                "base_checkpoint" := CheckpointJson(e.base), "delta_ops" := JArray(e.deltaOps),
                "new_checkpoint" := CheckpointJson(e.next)])
  }

  function MessageJson(m: Message): Json {
    match m
    case InitMessage(i) => JObject(map["init" := InitJson(i)])
    case FrameMessage(f) => FrameJson(f)
    case EnvelopeMessage(e) => JObject(map["session_envelope" := EnvelopeJson(e)])
  }

  ghost function MessageText(m: Message): string { Print(MessageJson(m)) }

  // ----- Reading

  /** `String(v)`; number tokens stand for their own text. */
  function StringOf(v: Json): string {
    match v
    case JUndefined => "undefined"
    case JNull => "null"
    case JBool(b) => if b then "true" else "false"
    case JNumber(t) => t
    case JString(s) => s
    case JArray(items) =>
      Join(seq(|items|, i requires 0 <= i < |items| =>
        if items[i].JNull? || items[i].JUndefined? then "" else StringOf(items[i])))
    case JObject(_) => "[object Object]"
  }

  function TextField(m: map<string, Json>, k: string): string {
    if Get(m, k).JUndefined? || Get(m, k).JNull? then "" else StringOf(m[k])
  }

  /** Two party ids and two keys (under either name), or nothing. */
  function InitFromJson(v: Json): Option<Init> {
    if !v.JObject? then None
    else
      var m := v.members;
      var ids := if Get(m, "party_ids").JArray? then m["party_ids"].items else [];
      var keys := if Get(m, "actor_pubkeys").JArray? then m["actor_pubkeys"].items
                  else if Get(m, "actors").JArray? then m["actors"].items else [];
      if |ids| != 2 || |keys| != 2 then None
      else Some(Init(TextField(m, "session_id"), Party(StringOf(ids[0]), StringOf(keys[0])),
                     Party(StringOf(ids[1]), StringOf(keys[1])), TextField(m, "genesis_hash")))
  }

  function CheckpointFromJson(v: Json): Option<Checkpoint> {
    if v.JObject? && Get(v.members, "seq").JNumber? && Get(v.members, "root_hex").JString? then
      match TurnCodec.IntegerOf(v.members["seq"].token)
      case Some(n) => Some(Checkpoint(n, v.members["root_hex"].s))
      case None => None
    else None
  }

  function EnvelopeFromJson(v: Json): Option<WireEnvelope> {
    if !v.JObject? || !Get(v.members, "session_id").JString? || !Get(v.members, "from_party").JString?
       || !Get(v.members, "delta_ops").JArray? then None
    else
      var m := v.members;
      match (CheckpointFromJson(Get(m, "base_checkpoint")), CheckpointFromJson(Get(m, "new_checkpoint")))
      case (Some(base), Some(next)) =>
        Some(WireEnvelope(m["session_id"].s, m["from_party"].s, base, m["delta_ops"].items, next))
      case _ => None
  }

  datatype Yield = InitYield(v: Json) | FrameYield(frame: Frame) | EnvelopeYield(envelope: WireEnvelope) | RawYield

  /** An object with an `init` member is an init whatever else it holds. */
  function Classify(v: Json): Yield {
    if v.JObject? && "init" in v.members then InitYield(v.members["init"])
    else match FrameFromJson(v)
      case Some(f) => FrameYield(f)
      case None =>
        if v.JObject? && "session_envelope" in v.members then
          match EnvelopeFromJson(v.members["session_envelope"])
          case Some(e) => EnvelopeYield(e)
          case None => RawYield
        else RawYield
  }

  /** processYield. */
  ghost function Process(env: Env, s: State, y: Yield, now: Option<real>): (State, Outcome) {
    match y
    case InitYield(v) => (match InitFromJson(v) case Some(i) => Register(s, i) case None => (s, Rejected))
    case FrameYield(f) => if |s.chains| == 0 then (s, Rejected) else HandleFrame(env, s, f, now)
    case EnvelopeYield(e) => HandleEnvelope(env, s, e)
    case RawYield => (s, Rejected)
  }

  // ----- What is sent arrives

  /** Inits are sent with their parties in order, frames and ops are documents. */
  ghost predicate MessageOk(m: Message) {
    match m
    case InitMessage(i) => NormalizeInit(i) == Some(i)
    case FrameMessage(f) => IsFrame(f)
    case EnvelopeMessage(e) => AreDocuments(e.deltaOps)
  }

  lemma CheckpointArrives(cp: Checkpoint)
    ensures IsDocument(CheckpointJson(cp)) && CheckpointFromJson(CheckpointJson(cp)) == Some(cp)
  {
    var m := CheckpointJson(cp).members;
    assert m["seq"] == TurnCodec.IntJson(cp.seqNo) && m["root_hex"] == JString(cp.rootHex);
    TurnCodec.IntegerOfIntText(cp.seqNo);
    TurnCodec.EpochIsDocument(cp.seqNo);
    ObjectDocument(m);
  }

  lemma EnvelopeArrives(e: WireEnvelope)
    requires AreDocuments(e.deltaOps)
    ensures IsDocument(EnvelopeJson(e)) && EnvelopeFromJson(EnvelopeJson(e)) == Some(e)
  {
    hide TurnCodec.IntegerOf, CheckpointJson, CheckpointFromJson;
    var m := EnvelopeJson(e).members;
    assert m["session_id"] == JString(e.sessionId) && m["from_party"] == JString(e.fromParty);
    assert m["base_checkpoint"] == CheckpointJson(e.base) && m["new_checkpoint"] == CheckpointJson(e.next);
    assert m["delta_ops"] == JArray(e.deltaOps);
    CheckpointArrives(e.base);
    CheckpointArrives(e.next);
    ArrayDocument(e.deltaOps);
    ObjectDocument(m);
  }

  lemma ArrayDocument(vs: seq<Json>)
    requires AreDocuments(vs)
    ensures IsDocument(JArray(vs))
  {
    assert Norm(JArray(vs)).items == vs;
  }

  lemma InitArrives(i: Init)
    ensures IsDocument(InitJson(i)) && InitFromJson(InitJson(i)) == Some(i)
  {
    var m := InitJson(i).members;
    var ids, keys := [JString(i.first.id), JString(i.second.id)], [JString(i.first.pubkey), JString(i.second.pubkey)];
    assert m["session_id"] == JString(i.sessionId) && m["genesis_hash"] == JString(i.genesis);
    assert m["party_ids"] == JArray(ids) && m["actor_pubkeys"] == JArray(keys);
    ArrayDocument(ids);
    ArrayDocument(keys);
    ObjectDocument(m);
  }

  /** An init may name its keys under the older name. */
  lemma OlderInitArrives(i: Init)
    ensures var m := InitJson(i).members;
      InitFromJson(JObject((m - {"actor_pubkeys"})["actors" := m["actor_pubkeys"]])) == Some(i)
  {
    var m := InitJson(i).members;
    var older := (m - {"actor_pubkeys"})["actors" := m["actor_pubkeys"]];
    assert older["session_id"] == JString(i.sessionId) && older["genesis_hash"] == JString(i.genesis);
    assert "actor_pubkeys" !in older && older["party_ids"] == m["party_ids"] && older["actors"] == m["actor_pubkeys"];
  }

  /** What the decoder makes of one payload; one that does not parse is nothing. */
  function YieldOf(payload: string): Yield {
    match Parse(payload)
    case Some(v) => Classify(v)
    case None => RawYield
  }

  function YieldsOf(payloads: seq<string>): (ys: seq<Yield>)
    ensures |ys| == |payloads|
  {
    seq(|payloads|, i requires 0 <= i < |payloads| => YieldOf(payloads[i]))
  }

  /** What the decoder is meant to make of a message. */
  function Meant(m: Message): Yield {
    match m
    case InitMessage(i) => InitYield(InitJson(i))
    case FrameMessage(f) => FrameYield(f)
    case EnvelopeMessage(e) => EnvelopeYield(e)
  }

  /** The text of a message parses and classifies to the message. */
  lemma MessageArrives(m: Message)
    requires MessageOk(m)
    ensures Parse(MessageText(m)) == Some(MessageJson(m)) && YieldOf(MessageText(m)) == Meant(m)
    ensures m.InitMessage? ==> InitFromJson(InitJson(m.init)) == Some(m.init)
  {
    hide InitJson, InitFromJson, EnvelopeJson, EnvelopeFromJson, IsDocument, Print, Parse;
    match m {
      case InitMessage(i) =>
        InitArrives(i);
        ObjectDocument(map["init" := InitJson(i)]);
      case FrameMessage(f) =>
        FrameDocument(f);
        FrameJsonFields(f);
      case EnvelopeMessage(e) =>
        EnvelopeArrives(e);
        ObjectDocument(map["session_envelope" := EnvelopeJson(e)]);
    }
    DocumentTexts(MessageJson(m), MessageJson(m));
  }

  function EventOf(m: Message, now: Option<real>): Event {
    match m
    case InitMessage(i) => OnInit(i)
    case FrameMessage(f) => OnFrame(f, now)
    case EnvelopeMessage(e) => OnEnvelope(e)
  }

  ghost function TextsOf(ms: seq<Message>): seq<string> {
    seq(|ms|, i requires 0 <= i < |ms| => MessageText(ms[i]))
  }

  /** With no open chain a frame is refused, a repeated one too, and would change nothing either way. */
  lemma NoChainNoStep(env: Env, s: State, f: Frame, now: Option<real>)
    requires forall sid :: sid !in s.chains
    ensures Process(env, s, FrameYield(f), now) == (s, Rejected) && HandleFrame(env, s, f, now).0 == s
  {
    hide TurnOnStore, AcceptAt, Record, Destroy;
    assert Route(s, f.pHash) == None;
  }

  /** The steps a yield stands for: one, or none for what is not a message. */
  function EventsFor(y: Yield, now: Option<real>): seq<Event> {
    match y
    case InitYield(v) => (match InitFromJson(v) case Some(i) => [OnInit(i)] case None => [])
    case FrameYield(f) => [OnFrame(f, now)]
    case EnvelopeYield(e) => [OnEnvelope(e)]
    case RawYield => []
  }

  lemma MeantEvents(m: Message, now: Option<real>)
    requires MessageOk(m)
    ensures EventsFor(Meant(m), now) == [EventOf(m, now)]
  {
    MessageArrives(m);
  }

  lemma RunOfOne(env: Env, s: State, e: Event)
    ensures Run(env, s, []) == s && Run(env, s, [e]) == Step(env, s, e)
  {
    hide Step;
    assert [e][..0] == [];
  }

  /** Whatever the decoder yields, processing it takes the steps it stands for. */
  lemma ProcessIsRun(env: Env, s: State, y: Yield, now: Option<real>)
    ensures Process(env, s, y, now).0 == Run(env, s, EventsFor(y, now))
  {
    hide InitFromJson, Register, HandleEnvelope, HandleFrame, Run;
    if y.FrameYield? && |s.chains| == 0 { NoChainNoStep(env, s, y.frame, now); }
    var events := EventsFor(y, now);
    RunOfOne(env, s, if |events| == 1 then events[0] else DoDestroy(""));
  }
}
