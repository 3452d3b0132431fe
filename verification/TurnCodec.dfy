/** Turn bodies: what a TURN frame carries, how it is written to JSON and read back. */
module TurnCodec {
  import opened Text
  import opened CanonicalJson
  import opened Hlc

  datatype OfferSpec = OfferSpec(id: string, kind: string, expiresTurn: int, expiresAtMs: int)

  datatype PortSpec = PortSpec(
    id: string, kind: string, promise: string, expiresTurn: int, expiresAtMs: int,
    bindPolicy: Json, ref: string, maxBindings: Option<int>, terminal: Option<bool>)

  /** The two clock readings are number texts. */
  datatype Observation = Observation(pHash: string, peerActor: string, peerPt: string, recvMs: string)

  datatype ClockBlock = ClockBlock(hlc: Timestamp, observed: Option<Observation>)

  datatype TurnBody = TurnBody(
    offer: OfferSpec, ports: seq<PortSpec>, bindPortId: string, bindPayload: Json, clock: Option<ClockBlock>)

  type Members = map<string, Json>

  // ----- Writing

  const MIN_SAFE_INTEGER: int := -MAX_SAFE_INTEGER

  /** From here on `String(n)` uses exponent notation. */
  const EXPONENT_FROM: int := 1_000_000_000_000_000_000_000

  function IntText(n: int): string { if n < 0 then "-" + Decimal(-n) else Decimal(n) }

  function ExponentText(n: nat): string {
    var d := Decimal(n);
    [d[0]] + "." + d[1..] + "e+" + Decimal(|d| - 1)
  }

  function NumberToString(n: int): string {
    if n >= EXPONENT_FROM then ExponentText(n)
    else if n <= -EXPONENT_FROM then "-" + ExponentText(-n)
    else IntText(n)
  }

  function IntJson(n: int): Json { JNumber(IntText(n)) }

  function EpochMsForWire(n: int): Json {
    if MIN_SAFE_INTEGER <= n <= MAX_SAFE_INTEGER then IntJson(n) else JString(NumberToString(n))
  }

  function OfferJson(o: OfferSpec): Json {
    JObject(map["id" := JString(o.id), "type" := JString(o.kind),
                "expires_turn" := IntJson(o.expiresTurn), "expires_at_ms" := EpochMsForWire(o.expiresAtMs)])
  }

  function PortJson(p: PortSpec): Json {
    JObject(
      map["id" := JString(p.id), "kind" := JString(p.kind), "promise" := JString(p.promise),
          "expires_turn" := IntJson(p.expiresTurn), "expires_at_ms" := EpochMsForWire(p.expiresAtMs),
          "bind_policy" := p.bindPolicy, "ref" := JString(p.ref)]
      + (if p.maxBindings.Some? then map["max_bindings" := IntJson(p.maxBindings.value)] else map[])
      + (if p.terminal.Some? then map["terminal" := JBool(p.terminal.value)] else map[]))
  }

  function ObservedJson(o: Observation): Json {
    JObject(map["p_hash" := JString(o.pHash), "peer_actor" := JString(o.peerActor),
                "peer_pt" := JNumber(o.peerPt), "recv_ms" := JNumber(o.recvMs)])
  }

  function ClockJson(c: ClockBlock): Json {
    JObject(
      map["hlc" := JObject(map["pt" := IntJson(c.hlc.pt), "lc" := IntJson(c.hlc.lc)])]
      + (if c.observed.Some? then map["observed" := ObservedJson(c.observed.value)] else map[]))
  }

  function PortsJson(ports: seq<PortSpec>): Json {
    JArray(seq(|ports|, i requires 0 <= i < |ports| => PortJson(ports[i])))
  }

  function SerializeMembers(body: TurnBody): Members {
    map["offer" := OfferJson(body.offer), "ports" := PortsJson(body.ports),
        "bind_port_id" := JString(body.bindPortId), "bind_payload" := body.bindPayload]
    + (if body.clock.Some? then map["clock" := ClockJson(body.clock.value)] else map[])
  }

  function Serialize(body: TurnBody): Json { JObject(SerializeMembers(body)) }

  // ----- Reading; a failure carries the name of the field

  /** `/^-?\d+$/` and the number it denotes. */
  function IntegerOf(t: string): Option<int> {
    if |t| > 1 && t[0] == '-' && AllDigits(t[1..]) then
      var magnitude: int := DecimalValue(t[1..]);
      Some(-magnitude)
    else if |t| > 0 && AllDigits(t) then Some(DecimalValue(t))
    else None
  }

  function ToNonnegInt(v: Json, field: string): Result<int, string> {
    if v.JUndefined? || v.JNull? then Ok(0)
    else
      var n := match v
        case JNumber(t) => IntegerOf(t)
        case JString(s) => IntegerOf(Trim(s))
        case _ => None;
      if n.Some? && n.value >= 0 then Ok(n.value) else Err(field)
  }

  function ToEpochMs(v: Json, field: string): Result<int, string> { ToNonnegInt(v, field) }

  function ParseText(v: Json, field: string): Result<string, string> {
    if v.JString? then Ok(v.s) else Err(field)
  }

  function TextOr(v: Json, other: string): string { if v.JString? then v.s else other }

  function ParseOffer(v: Json): Result<OfferSpec, string> {
    if !v.JObject? then Err("offer")
    else
      var id :- ParseText(Get(v.members, "id"), "offer.id");
      var kind :- ParseText(Get(v.members, "type"), "offer.type");
      var turn :- ToNonnegInt(Get(v.members, "expires_turn"), "offer.expires_turn");
      var ms :- ToEpochMs(Get(v.members, "expires_at_ms"), "offer.expires_at_ms");
      Ok(OfferSpec(id, kind, turn, ms))
  }

  const SCHEMA_KEYWORDS := {"object", "array", "string", "number", "integer", "boolean", "null"}

  function ParseKind(m: Members): Result<string, string> {
    var kind, legacy := Get(m, "kind"), Get(m, "type");
    if kind.JString? then if kind.s == "" then Err("NbcPortSpec.kind") else Ok(kind.s)
    else if legacy.JString? && legacy.s !in SCHEMA_KEYWORDS && legacy.s != "" then Ok(legacy.s)
    else Err("NbcPortSpec.kind")
  }

  function NullIfAbsent(v: Json): Json { if v.JUndefined? then JNull else v }

  function ParseMaxBindings(v: Json): Result<Option<int>, string> {
    if v.JUndefined? || v.JNull? then Ok(None)
    else
      var n :- ToNonnegInt(v, "NbcPortSpec.max_bindings");
      if n < 1 then Err("NbcPortSpec.max_bindings") else Ok(Some(n))
  }

  /** `Boolean(v)`. */
  function Truthy(v: Json): bool {
    match v
    case JUndefined => false
    case JNull => false
    case JBool(b) => b
    case JNumber(t) => IntegerOf(t) != Some(0)
    case JString(s) => s != ""
    case _ => true
  }

  function ParseTerminal(v: Json): Option<bool> {
    if v.JUndefined? || v.JNull? then None else Some(Truthy(v))
  }

  /** `max_bindings` is absent or at least one, as the store needs it. */
  predicate MaxBindingsOk(p: PortSpec) { p.maxBindings.Some? ==> p.maxBindings.value >= 1 }

  function ParsePort(v: Json): (r: Result<PortSpec, string>)
    ensures r.Ok? ==> MaxBindingsOk(r.value)
  {
    if !v.JObject? then Err("port spec")
    else
      var id :- ParseText(Get(v.members, "id"), "NbcPortSpec.id");
      var kind :- ParseKind(v.members);
      var turn :- ToNonnegInt(Get(v.members, "expires_turn"), "NbcPortSpec.expires_turn");
      var ms :- ToEpochMs(Get(v.members, "expires_at_ms"), "NbcPortSpec.expires_at_ms");
      var max :- ParseMaxBindings(Get(v.members, "max_bindings"));
      Ok(PortSpec(id, kind, TextOr(Get(v.members, "promise"), ""), turn, ms,
                  NullIfAbsent(Get(v.members, "bind_policy")), TextOr(Get(v.members, "ref"), ""),
                  max, ParseTerminal(Get(v.members, "terminal"))))
  }

  function ParsePorts(vs: seq<Json>): (r: Result<seq<PortSpec>, string>)
    ensures r.Ok? ==> |r.value| == |vs|
    ensures r.Ok? ==> forall i :: 0 <= i < |r.value| ==> MaxBindingsOk(r.value[i])
  {
    if |vs| == 0 then Ok([])
    else
      var first :- ParsePort(vs[0]);
      var rest :- ParsePorts(vs[1..]);
      Ok([first] + rest)
  }

  function ParseObserved(v: Json): Result<Option<Observation>, string> {
    if v.JUndefined? || v.JNull? then Ok(None)
    else if !v.JObject? then Err("clock.observed")
    else
      var m := v.members;
      if Get(m, "p_hash").JString? && Get(m, "peer_actor").JString?
         && Get(m, "peer_pt").JNumber? && Get(m, "recv_ms").JNumber?
      then Ok(Some(Observation(m["p_hash"].s, m["peer_actor"].s, m["peer_pt"].token, m["recv_ms"].token)))
      else Err("clock.observed")
  }

  function ParseHlc(v: Json): Result<Timestamp, string> {
    if !v.JObject? then Err("clock.hlc")
    else
      var pt :- ToNonnegInt(Get(v.members, "pt"), "clock.hlc.pt");
      var lc :- ToNonnegInt(Get(v.members, "lc"), "clock.hlc.lc");
      Ok(Timestamp(pt, lc))
  }

  function ParseClock(v: Json): Result<Option<ClockBlock>, string> {
    if v.JUndefined? || v.JNull? then Ok(None)
    else if !v.JObject? then Err("clock")
    else
      var hlc :- ParseHlc(Get(v.members, "hlc"));
      var observed :- ParseObserved(Get(v.members, "observed"));
      Ok(Some(ClockBlock(hlc, observed)))
  }

  function ParseBody(v: Json): (r: Result<TurnBody, string>)
    ensures r.Ok? ==> forall i :: 0 <= i < |r.value.ports| ==> MaxBindingsOk(r.value.ports[i])
  {
    if !v.JObject? then Err("NbcTurnBody")
    else
      var offer :- ParseOffer(Get(v.members, "offer"));
      if !Get(v.members, "ports").JArray? then Err("ports")
      else
        var ports :- ParsePorts(v.members["ports"].items);
        var clock :- ParseClock(Get(v.members, "clock"));
        Ok(TurnBody(offer, ports, TextOr(Get(v.members, "bind_port_id"), ""),
                    NullIfAbsent(Get(v.members, "bind_payload")), clock))
  }

  // ----- Reading back what was written

  predicate EpochOk(n: int) { 0 <= n < EXPONENT_FROM }

  predicate PortOk(p: PortSpec) {
    && p.kind != "" && p.expiresTurn >= 0 && EpochOk(p.expiresAtMs) && !p.bindPolicy.JUndefined?
    && (p.maxBindings.Some? ==> p.maxBindings.value >= 1)
  }

  predicate PortsOk(ports: seq<PortSpec>) { forall i :: 0 <= i < |ports| ==> PortOk(ports[i]) }

  /** The bodies a caller may send. */
  predicate BodyOk(b: TurnBody) {
    && b.offer.expiresTurn >= 0 && EpochOk(b.offer.expiresAtMs)
    && PortsOk(b.ports)
    && !b.bindPayload.JUndefined?
    && (b.clock.Some? ==> b.clock.value.hlc.pt >= 0 && b.clock.value.hlc.lc >= 0)
  }

  /** Every moment of the body is below 10^21. */
  predicate MomentsFit(b: TurnBody) {
    b.offer.expiresAtMs < EXPONENT_FROM && forall i :: 0 <= i < |b.ports| ==> b.ports[i].expiresAtMs < EXPONENT_FROM
  }

  lemma {:induction false} ParsedPortsOk(vs: seq<Json>)
    ensures var r := ParsePorts(vs);
      r.Ok? ==> forall i :: 0 <= i < |r.value| ==>
        (PortOk(r.value[i]) <==> r.value[i].expiresAtMs < EXPONENT_FROM)
  {
    if |vs| > 0 { ParsedPortsOk(vs[1..]); }
  }

  lemma ParsedPartsOk(offer: Json, clock: Json)
    ensures ParseOffer(offer).Ok? ==>
      ParseOffer(offer).value.expiresTurn >= 0 && ParseOffer(offer).value.expiresAtMs >= 0
    ensures ParseClock(clock).Ok? && ParseClock(clock).value.Some? ==>
      ParseClock(clock).value.value.hlc.pt >= 0 && ParseClock(clock).value.value.hlc.lc >= 0
  {
  }

  /** Whatever the parser lets through can be sent on, exactly when its moments are below 10^21. */
  lemma ParsedIsSendable(v: Json)
    requires ParseBody(v).Ok?
    ensures BodyOk(ParseBody(v).value) <==> MomentsFit(ParseBody(v).value)
  {
    hide ParseOffer, ParsePorts, ParseClock, PortOk;
    ParsedPartsOk(Get(v.members, "offer"), Get(v.members, "clock"));
    ParsedPortsOk(v.members["ports"].items);
  }

  /** A moment travels as a number exactly when that is a safe integer, as a string otherwise. */
  lemma MomentKind(n: int)
    ensures EpochMsForWire(n).JNumber? <==> -0x20_0000_0000_0000 < n < 0x20_0000_0000_0000
    ensures !EpochMsForWire(n).JNumber? ==> EpochMsForWire(n).JString?
  {
  }

  /** A port's kind is its `kind`, or else its `type` unless that is a schema keyword; never empty. */
  lemma KindExactly(m: Members, kind: string)
    ensures ParseKind(m) == Ok(kind) <==>
      && kind != ""
      && (Get(m, "kind") == JString(kind) ||
          (!Get(m, "kind").JString? && Get(m, "type") == JString(kind) && kind !in SCHEMA_KEYWORDS))
  {
  }

  lemma IntegerOfIntText(n: int)
    ensures IntegerOf(IntText(n)) == Some(n)
    ensures Trim(IntText(n)) == IntText(n)
  {
    var magnitude: nat := if n < 0 then -n else n;
    var d := Decimal(magnitude);
    DecimalRoundTrip(magnitude);
    assert IsDigit(d[0]) && IsDigit(d[|d| - 1]);
    assert n < 0 ==> IntText(n)[1..] == d;
  }

  lemma ExponentShape(n: nat)
    ensures var t := ExponentText(n); |t| > 1 && IsDigit(t[0]) && t[1] == '.' && IsDigit(t[|t| - 1])
  {
    var d, e := Decimal(n), Decimal(|Decimal(n)| - 1);
    var t := ExponentText(n);
    assert t[1] == '.' && t[0] == d[0] && t[|t| - 1] == e[|e| - 1];
    assert IsDigit(d[0]) && IsDigit(e[|e| - 1]);
  }

  lemma ExponentIsNoInteger(n: nat)
    ensures var t := ExponentText(n);
      && IntegerOf(t) == None && Trim(t) == t
      && IntegerOf("-" + t) == None && Trim("-" + t) == "-" + t
  {
    ExponentShape(n);
    hide ExponentText;
    var t := ExponentText(n);
    assert ("-" + t)[1..] == t;
    assert '.' in t && !IsDigit('.');
  }

  lemma IntRoundTrip(n: int, field: string)
    ensures ToNonnegInt(IntJson(n), field) == Ok(n) <==> n >= 0
  {
    IntegerOfIntText(n);
  }

  /** A moment survives the wire exactly when it is non-negative and below 10^21. */
  lemma EpochRoundTrip(n: int, field: string)
    ensures ToEpochMs(EpochMsForWire(n), field) == Ok(n) <==> EpochOk(n)
  {
    hide IntegerOf, Trim, IntText, ExponentText;
    IntegerOfIntText(n);
    if n >= EXPONENT_FROM { ExponentIsNoInteger(n); }
    if n <= -EXPONENT_FROM { ExponentIsNoInteger(-n); }
  }

  lemma OfferRoundTrip(o: OfferSpec)
    ensures ParseOffer(OfferJson(o)) == Ok(o) <==> o.expiresTurn >= 0 && EpochOk(o.expiresAtMs)
  {
    var m := OfferJson(o).members;
    assert Get(m, "id") == JString(o.id) && Get(m, "type") == JString(o.kind);
    assert Get(m, "expires_turn") == IntJson(o.expiresTurn);
    assert Get(m, "expires_at_ms") == EpochMsForWire(o.expiresAtMs);
    IntRoundTrip(o.expiresTurn, "offer.expires_turn");
    EpochRoundTrip(o.expiresAtMs, "offer.expires_at_ms");
  }

  lemma PortMembers(p: PortSpec)
    ensures var m := PortJson(p).members;
      && Get(m, "id") == JString(p.id) && Get(m, "kind") == JString(p.kind)
      && Get(m, "promise") == JString(p.promise) && Get(m, "ref") == JString(p.ref)
      && Get(m, "expires_turn") == IntJson(p.expiresTurn)
      && Get(m, "expires_at_ms") == EpochMsForWire(p.expiresAtMs)
      && Get(m, "bind_policy") == p.bindPolicy
      && Get(m, "max_bindings") == (if p.maxBindings.Some? then IntJson(p.maxBindings.value) else JUndefined)
      && Get(m, "terminal") == (if p.terminal.Some? then JBool(p.terminal.value) else JUndefined)
  {
    hide EpochMsForWire, IntJson;
  }

  lemma PortRoundTrip(p: PortSpec)
    ensures ParsePort(PortJson(p)) == Ok(p) <==> PortOk(p)
  {
    PortMembers(p);
    IntRoundTrip(p.expiresTurn, "NbcPortSpec.expires_turn");
    EpochRoundTrip(p.expiresAtMs, "NbcPortSpec.expires_at_ms");
    if p.maxBindings.Some? { IntRoundTrip(p.maxBindings.value, "NbcPortSpec.max_bindings"); }
  }

  lemma {:induction false} PortsRoundTrip(ports: seq<PortSpec>)
    ensures ParsePorts(PortsJson(ports).items) == Ok(ports) <==> PortsOk(ports)
  {
    hide PortJson, ParsePort, PortOk;
    if |ports| > 0 {
      var vs, later := PortsJson(ports).items, ports[1..];
      PortRoundTrip(ports[0]);
      PortsRoundTrip(later);
      assert vs[0] == PortJson(ports[0]) && vs[1..] == PortsJson(later).items;
      assert ports == [ports[0]] + later;
      if PortOk(ports[0]) && PortsOk(later) {
        forall i | 0 <= i < |ports| ensures PortOk(ports[i]) {
          if i > 0 { assert ports[i] == later[i - 1]; }
        }
      }
      if PortsOk(ports) {
        forall i | 0 <= i < |later| ensures PortOk(later[i]) { assert later[i] == ports[i + 1]; }
      }
      if ParsePorts(vs) == Ok(ports) { PortsParseEach(vs, ports); }
    }
  }

  lemma PortsParseEach(vs: seq<Json>, ports: seq<PortSpec>)
    requires |vs| > 0 && ParsePorts(vs) == Ok(ports)
    ensures |ports| > 0 && ParsePort(vs[0]) == Ok(ports[0]) && ParsePorts(vs[1..]) == Ok(ports[1..])
  {
    hide ParsePort;
    var first, rest := ParsePort(vs[0]).value, ParsePorts(vs[1..]).value;
    assert ([first] + rest)[1..] == rest;
  }

  lemma ClockRoundTrip(c: ClockBlock)
    ensures ParseClock(ClockJson(c)) == Ok(Some(c)) <==> c.hlc.pt >= 0 && c.hlc.lc >= 0
  {
    var m := ClockJson(c).members;
    var h := JObject(map["pt" := IntJson(c.hlc.pt), "lc" := IntJson(c.hlc.lc)]);
    assert Get(m, "hlc") == h;
    assert Get(h.members, "pt") == IntJson(c.hlc.pt) && Get(h.members, "lc") == IntJson(c.hlc.lc);
    assert Get(m, "observed") == if c.observed.Some? then ObservedJson(c.observed.value) else JUndefined;
    if c.observed.Some? { ObservedRoundTrip(c.observed.value); }
    IntRoundTrip(c.hlc.pt, "clock.hlc.pt");
    IntRoundTrip(c.hlc.lc, "clock.hlc.lc");
  }

  lemma ObservedRoundTrip(o: Observation)
    ensures ParseObserved(ObservedJson(o)) == Ok(Some(o))
  {
    var m := ObservedJson(o).members;
    assert Get(m, "p_hash") == JString(o.pHash) && Get(m, "peer_actor") == JString(o.peerActor);
    assert Get(m, "peer_pt") == JNumber(o.peerPt) && Get(m, "recv_ms") == JNumber(o.recvMs);
  }

  /** Reading a written body gives the body back exactly when the body is one a caller may send. */
  lemma BodyRoundTrip(b: TurnBody)
    ensures ParseBody(Serialize(b)) == Ok(b) <==> BodyOk(b)
  {
    var m := SerializeMembers(b);
    assert Get(m, "offer") == OfferJson(b.offer) && Get(m, "ports") == PortsJson(b.ports);
    assert Get(m, "bind_port_id") == JString(b.bindPortId) && Get(m, "bind_payload") == b.bindPayload;
    assert Get(m, "clock") == if b.clock.Some? then ClockJson(b.clock.value) else JUndefined;
    OfferRoundTrip(b.offer);
    PortsRoundTrip(b.ports);
    if b.clock.Some? { ClockRoundTrip(b.clock.value); }
  }

  // ----- The written body is a JSON document

  /** The free-form parts of a body are JSON documents and its clock readings are number texts. */
  ghost predicate BodyDocument(b: TurnBody) {
    && IsDocument(b.bindPayload)
    && (forall i :: 0 <= i < |b.ports| ==> IsDocument(b.ports[i].bindPolicy))
    && (b.clock.Some? && b.clock.value.observed.Some? ==>
          IsNumberToken(b.clock.value.observed.value.peerPt) && IsNumberToken(b.clock.value.observed.value.recvMs))
  }

  lemma IntTextIsNumber(n: int)
    ensures IsNumberToken(IntText(n))
  {
  }

  lemma EpochIsDocument(n: int)
    ensures IsDocument(EpochMsForWire(n)) && IsDocument(IntJson(n))
  {
    IntTextIsNumber(n);
  }

  lemma OfferIsDocument(o: OfferSpec)
    ensures IsDocument(OfferJson(o))
  {
    EpochIsDocument(o.expiresTurn);
    EpochIsDocument(o.expiresAtMs);
    ObjectDocument(OfferJson(o).members);
  }

  lemma PortIsDocument(p: PortSpec)
    requires IsDocument(p.bindPolicy)
    ensures IsDocument(PortJson(p))
  {
    hide IntText, NumberToString, Decimal;
    EpochIsDocument(p.expiresTurn);
    EpochIsDocument(p.expiresAtMs);
    if p.maxBindings.Some? { EpochIsDocument(p.maxBindings.value); }
    ObjectDocument(PortJson(p).members);
  }

  lemma PortsAreDocument(ports: seq<PortSpec>)
    requires forall i :: 0 <= i < |ports| ==> IsDocument(ports[i].bindPolicy)
    ensures IsDocument(PortsJson(ports))
  {
    forall i | 0 <= i < |ports| ensures IsDocument(PortsJson(ports).items[i]) { PortIsDocument(ports[i]); }
    assert Norm(PortsJson(ports)).items == PortsJson(ports).items;
  }

  lemma ClockIsDocument(c: ClockBlock)
    requires c.observed.Some? ==> IsNumberToken(c.observed.value.peerPt) && IsNumberToken(c.observed.value.recvMs)
    ensures IsDocument(ClockJson(c))
  {
    EpochIsDocument(c.hlc.pt);
    EpochIsDocument(c.hlc.lc);
    ObjectDocument(map["pt" := IntJson(c.hlc.pt), "lc" := IntJson(c.hlc.lc)]);
    if c.observed.Some? { ObjectDocument(ObservedJson(c.observed.value).members); }
    ObjectDocument(ClockJson(c).members);
  }

  lemma SerializeIsDocument(b: TurnBody)
    requires BodyDocument(b)
    ensures IsDocument(Serialize(b))
  {
    OfferIsDocument(b.offer);
    PortsAreDocument(b.ports);
    if b.clock.Some? { ClockIsDocument(b.clock.value); }
    ObjectDocument(SerializeMembers(b));
  }

  /** The receiver reads from the text the turn that the sender wrote. */
  lemma SentBodyArrives(b: TurnBody)
    requires BodyDocument(b) && BodyOk(b)
    ensures Parse(Print(Serialize(b))).Some? && ParseBody(Parse(Print(Serialize(b))).value) == Ok(b)
  {
    SerializeIsDocument(b);
    DocumentTexts(Serialize(b), Serialize(b));
    BodyRoundTrip(b);
  }
}
