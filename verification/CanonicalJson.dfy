/** The canonical JSON text that frames are hashed and signed over, and the reader that undoes it. */
module CanonicalJson {
  import opened Text

  /** A JavaScript value made of JSON parts; an object is its finite map of members, so two objects
      that differ only in the order of their keys are the same value. `token` is the text of a number. */
  datatype Json =
    | JUndefined
    | JNull
    | JBool(b: bool)
    | JNumber(token: string)
    | JString(s: string)
    | JArray(items: seq<Json>)
    | JObject(members: map<string, Json>)

  /** `o[k]` of a plain object. */
  function Get(m: map<string, Json>, k: string): Json { if k in m then m[k] else JUndefined }

  // ----- Writing (stableStringifyInner with the policy that undefined becomes null)

  predicate IsNumberChar(c: char) { IsDigit(c) || c == '-' || c == '+' || c == '.' || c == 'e' || c == 'E' }

  predicate IsNumberToken(t: string) { |t| > 0 && forall c :: c in t ==> IsNumberChar(c) }

  /** Number texts hold no delimiter, here and everywhere inside. */
  ghost predicate WellFormed(v: Json)
    decreases v
  {
    match v
    case JNumber(t) => IsNumberToken(t)
    case JArray(items) => forall i :: 0 <= i < |items| ==> WellFormed(items[i])
    case JObject(m) => forall k :: k in m ==> WellFormed(m[k])
    case _ => true
  }

  /** One character of a JSON.stringify string literal. */
  function EscapeChar(c: char): string {
    var n := c as int;
    if c == '\"' then "\\\""
    else if c == '\\' then "\\\\"
    else if n == 8 then "\\b"
    else if n == 9 then "\\t"
    else if n == 10 then "\\n"
    else if n == 12 then "\\f"
    else if n == 13 then "\\r"
    else if n < 0x20 then "\\u00" + [HexDigit(n / 16), HexDigit(n % 16)]
    else [c]
  }

  function Escape(s: string): string {
    if |s| == 0 then "" else EscapeChar(s[0]) + Escape(s[1..])
  }

  function Quote(s: string): string { "\"" + Escape(s) + "\"" }

  /** `parts.join(",")`. */
  function Join(parts: seq<string>): string {
    if |parts| == 0 then ""
    else if |parts| == 1 then parts[0]
    else parts[0] + "," + Join(parts[1..])
  }

  ghost function Print(v: Json): string
    decreases v, 1, 0
  {
    match v
    case JUndefined => "null"
    case JNull => "null"
    case JBool(b) => if b then "true" else "false"
    case JNumber(t) => t
    case JString(s) => Quote(s)
    case JArray(items) => "[" + Join(ItemTexts(v)) + "]"
    case JObject(m) => "{" + Join(MemberTexts(v, SortedKeys(m.Keys))) + "}"
  }

  ghost function ItemTexts(v: Json): seq<string>
    requires v.JArray?
    decreases v, 0, 0
  {
    seq(|v.items|, i requires 0 <= i < |v.items| => Print(v.items[i]))
  }

  ghost predicate KeysOf(keys: seq<string>, v: Json) {
    v.JObject? && forall i :: 0 <= i < |keys| ==> keys[i] in v.members
  }

  ghost function MemberTexts(v: Json, keys: seq<string>): (texts: seq<string>)
    requires KeysOf(keys, v)
    ensures |texts| == |keys|
    decreases v, 0, |keys|
  {
    if |keys| == 0 then []
    else [Quote(keys[0]) + ":" + Print(v.members[keys[0]])] + MemberTexts(v, keys[1..])
  }

  /** Object.keys: every key once, in whatever order the object holds them. */
  method ObjectKeys(m: map<string, Json>) returns (keys: seq<string>)
    ensures forall i, j :: 0 <= i < j < |keys| ==> keys[i] != keys[j]
    ensures (set k | k in keys) == m.Keys
  {
    keys := [];
    var left := m.Keys;
    while left != {}
      invariant left <= m.Keys
      invariant forall k :: k in keys <==> k in m.Keys - left
      invariant forall i, j :: 0 <= i < j < |keys| ==> keys[i] != keys[j]
      decreases |left|
    {
      var k :| k in left;
      assert k !in keys;
      ghost var before := keys;
      keys, left := keys + [k], left - {k};
      assert forall x :: x in keys <==> x in before || x == k;
    }
  }

  /** The text prints every member of the object once, in ascending order of the keys' code units. */
  ghost predicate InUnitOrder(v: Json, text: string) {
    exists keys: seq<string> ::
      KeysOf(keys, v) && ListsInOrder(v, keys) && text == "{" + Join(MemberTexts(v, keys)) + "}"
  }

  ghost predicate ListsInOrder(v: Json, keys: seq<string>) {
    && v.JObject? && (set k | k in keys) == v.members.Keys
    && forall i, j :: 0 <= i < j < |keys| ==> UnitsBefore(Units(keys[i]), Units(keys[j]))
  }

  method StableStringify(v: Json) returns (text: string)
    ensures text == Print(v)
    ensures v.JObject? ==> InUnitOrder(v, text)
    decreases v, 1
  {
    match v {
      case JUndefined => text := "null";
      case JNull => text := "null";
      case JBool(b) => text := if b then "true" else "false";
      case JNumber(t) => text := t;
      case JString(s) => text := Quote(s);
      case JArray(items) =>
        var parts := StringifyItems(v);
        text := "[" + Join(parts) + "]";
      case JObject(m) =>
        var unsorted := ObjectKeys(m);
        var keys := SortStrings(unsorted);
        assert KeysOf(keys, v) by { assert forall k :: k in keys ==> k in m.Keys; }
        assert ListsInOrder(v, keys);
        var parts := StringifyMembers(v, keys);
        text := "{" + Join(parts) + "}";
    }
  }

  method StringifyItems(v: Json) returns (parts: seq<string>)
    requires v.JArray?
    ensures parts == ItemTexts(v)
    decreases v, 0
  {
    parts := [];
    for i := 0 to |v.items|
      invariant |parts| == i
      invariant forall j :: 0 <= j < i ==> parts[j] == Print(v.items[j])
    {
      var part := StableStringify(v.items[i]);
      parts := parts + [part];
    }
  }

  method StringifyMembers(v: Json, keys: seq<string>) returns (parts: seq<string>)
    requires KeysOf(keys, v)
    ensures parts == MemberTexts(v, keys)
    decreases v, 0
  {
    parts := [];
    for i := 0 to |keys|
      invariant |parts| == i
      invariant forall j :: 0 <= j < i ==> parts[j] == MemberTexts(v, keys)[j]
    {
      var part := StableStringify(v.members[keys[i]]);
      MemberTextAt(v, keys, i);
      parts := parts + [Quote(keys[i]) + ":" + part];
    }
  }

  lemma {:induction false} MemberTextAt(v: Json, keys: seq<string>, i: nat)
    requires KeysOf(keys, v) && i < |keys|
    ensures MemberTexts(v, keys)[i] == Quote(keys[i]) + ":" + Print(v.members[keys[i]])
  {
    if i > 0 { MemberTextAt(v, keys[1..], i - 1); }
  }

  // ----- Reading (JSON.parse, sections 2 to 7 of RFC 8259)

  datatype Read<+T> = Read(value: T, rest: string) | Malformed

  predicate IsBlank(c: char) { c == ' ' || c == '\t' || c == '\n' || c == '\r' }

  function SkipBlanks(t: string): (r: string)
    ensures |r| <= |t|
  {
    if |t| > 0 && IsBlank(t[0]) then SkipBlanks(t[1..]) else t
  }

  function HexValue(c: char): Option<nat> {
    if '0' <= c <= '9' then Some(c as int - '0' as int)
    else if 'a' <= c <= 'f' then Some(c as int - 'a' as int + 10)
    else if 'A' <= c <= 'F' then Some(c as int - 'A' as int + 10)
    else None
  }

  /** The rest of a string literal, after its opening quote. */
  function ReadString(t: string): (r: Read<string>)
    ensures r.Read? ==> |r.rest| < |t|
  {
    if |t| == 0 || t[0] as int < 0x20 then Malformed
    else if t[0] == '\"' then Read("", t[1..])
    else if t[0] != '\\' then Prepend(t[0], ReadString(t[1..]))
    else if |t| < 2 then Malformed
    else if t[1] == 'u' then
      if |t| < 6 then Malformed
      else match (HexValue(t[2]), HexValue(t[3]), HexValue(t[4]), HexValue(t[5]))
        case (Some(a), Some(b), Some(c), Some(d)) =>
          var n := ((a * 16 + b) * 16 + c) * 16 + d;
          if 0xD800 <= n < 0xE000 || n >= 0x1_0000 then Malformed
          else Prepend(n as char, ReadString(t[6..]))
        case _ => Malformed
    else match Unescape(t[1])
      case Some(c) => Prepend(c, ReadString(t[2..]))
      case None => Malformed
  }

  function Unescape(c: char): Option<char> {
    if c == '\"' || c == '\\' || c == '/' then Some(c)
    else if c == 'b' then Some(8 as char)
    else if c == 't' then Some(9 as char)
    else if c == 'n' then Some(10 as char)
    else if c == 'f' then Some(12 as char)
    else if c == 'r' then Some(13 as char)
    else None
  }

  function Prepend(c: char, r: Read<string>): Read<string> {
    match r
    case Read(s, rest) => Read([c] + s, rest)
    case Malformed => Malformed
  }

  function NumberLength(t: string): (n: nat)
    ensures n <= |t|
    ensures forall i :: 0 <= i < n ==> IsNumberChar(t[i])
    ensures n < |t| ==> !IsNumberChar(t[n])
  {
    if |t| > 0 && IsNumberChar(t[0]) then 1 + NumberLength(t[1..]) else 0
  }

  function ReadValue(input: string): (r: Read<Json>)
    ensures r.Read? ==> |r.rest| < |input|
    decreases |input|, 0
  {
    var t := SkipBlanks(input);
    if |t| == 0 then Malformed
    else if t[0] == '\"' then
      match ReadString(t[1..])
      case Read(s, rest) => Read(JString(s), rest)
      case Malformed => Malformed
    else if t[0] == '[' then
      var after := SkipBlanks(t[1..]);
      if |after| > 0 && after[0] == ']' then Read(JArray([]), after[1..])
      else match ReadItems(after)
        case Read(items, rest) => Read(JArray(items), rest)
        case Malformed => Malformed
    else if t[0] == '{' then
      var after := SkipBlanks(t[1..]);
      if |after| > 0 && after[0] == '}' then Read(JObject(map[]), after[1..])
      else match ReadMembers(after)
        case Read(members, rest) => Read(JObject(members), rest)
        case Malformed => Malformed
    else if "null" <= t then Read(JNull, t[4..])
    else if "true" <= t then Read(JBool(true), t[4..])
    else if "false" <= t then Read(JBool(false), t[5..])
    else
      var n := NumberLength(t);
      if n == 0 then Malformed else Read(JNumber(t[..n]), t[n..])
  }

  /** Array elements up to the closing bracket. */
  function ReadItems(input: string): (r: Read<seq<Json>>)
    ensures r.Read? ==> |r.rest| < |input|
    decreases |input|, 1
  {
    match ReadValue(input)
    case Malformed => Malformed
    case Read(v, after) =>
      var t := SkipBlanks(after);
      if |t| > 0 && t[0] == ']' then Read([v], t[1..])
      else if |t| > 0 && t[0] == ',' then
        match ReadItems(t[1..])
        case Read(items, rest) => Read([v] + items, rest)
        case Malformed => Malformed
      else Malformed
  }

  /** A key, its colon and its value. */
  function ReadMember(input: string): (r: Read<(string, Json)>)
    ensures r.Read? ==> |r.rest| < |input|
    decreases |input|, 1
  {
    var t := SkipBlanks(input);
    if |t| == 0 || t[0] != '\"' then Malformed
    else match ReadString(t[1..])
      case Malformed => Malformed
      case Read(key, afterKey) =>
        var colon := SkipBlanks(afterKey);
        if |colon| == 0 || colon[0] != ':' then Malformed
        else match ReadValue(colon[1..])
          case Malformed => Malformed
          case Read(v, after) => Read((key, v), after)
  }

  /** Object members up to the closing brace; a later duplicate of a key wins. */
  function ReadMembers(input: string): (r: Read<map<string, Json>>)
    ensures r.Read? ==> |r.rest| < |input|
    decreases |input|, 2
  {
    match ReadMember(input)
    case Malformed => Malformed
    case Read(member, after) =>
      var t := SkipBlanks(after);
      if |t| > 0 && t[0] == '}' then Read(map[member.0 := member.1], t[1..])
      else if |t| > 0 && t[0] == ',' then
        match ReadMembers(t[1..])
        case Read(members, rest) => Read(map[member.0 := member.1] + members, rest)
        case Malformed => Malformed
      else Malformed
  }

  /** JSON.parse of a whole text. */
  function Parse(text: string): Option<Json> {
    match ReadValue(text)
    case Read(v, rest) => if SkipBlanks(rest) == "" then Some(v) else None
    case Malformed => None
  }

  // ----- The printer is unambiguous

  /** The JSON document a value stands for: undefined becomes null, everywhere. */
  ghost function Norm(v: Json): Json
    decreases v
  {
    match v
    case JUndefined => JNull
    case JArray(items) => JArray(seq(|items|, i requires 0 <= i < |items| => Norm(items[i])))
    case JObject(m) => JObject(map k | k in m :: Norm(m[k]))
    case _ => v
  }

  /** Nothing after a number continues it. */
  predicate Delimited(rest: string) { |rest| > 0 ==> !IsNumberChar(rest[0]) }

  lemma {:induction false} ReadsEscaped(s: string, rest: string)
    ensures ReadString(Escape(s) + "\"" + rest) == Read(s, rest)
  {
    if |s| == 0 {
      assert Escape(s) + "\"" + rest == "\"" + rest;
      assert ("\"" + rest)[1..] == rest;
    } else {
      var tail := Escape(s[1..]) + "\"" + rest;
      var e := EscapeChar(s[0]);
      assert Escape(s) + "\"" + rest == e + tail;
      ReadsEscaped(s[1..], rest);
      ReadsEscapedChar(s[0], tail);
      assert [s[0]] + s[1..] == s;
    }
  }

  lemma ReadsEscapedChar(c: char, tail: string)
    ensures ReadString(EscapeChar(c) + tail) == Prepend(c, ReadString(tail))
  {
    var e := EscapeChar(c);
    var t := e + tail;
    assert t[|e|..] == tail;
    if |e| == 6 {
      ReadsControlChar(c, tail);
    } else if |e| == 2 {
      assert t[0] == '\\' && t[1] == e[1];
      assert Unescape(e[1]) == Some(c);
    } else {
      assert t[0] == c;
    }
  }

  lemma ReadsControlChar(c: char, tail: string)
    requires |EscapeChar(c)| == 6
    ensures ReadString(EscapeChar(c) + tail) == Prepend(c, ReadString(tail))
  {
    var n := c as int;
    var hi, lo := n / 16, n % 16;
    var t := EscapeChar(c) + tail;
    assert HexValue(HexDigit(hi)) == Some(hi) && HexValue(HexDigit(lo)) == Some(lo);
    assert t[0] == '\\' && t[1] == 'u' && t[2] == '0' && t[3] == '0';
    assert t[4] == HexDigit(hi) && t[5] == HexDigit(lo) && t[6..] == tail;
    assert ((0 * 16 + 0) * 16 + hi) * 16 + lo == n;
    assert n as char == c;
  }

  lemma {:induction false} NumberLengthOfToken(t: string, rest: string)
    requires forall c :: c in t ==> IsNumberChar(c)
    requires Delimited(rest)
    ensures NumberLength(t + rest) == |t|
  {
    if |t| == 0 {
      assert t + rest == rest;
    } else {
      assert (t + rest)[1..] == t[1..] + rest;
      NumberLengthOfToken(t[1..], rest);
    }
  }

  /** A printed value starts with a character that is neither blank nor a closing bracket. */
  lemma PrintStart(v: Json)
    requires WellFormed(v)
    ensures |Print(v)| > 0 && !IsBlank(Print(v)[0]) && Print(v)[0] != ']'
  {
    if v.JNumber? { assert IsNumberChar(v.token[0]); }
  }

  lemma {:induction false} ReadsPrinted(v: Json, rest: string)
    requires WellFormed(v) && Delimited(rest)
    ensures ReadValue(Print(v) + rest) == Read(Norm(v), rest)
    decreases v, 2, 0
  {
    match v {
      case JNumber(token) => ReadsNumber(token, rest);
      case JString(s) => ReadsQuoted(s, rest);
      case JArray(items) => ReadsArray(v, rest);
      case JObject(m) => ReadsObject(v, rest);
      case _ => ReadsLiteral(v, rest);
    }
  }

  lemma ReadsQuoted(s: string, rest: string)
    ensures ReadValue(Print(JString(s)) + rest) == Read(JString(s), rest)
  {
    hide Escape, ReadString;
    ReadsEscaped(s, rest);
    assert (Print(JString(s)) + rest)[1..] == Escape(s) + "\"" + rest;
  }

  lemma ReadsLiteral(v: Json, rest: string)
    requires v.JUndefined? || v.JNull? || v.JBool?
    ensures ReadValue(Print(v) + rest) == Read(Norm(v), rest)
  {
    assert Print(v) <= Print(v) + rest;
    assert (Print(v) + rest)[|Print(v)|..] == rest;
  }

  lemma ReadsNumber(token: string, rest: string)
    requires IsNumberToken(token) && Delimited(rest)
    ensures ReadValue(token + rest) == Read(JNumber(token), rest)
  {
    var t := token + rest;
    NumberLengthOfToken(token, rest);
    assert IsNumberChar(token[0]) && t[0] == token[0];
    assert t[..|token|] == token && t[|token|..] == rest;
  }

  lemma {:induction false} ReadsArray(v: Json, rest: string)
    requires WellFormed(v) && v.JArray?
    ensures ReadValue(Print(v) + rest) == Read(Norm(v), rest)
    decreases v, 1, 0
  {
    var inside := Join(ItemTexts(v)) + "]" + rest;
    assert (Print(v) + rest)[1..] == inside;
    if |v.items| == 0 {
      assert inside[1..] == rest;
      assert Norm(v) == JArray([]);
    } else {
      ReadsItems(v, 0, rest);
      assert ItemTexts(v)[0..] == ItemTexts(v);
      ItemsStart(v);
    }
  }

  lemma {:induction false} ReadsObject(v: Json, rest: string)
    requires WellFormed(v) && v.JObject?
    ensures ReadValue(Print(v) + rest) == Read(Norm(v), rest)
    decreases v, 1, 0
  {
    var keys := SortedKeys(v.members.Keys);
    var inside := Join(MemberTexts(v, keys)) + "}" + rest;
    assert Print(v) + rest == "{" + inside;
    assert forall k :: k in keys ==> k in v.members.Keys;
    assert NormMembers(v, keys) == Norm(v).members;
    if |keys| == 0 {
      ReadsBraces(inside, map[], rest);
    } else {
      SortedIsAscending(v.members.Keys);
      ReadsMembers(v, keys, rest);
      ReadsBraces(inside, NormMembers(v, keys), rest);
    }
  }

  lemma ReadsBraces(inside: string, members: map<string, Json>, rest: string)
    requires |inside| > 0 && !IsBlank(inside[0])
    requires if inside[0] == '}' then inside[1..] == rest && members == map[]
             else ReadMembers(inside) == Read(members, rest)
    ensures ReadValue("{" + inside) == Read(JObject(members), rest)
  {
    hide ReadString, NumberLength, ReadItems, ReadMembers;
    assert ("{" + inside)[1..] == inside;
  }

  lemma ItemsStart(v: Json)
    requires WellFormed(v) && v.JArray? && |v.items| > 0
    ensures var text := Join(ItemTexts(v)); |text| > 0 && !IsBlank(text[0]) && text[0] != ']'
  {
    PrintStart(v.items[0]);
    assert ItemTexts(v)[0] == Print(v.items[0]);
  }

  lemma JoinFirst(parts: seq<string>, i: nat)
    requires i < |parts|
    ensures Join(parts[i..]) == if i + 1 == |parts| then parts[i] else parts[i] + "," + Join(parts[i + 1..])
  {
    assert parts[i..][0] == parts[i] && parts[i..][1..] == parts[i + 1..];
  }

  lemma ReadsLastItem(t: string, item: Json, after: string)
    requires ReadValue(t) == Read(item, after)
    requires |after| > 0 && after[0] == ']'
    ensures ReadItems(t) == Read([item], after[1..])
  {
    hide ReadValue;
    assert SkipBlanks(after) == after;
  }

  lemma ReadsNextItem(t: string, item: Json, after: string, items: seq<Json>, rest: string)
    requires ReadValue(t) == Read(item, after)
    requires |after| > 0 && after[0] == ','
    requires ReadItems(after[1..]) == Read(items, rest)
    ensures ReadItems(t) == Read([item] + items, rest)
  {
    hide ReadValue;
    assert SkipBlanks(after) == after;
  }

  lemma {:induction false} ReadsItems(v: Json, i: nat, rest: string)
    requires WellFormed(v) && v.JArray? && i < |v.items|
    ensures ReadItems(Join(ItemTexts(v)[i..]) + "]" + rest) == Read(Norm(v).items[i..], rest)
    decreases v, 0, |v.items| - i
  {
    hide ReadItems, ReadValue, Join, Print;
    var texts, item := ItemTexts(v), v.items[i];
    JoinFirst(texts, i);
    assert texts[i] == Print(item) && Norm(v).items[i] == Norm(item);
    if i + 1 == |v.items| {
      var after := "]" + rest;
      assert Join(texts[i..]) + "]" + rest == Print(item) + after;
      ReadsPrinted(item, after);
      ReadsLastItem(Print(item) + after, Norm(item), after);
      assert after[1..] == rest;
      assert Norm(v).items[i..] == [Norm(item)];
    } else {
      var next := Join(texts[i + 1..]) + "]" + rest;
      var after := "," + next;
      assert Join(texts[i..]) + "]" + rest == Print(item) + after;
      ReadsPrinted(item, after);
      assert after[1..] == next;
      ReadsItems(v, i + 1, rest);
      ReadsNextItem(Print(item) + after, Norm(item), after, Norm(v).items[i + 1..], rest);
      assert Norm(v).items[i..] == [Norm(item)] + Norm(v).items[i + 1..];
    }
  }

  /** The members with the given keys, in normal form. */
  ghost function NormMembers(v: Json, keys: seq<string>): map<string, Json>
    requires KeysOf(keys, v)
  {
    map k | k in v.members && k in keys :: Norm(v.members[k])
  }

  ghost predicate Distinct(keys: seq<string>) { forall i, j :: 0 <= i < j < |keys| ==> keys[i] != keys[j] }

  /** The text that follows the first member. */
  ghost function AfterMember(v: Json, later: seq<string>, rest: string): (t: string)
    requires KeysOf(later, v)
    ensures |t| > 0 && !IsBlank(t[0]) && Delimited(t)
  {
    if |later| == 0 then "}" + rest else "," + (Join(MemberTexts(v, later)) + "}" + rest)
  }

  lemma {:induction false} ReadsMembers(v: Json, keys: seq<string>, rest: string)
    requires WellFormed(v) && KeysOf(keys, v) && Distinct(keys) && |keys| > 0
    ensures Join(MemberTexts(v, keys)) != "" && Join(MemberTexts(v, keys))[0] == '\"'
    ensures ReadMembers(Join(MemberTexts(v, keys)) + "}" + rest) == Read(NormMembers(v, keys), rest)
    decreases v, 0, |keys|
  {
    var k, later := keys[0], keys[1..];
    var member := v.members[k];
    var after := AfterMember(v, later, rest);
    var t := Quote(k) + (":" + (Print(member) + after));
    MembersText(v, keys, rest);
    ReadsMember(k, member, after);
    NormMembersSplit(v, keys);
    if |later| == 0 {
      assert after[1..] == rest;
      assert NormMembers(v, keys) == map[k := Norm(member)];
      ReadsLastMember(t, (k, Norm(member)), after);
    } else {
      assert after[1..] == Join(MemberTexts(v, later)) + "}" + rest;
      ReadsMembers(v, later, rest);
      ReadsNextMember(t, (k, Norm(member)), after, NormMembers(v, later), rest);
    }
  }

  lemma NormMembersSplit(v: Json, keys: seq<string>)
    requires KeysOf(keys, v) && Distinct(keys) && |keys| > 0
    ensures NormMembers(v, keys) == map[keys[0] := Norm(v.members[keys[0]])] + NormMembers(v, keys[1..])
  {
    assert keys == [keys[0]] + keys[1..] && keys[0] !in keys[1..];
  }

  lemma MembersText(v: Json, keys: seq<string>, rest: string)
    requires KeysOf(keys, v) && |keys| > 0
    ensures Join(MemberTexts(v, keys)) != "" && Join(MemberTexts(v, keys))[0] == '\"'
    ensures
      Join(MemberTexts(v, keys)) + "}" + rest
      == Quote(keys[0]) + (":" + (Print(v.members[keys[0]]) + AfterMember(v, keys[1..], rest)))
  {
    var later := MemberTexts(v, keys[1..]);
    var q, p := Quote(keys[0]), Print(v.members[keys[0]]);
    JoinCons(q + ":" + p, later);
    if |later| == 0 { RegroupLast(q, p, rest); } else { RegroupNext(q, p, Join(later), rest); }
  }

  lemma JoinCons(first: string, later: seq<string>)
    ensures Join([first] + later) == if |later| == 0 then first else first + "," + Join(later)
  {
    assert ([first] + later)[1..] == later;
  }

  lemma RegroupLast(q: string, p: string, rest: string)
    ensures q + ":" + p + "}" + rest == q + (":" + (p + ("}" + rest)))
  {
  }

  lemma RegroupNext(q: string, p: string, j: string, rest: string)
    ensures q + ":" + p + "," + j + "}" + rest == q + (":" + (p + ("," + (j + "}" + rest))))
  {
  }

  lemma ReadsLastMember(t: string, member: (string, Json), after: string)
    requires ReadMember(t) == Read(member, after)
    requires |after| > 0 && after[0] == '}'
    ensures ReadMembers(t) == Read(map[member.0 := member.1], after[1..])
  {
    assert SkipBlanks(after) == after;
  }

  lemma ReadsNextMember(t: string, member: (string, Json), after: string, members: map<string, Json>, rest: string)
    requires ReadMember(t) == Read(member, after)
    requires |after| > 0 && after[0] == ','
    requires ReadMembers(after[1..]) == Read(members, rest)
    ensures ReadMembers(t) == Read(map[member.0 := member.1] + members, rest)
  {
    assert SkipBlanks(after) == after;
  }

  lemma ReadsMember(k: string, member: Json, after: string)
    requires WellFormed(member) && Delimited(after)
    ensures ReadMember(Quote(k) + (":" + (Print(member) + after))) == Read((k, Norm(member)), after)
    decreases member, 3, 0
  {
    hide Print, Escape, ReadString, ReadValue, WellFormed, Norm;
    var colon := ":" + (Print(member) + after);
    assert (Quote(k) + colon)[1..] == Escape(k) + "\"" + colon;
    ReadsEscaped(k, colon);
    ReadsPrinted(member, after);
    assert colon[1..] == Print(member) + after;
    assert SkipBlanks(colon) == colon && SkipBlanks(Quote(k) + colon) == Quote(k) + colon;
  }

  /** JSON.parse undoes the canonical printer, up to undefined. */
  lemma ParsePrint(v: Json)
    requires WellFormed(v)
    ensures Parse(Print(v)) == Some(Norm(v))
  {
    ReadsPrinted(v, "");
    assert Print(v) + "" == Print(v);
  }

  lemma {:induction false} SameMemberTexts(a: Json, b: Json, keys: seq<string>)
    requires KeysOf(keys, a) && KeysOf(keys, b)
    requires forall k :: k in keys ==> Print(a.members[k]) == Print(b.members[k])
    ensures MemberTexts(a, keys) == MemberTexts(b, keys)
  {
    if |keys| > 0 {
      SameMemberTexts(a, b, keys[1..]);
    }
  }

  lemma {:induction false} PrintNorm(v: Json)
    ensures Print(Norm(v)) == Print(v)
    decreases v
  {
    match v {
      case JArray(items) =>
        forall i | 0 <= i < |items| ensures ItemTexts(Norm(v))[i] == ItemTexts(v)[i] { PrintNorm(items[i]); }
        assert ItemTexts(Norm(v)) == ItemTexts(v);
      case JObject(m) =>
        forall k | k in m ensures Print(Norm(m[k])) == Print(m[k]) { PrintNorm(m[k]); }
        assert Norm(v).members.Keys == m.Keys;
        var keys := SortedKeys(m.Keys);
        assert forall k :: k in keys ==> k in m.Keys;
        SameMemberTexts(Norm(v), v, keys);
      case _ =>
    }
  }

  /** Two values print the same text exactly when they are the same document. */
  lemma PrintUnambiguous(a: Json, b: Json)
    requires WellFormed(a) && WellFormed(b)
    ensures Print(a) == Print(b) <==> Norm(a) == Norm(b)
  {
    ParsePrint(a);
    ParsePrint(b);
    PrintNorm(a);
    PrintNorm(b);
  }

  /** Printing, parsing and printing again gives the same text. */
  lemma PrintParsePrint(v: Json)
    requires WellFormed(v)
    ensures Parse(Print(v)).Some? && Print(Parse(Print(v)).value) == Print(v)
  {
    ParsePrint(v);
    PrintNorm(v);
  }

  /** A JSON document: no undefined anywhere. */
  ghost predicate IsDocument(v: Json) { WellFormed(v) && Norm(v) == v }

  ghost predicate AreDocuments(vs: seq<Json>) { forall i :: 0 <= i < |vs| ==> IsDocument(vs[i]) }

  lemma DocumentTexts(a: Json, b: Json)
    requires IsDocument(a) && IsDocument(b)
    ensures Print(a) == Print(b) <==> a == b
    ensures Parse(Print(a)) == Some(a)
  {
    PrintUnambiguous(a, b);
    ParsePrint(a);
  }

  /** An object is a document exactly when its members are. */
  lemma ObjectDocument(m: map<string, Json>)
    ensures IsDocument(JObject(m)) <==> forall k :: k in m ==> IsDocument(m[k])
  {
    var n := map k | k in m :: Norm(m[k]);
    if n == m {
      assert forall k :: k in m ==> n[k] == m[k];
    } else {
      assert exists k :: k in m && Norm(m[k]) != m[k];
    }
  }

  lemma SortedListsInOrder(v: Json)
    requires v.JObject?
    ensures var keys := SortedKeys(v.members.Keys); KeysOf(keys, v) && ListsInOrder(v, keys)
  {
    hide Units, UnitsBefore, LexLe;
    var keys := SortedKeys(v.members.Keys);
    SortedIsAscending(v.members.Keys);
    assert forall k :: k in keys ==> k in v.members.Keys;
    assert (set k | k in keys) == v.members.Keys;
    forall i, j | 0 <= i < j < |keys| ensures UnitsBefore(Units(keys[i]), Units(keys[j])) {
      OrderOfUnits(keys[i], keys[j]);
    }
  }

  /** The canonical text of an object prints its members in ascending order of their keys' code units. */
  lemma PrintInUnitOrder(v: Json)
    requires v.JObject?
    ensures InUnitOrder(v, Print(v))
  {
    hide ListsInOrder, MemberTexts, Join, Quote;
    SortedListsInOrder(v);
  }
}
