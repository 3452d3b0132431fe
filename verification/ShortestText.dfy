/** The canonical text of a document is as short as any JSON text that reads as that document: it holds no
    blank and no longer escape than it needs. */
module ShortestText {
  import opened Text
  import opened CanonicalJson

  // ----- Strings

  lemma EscapeNeeded(c: char)
    ensures |EscapeChar(c)| <= 6
    ensures c as int >= 0x20 && c != '\"' && c != '\\' ==> |EscapeChar(c)| == 1
    ensures forall e :: Unescape(e) == Some(c) ==> |EscapeChar(c)| <= 2
  {
  }

  lemma {:induction false} StringNoLonger(t: string)
    ensures var r := ReadString(t); r.Read? ==> |Escape(r.value)| + 1 + |r.rest| <= |t|
    decreases |t|
  {
    var r := ReadString(t);
    if r.Read? && t[0] != '\"' {
      var used := if t[0] != '\\' then 1 else if t[1] == 'u' then 6 else 2;
      StringNoLonger(t[used..]);
      var later := ReadString(t[used..]);
      assert r == Prepend(r.value[0], later);
      assert r.value[1..] == later.value;
      EscapeNeeded(r.value[0]);
    }
  }

  // ----- Objects, whatever the order of their members

  ghost function EntryLength(v: Json, k: string): nat
    requires v.JObject? && k in v.members
  {
    |Quote(k)| + 1 + |Print(v.members[k])|
  }

  /** The length of the members with the given keys, printed in order. */
  ghost function MembersLength(v: Json, keys: set<string>): nat
    requires v.JObject? && keys <= v.members.Keys
  {
    assert forall k :: k in SortedKeys(keys) ==> k in keys;
    |Join(MemberTexts(v, SortedKeys(keys)))|
  }

  lemma LeastFirst(v: Json, keys: set<string>)
    requires v.JObject? && keys <= v.members.Keys && keys != {}
    ensures var m := Least(keys);
      MembersLength(v, keys) == EntryLength(v, m) + if keys == {m} then 0 else 1 + MembersLength(v, keys - {m})
  {
    hide Quote, Print;
    var m := Least(keys);
    SortedStep(keys);
    assert forall k :: k in SortedKeys(keys) ==> k in keys;
    assert SortedKeys(keys)[1..] == SortedKeys(keys - {m});
    JoinCons(Quote(m) + ":" + Print(v.members[m]), MemberTexts(v, SortedKeys(keys - {m})));
    assert keys == {m} <==> keys - {m} == {};
  }

  lemma LeastStays(keys: set<string>, x: string)
    requires x in keys && x != Least(keys)
    ensures keys - {x} != {} && Least(keys - {x}) == Least(keys)
  {
    var m := Least(keys);
    assert m in keys - {x};
    LexTotal(m, Least(keys - {x}));
  }

  /** Any member may be counted first. */
  lemma {:induction false} AnyFirst(v: Json, keys: set<string>, x: string)
    requires v.JObject? && keys <= v.members.Keys && x in keys
    ensures
      MembersLength(v, keys) == EntryLength(v, x) + if keys == {x} then 0 else 1 + MembersLength(v, keys - {x})
    decreases |keys|
  {
    hide MembersLength, EntryLength, Least;
    var m := Least(keys);
    LeastFirst(v, keys);
    if x != m {
      LeastStays(keys, x);
      LeastFirst(v, keys - {x});
      AnyFirst(v, keys - {m}, x);
      assert keys - {m} - {x} == keys - {x} - {m};
      assert keys - {m} == {x} <==> keys - {x} == {m};
    }
  }

  lemma SameMembersLength(a: Json, b: Json, keys: set<string>)
    requires a.JObject? && b.JObject? && keys <= a.members.Keys && keys <= b.members.Keys
    requires forall k :: k in keys ==> a.members[k] == b.members[k]
    ensures MembersLength(a, keys) == MembersLength(b, keys)
  {
    assert forall k :: k in SortedKeys(keys) ==> k in keys;
    SameMemberTexts(a, b, SortedKeys(keys));
  }

  /** A member read before others takes its place among them, or is lost to a later one with its key. */
  lemma OneMoreMember(k: string, v: Json, later: map<string, Json>)
    requires later != map[]
    ensures var all := map[k := v] + later;
      all != map[] && MembersLength(JObject(all), all.Keys)
        <= |Quote(k)| + 1 + |Print(v)| + 1 + MembersLength(JObject(later), later.Keys)
  {
    hide MembersLength, Quote, Print;
    var all := map[k := v] + later;
    assert k in all;
    if k in later {
      assert all == later;
    } else {
      AnyFirst(JObject(all), all.Keys, k);
      assert all.Keys - {k} == later.Keys;
      SameMembersLength(JObject(all), JObject(later), later.Keys);
    }
  }

  lemma OneMember(k: string, v: Json)
    ensures var one := map[k := v];
      one != map[] && MembersLength(JObject(one), one.Keys) == |Quote(k)| + 1 + |Print(v)|
  {
    assert map[k := v].Keys == {k} && k in map[k := v];
    hide MembersLength, Quote, Print;
    AnyFirst(JObject(map[k := v]), {k}, k);
  }

  // ----- Values

  lemma QuoteLength(s: string)
    ensures |Quote(s)| == |Escape(s)| + 2
  {
  }

  lemma NumberNoLonger(t: string)
    requires NumberLength(t) > 0
    ensures |Print(JNumber(t[..NumberLength(t)]))| + |t[NumberLength(t)..]| == |t|
  {
  }

  lemma SkippedIsNoLonger(t: string)
    ensures SkipBlanks(SkipBlanks(t)) == SkipBlanks(t)
  {
  }

  lemma {:induction false} ValueNoLonger(input: string)
    ensures var r := ReadValue(input); r.Read? ==> |Print(r.value)| + |r.rest| <= |input|
    decreases |input|, 2
  {
    hide ReadItems, ReadMembers, ReadString, Escape, Join, NumberLength, Quote;
    var t := SkipBlanks(input);
    if |t| > 0 && t[0] == '[' {
      ArrayNoLonger(input);
    } else if |t| > 0 && t[0] == '{' {
      ObjectNoLonger(input);
    } else if |t| > 0 && t[0] == '\"' {
      StringNoLonger(t[1..]);
      if ReadString(t[1..]).Read? { QuoteLength(ReadString(t[1..]).value); }
    }
  }

  lemma {:induction false} ArrayNoLonger(input: string)
    requires var t := SkipBlanks(input); |t| > 0 && t[0] == '['
    ensures var r := ReadValue(input); r.Read? ==> |Print(r.value)| + |r.rest| <= |input|
    decreases |input|, 1
  {
    hide ReadItems, ReadMembers, ReadString, Escape, NumberLength, Quote;
    var after := SkipBlanks(SkipBlanks(input)[1..]);
    ItemsNoLonger(after);
    assert Join(ItemTexts(JArray([]))) == "";
  }

  lemma {:induction false} ObjectNoLonger(input: string)
    requires var t := SkipBlanks(input); |t| > 0 && t[0] == '{'
    ensures var r := ReadValue(input); r.Read? ==> |Print(r.value)| + |r.rest| <= |input|
    decreases |input|, 1
  {
    hide ReadItems, ReadMembers, ReadString, Escape, NumberLength, Quote;
    var after := SkipBlanks(SkipBlanks(input)[1..]);
    MembersNoLonger(after);
    NoMembers();
  }

  lemma NoMembers()
    ensures Print(JObject(map[])) == "{}"
  {
    var none: map<string, Json> := map[];
    assert SortedKeys(none.Keys) == [];
  }

  lemma ItemsLength(first: Json, later: seq<Json>)
    ensures |Join(ItemTexts(JArray([first] + later)))|
         == |Print(first)| + if |later| == 0 then 0 else 1 + |Join(ItemTexts(JArray(later)))|
  {
    hide Print;
    assert ItemTexts(JArray([first] + later)) == [Print(first)] + ItemTexts(JArray(later));
    JoinCons(Print(first), ItemTexts(JArray(later)));
  }

  lemma {:induction false} ItemsNoLonger(input: string)
    ensures var r := ReadItems(input);
      r.Read? ==> |r.value| > 0 && |Join(ItemTexts(JArray(r.value)))| + 1 + |r.rest| <= |input|
    decreases |input|, 3
  {
    hide ReadValue, Join, Print, SkipBlanks;
    ValueNoLonger(input);
    var first := ReadValue(input);
    if first.Read? {
      var t := SkipBlanks(first.rest);
      ItemsLength(first.value, []);
      if |t| > 0 && t[0] == ',' {
        ItemsNoLonger(t[1..]);
        if ReadItems(t[1..]).Read? { ItemsLength(first.value, ReadItems(t[1..]).value); }
      }
      assert [first.value] + [] == [first.value];
    }
  }

  lemma {:induction false} MemberNoLonger(input: string)
    ensures var r := ReadMember(input);
      r.Read? ==> |Quote(r.value.0)| + 1 + |Print(r.value.1)| + |r.rest| <= |input|
    decreases |input|, 3
  {
    hide ReadValue, ReadString, Print, Escape;
    var t := SkipBlanks(input);
    if |t| > 0 && t[0] == '\"' {
      StringNoLonger(t[1..]);
      var key := ReadString(t[1..]);
      if key.Read? {
        QuoteLength(key.value);
        var colon := SkipBlanks(key.rest);
        if |colon| > 0 { ValueNoLonger(colon[1..]); }
      }
    }
  }

  lemma {:induction false} MembersNoLonger(input: string)
    ensures var r := ReadMembers(input);
      r.Read? ==> r.value != map[] && MembersLength(JObject(r.value), r.value.Keys) + 1 + |r.rest| <= |input|
    decreases |input|, 4
  {
    hide ReadMember, Quote, Print, SkipBlanks, MembersLength;
    MemberNoLonger(input);
    var first := ReadMember(input);
    if first.Read? {
      var t := SkipBlanks(first.rest);
      OneMember(first.value.0, first.value.1);
      if |t| > 0 && t[0] == ',' {
        MembersNoLonger(t[1..]);
        if ReadMembers(t[1..]).Read? {
          OneMoreMember(first.value.0, first.value.1, ReadMembers(t[1..]).value);
        }
      }
    }
  }

  /** No text that reads as a document is shorter than its canonical text, which does read as it. */
  lemma PrintIsShortest(v: Json, text: string)
    requires IsDocument(v) && Parse(text) == Some(v)
    ensures Parse(Print(v)) == Some(v) && |Print(v)| <= |text|
  {
    hide ReadValue, Print;
    ValueNoLonger(text);
    DocumentTexts(v, v);
  }
}
