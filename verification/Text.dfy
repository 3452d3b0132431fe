/** Results, string ordering, trimming and decimal digits shared by the other modules. */
module Text {

  datatype Option<+T> = None | Some(value: T)

  datatype Result<+T, +E> = Ok(value: T) | Err(error: E) {
    predicate IsFailure() { Err? }

    function PropagateFailure<U>(): Result<U, E>
      requires Err?
    {
      Err(error)
    }

    function Extract(): T
      requires Ok?
    {
      value
    }
  }

  // ----- The order of JavaScript's Array.prototype.sort() on strings

  /** Position of a character when strings are compared by UTF-16 code unit:
      characters outside the basic plane start with a surrogate and so come before U+E000. */
  function Rank(c: char): int {
    var n := c as int;
    if n < 0xD800 then n else if n >= 0x1_0000 then n - 0x1_0000 + 0xD800 else n + 0x10_0000
  }

  predicate LexLe(a: string, b: string) {
    |a| == 0 ||
    (|b| > 0 && (Rank(a[0]) < Rank(b[0]) || (a[0] == b[0] && LexLe(a[1..], b[1..]))))
  }

  lemma {:induction false} LexTotal(a: string, b: string)
    ensures LexLe(a, b) || LexLe(b, a)
    ensures LexLe(a, b) && LexLe(b, a) ==> a == b
  {
    if |a| > 0 && |b| > 0 && a[0] == b[0] {
      LexTotal(a[1..], b[1..]);
      assert a == [a[0]] + a[1..] && b == [b[0]] + b[1..];
    }
  }

  lemma {:induction false} LexTransitive(a: string, b: string, c: string)
    requires LexLe(a, b) && LexLe(b, c)
    ensures LexLe(a, c)
  {
    if |a| > 0 && a[0] == b[0] && b[0] == c[0] {
      LexTransitive(a[1..], b[1..], c[1..]);
    }
  }

  lemma {:induction false} LeastOf(ks: set<string>) returns (m: string)
    requires ks != {}
    ensures m in ks && forall k :: k in ks ==> LexLe(m, k)
    decreases |ks|
  {
    hide LexLe;
    var x :| x in ks;
    var rest := ks - {x};
    LexTotal(x, x);
    if rest == {} {
      m := x;
      assert ks == {x};
    } else {
      var other := LeastOf(rest);
      LexTotal(x, other);
      m := if LexLe(x, other) then x else other;
      forall k | k in ks ensures LexLe(m, k) {
        if k != x {
          assert k in rest;
          if m == x { LexTransitive(x, other, k); }
        }
      }
    }
  }

  lemma LeastExists(ks: set<string>)
    requires ks != {}
    ensures exists m :: m in ks && forall k :: k in ks ==> LexLe(m, k)
  {
    var m := LeastOf(ks);
  }

  ghost function Least(ks: set<string>): (m: string)
    requires ks != {}
    ensures m in ks && forall k :: k in ks ==> LexLe(m, k)
  {
    LeastExists(ks);
    var m :| m in ks && forall k :: k in ks ==> LexLe(m, k);
    m
  }

  // ----- That order, by the code units themselves

  /** The UTF-16 code units of a character: one, or a surrogate pair. */
  function CharUnits(c: char): (u: seq<int>)
    ensures |u| == 1 || |u| == 2
  {
    var n := c as int;
    if n < 0x1_0000 then [n] else [0xD800 + (n - 0x1_0000) / 0x400, 0xDC00 + (n - 0x1_0000) % 0x400]
  }

  function Units(s: string): seq<int> { if |s| == 0 then [] else CharUnits(s[0]) + Units(s[1..]) }

  /** One unit sequence is a proper beginning of the other, or smaller where they first differ. */
  ghost predicate UnitsBefore(x: seq<int>, y: seq<int>) { exists k: nat :: FirstDifference(x, y, k) }

  predicate FirstDifference(x: seq<int>, y: seq<int>, k: nat) {
    k <= |x| && k < |y| && x[..k] == y[..k] && (k == |x| || x[k] < y[k])
  }

  /** What two sequences begin alike with does not matter. */
  lemma SameStart(p: seq<int>, x: seq<int>, y: seq<int>)
    ensures UnitsBefore(p + x, p + y) <==> UnitsBefore(x, y)
  {
    if k: nat :| FirstDifference(x, y, k) {
      assert (p + x)[..|p| + k] == p + x[..k] && (p + y)[..|p| + k] == p + y[..k];
      assert FirstDifference(p + x, p + y, |p| + k);
    }
    if k: nat :| FirstDifference(p + x, p + y, k) {
      assert forall i :: 0 <= i < |p| ==> (p + x)[i] == (p + y)[i];
      var j := k - |p|;
      assert x[..j] == (p + x)[..k][|p|..] && y[..j] == (p + y)[..k][|p|..];
      assert FirstDifference(x, y, j);
    }
  }

  /** Sequences that differ in the first place are decided there. */
  lemma DifferentStart(x: seq<int>, y: seq<int>)
    requires |x| > 0 && |y| > 0 && x[0] != y[0]
    ensures UnitsBefore(x, y) <==> x[0] < y[0]
  {
    if x[0] < y[0] { assert FirstDifference(x, y, 0); }
    forall k: nat | 0 < k <= |x| && k <= |y| ensures x[..k] != y[..k] {
      assert x[..k][0] == x[0] && y[..k][0] == y[0];
    }
  }

  lemma DifferentChars(c: char, d: char, x: seq<int>, y: seq<int>)
    requires c != d
    ensures UnitsBefore(CharUnits(c) + x, CharUnits(d) + y) <==> Rank(c) < Rank(d)
  {
    var u, v := CharUnits(c), CharUnits(d);
    if u[0] != v[0] {
      DifferentStart(u + x, v + y);
    } else {
      var p := [u[0]];
      assert u + x == p + ([u[1]] + x) && v + y == p + ([v[1]] + y);
      SameStart(p, [u[1]] + x, [v[1]] + y);
      DifferentStart([u[1]] + x, [v[1]] + y);
    }
  }

  /** The order is that of the code units: two different strings are in order exactly when the code units of
      the first are a proper beginning of the second's, or smaller where they first differ. */
  lemma {:induction false} OrderOfUnits(a: string, b: string)
    requires a != b
    ensures LexLe(a, b) <==> UnitsBefore(Units(a), Units(b))
  {
    if |a| == 0 {
      assert FirstDifference(Units(a), Units(b), 0);
    } else if |b| == 0 {
    } else if a[0] == b[0] {
      assert a == [a[0]] + a[1..] && b == [b[0]] + b[1..];
      OrderOfUnits(a[1..], b[1..]);
      SameStart(CharUnits(a[0]), Units(a[1..]), Units(b[1..]));
    } else {
      DifferentChars(a[0], b[0], Units(a[1..]), Units(b[1..]));
    }
  }

  /** The elements of a set in ascending order. */
  ghost function SortedKeys(ks: set<string>): (r: seq<string>)
    ensures |r| == |ks|
    ensures forall k :: k in r <==> k in ks
    decreases |ks|
  {
    if ks == {} then [] else var m := Least(ks); [m] + SortedKeys(ks - {m})
  }

  ghost predicate Ascending(r: seq<string>) {
    forall i, j :: 0 <= i < j < |r| ==> LexLe(r[i], r[j]) && r[i] != r[j]
  }

  /** An ascending list without repeats is the sorted list of its elements. */
  lemma {:induction false} AscendingIsSorted(r: seq<string>, ks: set<string>)
    requires Ascending(r)
    requires forall k :: k in r <==> k in ks
    ensures r == SortedKeys(ks)
  {
    hide LexLe, Least, SortedKeys, Ascending;
    SortedStep(ks);
    if |r| == 0 {
      assert ks == {};
    } else {
      FirstIsLeast(r, ks);
      RestOf(r, ks);
      AscendingIsSorted(r[1..], ks - {r[0]});
      assert r == [r[0]] + r[1..];
    }
  }

  lemma FirstIsLeast(r: seq<string>, ks: set<string>)
    requires |r| > 0 && Ascending(r) && forall k :: k in r <==> k in ks
    ensures ks != {} && Least(ks) == r[0]
  {
    hide LexLe;
    assert r[0] in ks;
    var m := Least(ks);
    var i :| 0 <= i < |r| && r[i] == m;
    LexTotal(r[0], m);
  }

  lemma SortedStep(ks: set<string>)
    ensures SortedKeys(ks) == if ks == {} then [] else [Least(ks)] + SortedKeys(ks - {Least(ks)})
  {
  }

  lemma RestOf(r: seq<string>, ks: set<string>)
    requires |r| > 0 && Ascending(r) && forall k :: k in r <==> k in ks
    ensures Ascending(r[1..]) && forall k :: k in r[1..] <==> k in ks - {r[0]}
  {
    hide LexLe;
    forall k ensures k in r[1..] <==> k in ks - {r[0]} {
      if k in r[1..] { var j :| 0 <= j < |r[1..]| && r[1..][j] == k; assert r[j + 1] == k; }
      if k in ks && k != r[0] { var j :| 0 <= j < |r| && r[j] == k; assert r[1..][j - 1] == k; }
    }
  }

  lemma {:induction false} SortedIsAscending(ks: set<string>)
    ensures Ascending(SortedKeys(ks))
    decreases |ks|
  {
    if ks != {} {
      var m := Least(ks);
      var rest := SortedKeys(ks - {m});
      SortedIsAscending(ks - {m});
      forall j | 0 <= j < |rest| ensures LexLe(m, rest[j]) && m != rest[j] {
        assert rest[j] in ks - {m};
      }
    }
  }

  /** `keys.sort()` on distinct strings, as an insertion sort. */
  method SortStrings(keys: seq<string>) returns (r: seq<string>)
    requires forall i, j :: 0 <= i < j < |keys| ==> keys[i] != keys[j]
    ensures r == SortedKeys(set k | k in keys)
    ensures forall i, j :: 0 <= i < j < |r| ==> UnitsBefore(Units(r[i]), Units(r[j]))
  {
    r := [];
    var n := 0;
    while n < |keys|
      invariant 0 <= n <= |keys|
      invariant Ascending(r)
      invariant forall k :: k in r <==> k in keys[..n]
    {
      var x := keys[n];
      var p := 0;
      while p < |r| && LexLe(r[p], x)
        invariant 0 <= p <= |r|
        invariant forall q :: 0 <= q < p ==> LexLe(r[q], x)
      {
        p := p + 1;
      }
      ghost var before := r;
      assert forall i :: 0 <= i < n ==> keys[..n][i] != x;
      r := r[..p] + [x] + r[p..];
      InsertAscends(before, p, x);
      assert keys[..n + 1] == keys[..n] + [x];
      n := n + 1;
    }
    assert keys[..n] == keys;
    AscendingIsSorted(r, set k | k in keys);
    forall i, j | 0 <= i < j < |r| ensures UnitsBefore(Units(r[i]), Units(r[j])) { OrderOfUnits(r[i], r[j]); }
  }

  lemma InsertAscends(r: seq<string>, p: nat, x: string)
    requires Ascending(r) && p <= |r| && x !in r
    requires forall q :: 0 <= q < p ==> LexLe(r[q], x)
    requires p < |r| ==> !LexLe(r[p], x)
    ensures Ascending(r[..p] + [x] + r[p..])
  {
    forall q | p <= q < |r| ensures LexLe(x, r[q]) {
      LexTotal(r[p], x);
      if q > p { LexTransitive(x, r[p], r[q]); }
    }
  }

  // ----- String.prototype.trim

  /** White space and line terminators removed by trim(). */
  predicate IsSpace(c: char) {
    var n := c as int;
    9 <= n <= 13 || n == 0x20 || n == 0xA0 || n == 0x1680 || 0x2000 <= n <= 0x200A ||
    n == 0x2028 || n == 0x2029 || n == 0x202F || n == 0x205F || n == 0x3000 || n == 0xFEFF
  }

  predicate Blank(s: string) { forall i :: 0 <= i < |s| ==> IsSpace(s[i]) }

  /** `r` is what is left of `s` without white space around it. */
  ghost predicate IsCore(s: string, r: string) {
    && (|r| > 0 ==> !IsSpace(r[0]) && !IsSpace(r[|r| - 1]))
    && exists before, after :: Blank(before) && Blank(after) && s == before + r + after
  }

  function Trim(s: string): (r: string)
    ensures |r| <= |s|
    ensures |r| > 0 ==> !IsSpace(r[0]) && !IsSpace(r[|r| - 1])
    decreases |s|
  {
    if |s| == 0 then s
    else if IsSpace(s[0]) then Trim(s[1..])
    else if IsSpace(s[|s| - 1]) then Trim(s[..|s| - 1])
    else s
  }

  lemma MoreBefore(c: char, before: string, r: string, after: string)
    requires IsSpace(c) && Blank(before)
    ensures Blank([c] + before) && [c] + (before + r + after) == ([c] + before) + r + after
  {
  }

  lemma MoreAfter(c: char, before: string, r: string, after: string)
    requires IsSpace(c) && Blank(after)
    ensures Blank(after + [c]) && (before + r + after) + [c] == before + r + (after + [c])
  {
  }

  lemma {:induction false} TrimSplits(s: string) returns (before: string, after: string)
    ensures Blank(before) && Blank(after) && s == before + Trim(s) + after
    decreases |s|
  {
    hide IsSpace, Blank;
    before, after := "", "";
    if |s| > 0 && IsSpace(s[0]) {
      before, after := TrimSplits(s[1..]);
      MoreBefore(s[0], before, Trim(s), after);
      assert s == [s[0]] + s[1..];
      before := [s[0]] + before;
    } else if |s| > 0 && IsSpace(s[|s| - 1]) {
      before, after := TrimSplits(s[..|s| - 1]);
      MoreAfter(s[|s| - 1], before, Trim(s), after);
      assert s == s[..|s| - 1] + [s[|s| - 1]];
      after := after + [s[|s| - 1]];
    } else {
      NothingAround(s);
    }
  }

  lemma NothingAround(s: string)
    ensures Blank("") && "" + s + "" == s
  {
  }

  /** White space around a string has one end on each side, unless there is nothing else. */
  lemma CoreIsUnique(s: string, r: string, before: string, after: string, q: string, front: string, back: string)
    requires s == before + r + after && s == front + q + back
    requires Blank(before) && Blank(after) && Blank(front) && Blank(back)
    requires |r| > 0 ==> !IsSpace(r[0]) && !IsSpace(r[|r| - 1])
    requires |q| > 0 ==> !IsSpace(q[0]) && !IsSpace(q[|q| - 1])
    ensures r == q
  {
    if |r| > 0 { CoreReaches(s, r, before, after, q, front, back); }
    if |q| > 0 { CoreReaches(s, q, front, back, r, before, after); }
    if |r| > 0 {
      assert r == s[|before|..|before| + |r|] && q == s[|front|..|front| + |q|];
    }
  }

  /** A core that is not empty lies within every other. */
  lemma CoreReaches(s: string, r: string, before: string, after: string, q: string, front: string, back: string)
    requires s == before + r + after && s == front + q + back && |r| > 0
    requires Blank(front) && Blank(back) && !IsSpace(r[0]) && !IsSpace(r[|r| - 1])
    ensures |front| <= |before| && |before| + |r| <= |front| + |q|
  {
    assert s[|before|] == r[0] && s[|before| + |r| - 1] == r[|r| - 1];
    assert forall i :: 0 <= i < |front| ==> s[i] == front[i];
    assert forall i :: 0 <= i < |back| ==> s[|front| + |q| + i] == back[i];
    assert forall i :: |front| + |q| <= i < |s| ==> IsSpace(s[i]);
  }

  /** Trimming removes exactly the white space around a string. */
  lemma TrimIsCore(s: string, r: string)
    ensures IsCore(s, r) <==> r == Trim(s)
  {
    var before, after := TrimSplits(s);
    if IsCore(s, r) {
      var front, back :| Blank(front) && Blank(back) && s == front + r + back;
      CoreIsUnique(s, r, front, back, Trim(s), before, after);
    }
  }

  // ----- Digits

  /** Number.MAX_SAFE_INTEGER. */
  const MAX_SAFE_INTEGER: int := 0x1F_FFFF_FFFF_FFFF

  function HexDigit(d: nat): char
    requires d < 16
  {
    if d < 10 then ('0' as int + d) as char else ('a' as int + (d - 10)) as char
  }

  function DigitChar(d: nat): char
    requires d < 10
  {
    ('0' as int + d) as char
  }

  predicate IsDigit(c: char) { '0' <= c <= '9' }

  predicate AllDigits(s: string) { forall c :: c in s ==> IsDigit(c) }

  /** Decimal text of a natural number, without leading zeros. */
  function Decimal(n: nat): (s: string)
    ensures |s| > 0 && AllDigits(s)
  {
    if n < 10 then [DigitChar(n)] else Decimal(n / 10) + [DigitChar(n % 10)]
  }

  function DecimalValue(s: string): nat
    requires AllDigits(s)
  {
    if |s| == 0 then 0
    else
      assert IsDigit(s[|s| - 1]);
      DecimalValue(s[..|s| - 1]) * 10 + (s[|s| - 1] as int - '0' as int)
  }

  lemma {:induction false} DecimalRoundTrip(n: nat)
    ensures DecimalValue(Decimal(n)) == n
  {
    if n >= 10 {
      DecimalRoundTrip(n / 10);
      var s := Decimal(n);
      assert s[..|s| - 1] == Decimal(n / 10);
    }
  }
}
