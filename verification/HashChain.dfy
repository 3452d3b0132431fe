/** Chains of items in which every item names the hash of the one before it. */
module HashChain {

  /** The hash the next item must name. */
  function TipAfter<F>(tip: F -> string, genesis: string, history: seq<F>): string {
    if |history| == 0 then genesis else tip(history[|history| - 1])
  }

  /** Every item names the tip it was accepted at. */
  predicate Linked<F>(parent: F -> string, tip: F -> string, genesis: string, history: seq<F>) {
    forall i :: 0 <= i < |history| ==> parent(history[i]) == TipAfter(tip, genesis, history[..i])
  }

  /** Items of the two lists with the same hash are the same item. */
  predicate NoClash<F(==)>(tip: F -> string, a: seq<F>, b: seq<F>) {
    forall i, j :: 0 <= i < |a| && 0 <= j < |b| && tip(a[i]) == tip(b[j]) ==> a[i] == b[j]
  }

  /** No item hashes to a genesis hash. */
  predicate GenesisApart<F>(tip: F -> string, genesis: string, items: seq<F>) {
    forall i :: 0 <= i < |items| ==> tip(items[i]) != genesis
  }

  lemma LinkedAppend<F>(parent: F -> string, tip: F -> string, genesis: string, history: seq<F>, f: F)
    requires Linked(parent, tip, genesis, history) && parent(f) == TipAfter(tip, genesis, history)
    ensures Linked(parent, tip, genesis, history + [f])
  {
    forall i | 0 <= i < |history| + 1
      ensures parent((history + [f])[i]) == TipAfter(tip, genesis, (history + [f])[..i])
    {
      assert (history + [f])[..i] == history[..i];
      assert history[..|history|] == history;
    }
  }

  lemma FrontsApart<F>(tip: F -> string, ga: string, a: seq<F>, gb: string, b: seq<F>)
    requires |a| > 0 && |b| > 0 && NoClash(tip, a, b) && GenesisApart(tip, ga, b) && GenesisApart(tip, gb, a)
    ensures NoClash(tip, a[..|a| - 1], b[..|b| - 1])
    ensures GenesisApart(tip, ga, b[..|b| - 1]) && GenesisApart(tip, gb, a[..|a| - 1])
  {
  }

  lemma FrontLinked<F>(parent: F -> string, tip: F -> string, genesis: string, history: seq<F>)
    requires |history| > 0 && Linked(parent, tip, genesis, history)
    ensures Linked(parent, tip, genesis, history[..|history| - 1])
  {
    var front := history[..|history| - 1];
    forall i | 0 <= i < |front| ensures parent(front[i]) == TipAfter(tip, genesis, front[..i]) {
      assert front[..i] == history[..i];
    }
  }

  /** Equal tips mean equal chains: the same genesis and the same items in the same order. */
  lemma {:induction false} EqualTipsEqualHistories<F>(
      parent: F -> string, tip: F -> string, ga: string, a: seq<F>, gb: string, b: seq<F>)
    requires Linked(parent, tip, ga, a) && Linked(parent, tip, gb, b) && NoClash(tip, a, b)
    requires GenesisApart(tip, ga, b) && GenesisApart(tip, gb, a)
    requires TipAfter(tip, ga, a) == TipAfter(tip, gb, b)
    ensures ga == gb && a == b
    decreases |a|
  {
    if |a| > 0 && |b| > 0 {
      var i, j := |a| - 1, |b| - 1;
      assert tip(a[i]) == tip(b[j]) && a[i] == b[j];
      FrontLinked(parent, tip, ga, a);
      FrontLinked(parent, tip, gb, b);
      FrontsApart(tip, ga, a, gb, b);
      hide NoClash, GenesisApart;
      EqualTipsEqualHistories(parent, tip, ga, a[..i], gb, b[..j]);
      assert a == a[..i] + [a[i]] && b == b[..j] + [b[j]];
    }
  }

  /** Chains that differ at one position never have the same tip again, however they grow. */
  lemma DivergedForever<F>(
      parent: F -> string, tip: F -> string, ga: string, a: seq<F>, gb: string, b: seq<F>, i: nat,
      laterA: seq<F>, laterB: seq<F>)
    requires i < |a| && i < |b| && a[i] != b[i] && a <= laterA && b <= laterB
    requires Linked(parent, tip, ga, laterA) && Linked(parent, tip, gb, laterB) && NoClash(tip, laterA, laterB)
    requires GenesisApart(tip, ga, laterB) && GenesisApart(tip, gb, laterA)
    ensures TipAfter(tip, ga, laterA) != TipAfter(tip, gb, laterB)
  {
    assert laterA[i] == a[i] && laterB[i] == b[i];
    if TipAfter(tip, ga, laterA) == TipAfter(tip, gb, laterB) {
      EqualTipsEqualHistories(parent, tip, ga, laterA, gb, laterB);
    }
  }
}
