/** Binary hash trees in which a last node without partner is paired with itself. Both the library
    commitment and the session checkpoint are built this way; they differ in what `node` hashes. */
module MerkleTree {

  datatype Side = Left | Right

  /** The sibling hash at one level and the side it stands on. */
  datatype Step<D> = Step(sibling: D, side: Side)

  type Node<!D> = (D, D) -> D

  /** The children of the j-th parent of a layer. */
  function Pair<D>(layer: seq<D>, j: nat): (D, D)
    requires 2 * j < |layer|
  {
    (layer[2 * j], if 2 * j + 1 < |layer| then layer[2 * j + 1] else layer[2 * j])
  }

  function NextLayer<D>(node: Node<D>, layer: seq<D>): (next: seq<D>)
    ensures |next| == (|layer| + 1) / 2
  {
    seq((|layer| + 1) / 2, j requires 0 <= j < (|layer| + 1) / 2 => node(Pair(layer, j).0, Pair(layer, j).1))
  }

  /** Each layer is half as long as the one below, rounded up. */
  predicate Tapering<D>(layers: seq<seq<D>>) {
    && |layers| > 0
    && (forall l :: 0 <= l < |layers| ==> |layers[l]| > 0)
    && (forall l :: 1 <= l < |layers| ==> |layers[l]| == (|layers[l - 1]| + 1) / 2)
  }

  function Layers<D>(node: Node<D>, layer: seq<D>): (layers: seq<seq<D>>)
    requires |layer| > 0
    ensures Tapering(layers) && layers[0] == layer && |layers[|layers| - 1]| == 1
    decreases |layer|
  {
    if |layer| == 1 then [layer] else [layer] + Layers(node, NextLayer(node, layer))
  }

  lemma LayersStep<D>(node: Node<D>, layer: seq<D>)
    requires |layer| > 0
    ensures Layers(node, layer) == if |layer| == 1 then [layer] else [layer] + Layers(node, NextLayer(node, layer))
  {
  }

  function Root<D>(node: Node<D>, layer: seq<D>): D
    requires |layer| > 0
    decreases |layer|
  {
    if |layer| == 1 then layer[0] else Root(node, NextLayer(node, layer))
  }

  lemma {:induction false} RootIsTop<D>(node: Node<D>, layer: seq<D>)
    requires |layer| > 0
    ensures var layers := Layers(node, layer); layers[|layers| - 1] == [Root(node, layer)]
    decreases |layer|
  {
    if |layer| > 1 {
      RootIsTop(node, NextLayer(node, layer));
    }
  }

  lemma RootOfTwo<D>(node: Node<D>, a: D, b: D)
    ensures Root(node, [a, b]) == node(a, b)
  {
    assert Pair([a, b], 0) == (a, b) && NextLayer(node, [a, b])[0] == node(a, b);
    assert NextLayer(node, [a, b]) == [node(a, b)];
  }

  function Power(k: nat): nat { if k == 0 then 1 else 2 * Power(k - 1) }

  lemma NextOfHalves<D>(node: Node<D>, left: seq<D>, right: seq<D>)
    requires |left| % 2 == 0
    ensures NextLayer(node, left + right) == NextLayer(node, left) + NextLayer(node, right)
  {
    var all, h := left + right, |left| / 2;
    forall j | 0 <= j < (|all| + 1) / 2
      ensures NextLayer(node, all)[j] == (NextLayer(node, left) + NextLayer(node, right))[j]
    {
      if j < h { assert Pair(all, j) == Pair(left, j); } else { assert Pair(all, j) == Pair(right, j - h); }
    }
  }

  /** The root over two halves of 2^k leaves each is the node over their roots. */
  lemma {:induction false} RootSplits<D>(node: Node<D>, left: seq<D>, right: seq<D>, k: nat)
    requires |left| == |right| == Power(k)
    ensures Power(k) > 0 && Root(node, left + right) == node(Root(node, left), Root(node, right))
    decreases k
  {
    if k == 0 {
      assert left + right == [left[0], right[0]];
      RootOfTwo(node, left[0], right[0]);
    } else {
      var l, r := NextLayer(node, left), NextLayer(node, right);
      RootSplits(node, l, r, k - 1);
      NextOfHalves(node, left, right);
    }
  }

  lemma NextOfRepeated<D>(node: Node<D>, layer: seq<D>)
    requires |layer| % 2 == 1
    ensures NextLayer(node, layer + [layer[|layer| - 1]]) == NextLayer(node, layer)
  {
    var more := layer + [layer[|layer| - 1]];
    forall j | 0 <= j < (|layer| + 1) / 2 ensures NextLayer(node, more)[j] == NextLayer(node, layer)[j] {
      assert Pair(more, j) == Pair(layer, j);
    }
  }

  /** A last leaf without partner counts as two: repeating it changes nothing. */
  lemma LastCountsTwice<D>(node: Node<D>, layer: seq<D>)
    requires |layer| > 1 && |layer| % 2 == 1
    ensures Root(node, layer + [layer[|layer| - 1]]) == Root(node, layer)
  {
    hide NextLayer;
    NextOfRepeated(node, layer);
  }

  function Combine<D>(node: Node<D>, current: D, step: Step<D>): D {
    var p := StepPair(current, step);
    node(p.0, p.1)
  }

  function StepPair<D>(current: D, step: Step<D>): (D, D) {
    if step.side == Left then (step.sibling, current) else (current, step.sibling)
  }

  /** The hash reached from a leaf hash by combining it with one sibling after another. */
  function Climb<D>(node: Node<D>, leaf: D, path: seq<Step<D>>): D {
    if |path| == 0 then leaf
    else Combine(node, Climb(node, leaf, path[..|path| - 1]), path[|path| - 1])
  }

  function SiblingStep<D>(layer: seq<D>, index: nat): Step<D>
    requires index < |layer|
  {
    if index % 2 == 1 then Step(layer[index - 1], Left)
    else Step(if index + 1 < |layer| then layer[index + 1] else layer[index], Right)
  }

  /** The siblings met on the way up from the given position. */
  function PathFrom<D>(layers: seq<seq<D>>, index: nat): (path: seq<Step<D>>)
    requires Tapering(layers) && index < |layers[0]|
    ensures |path| == |layers| - 1
  {
    if |layers| == 1 then []
    else [SiblingStep(layers[0], index)] + PathFrom(layers[1..], index / 2)
  }

  /** One pass over a layer, two hashes at a time. */
  method PairUp<D>(node: Node<D>, layer: seq<D>) returns (next: seq<D>)
    ensures next == NextLayer(node, layer)
  {
    next := [];
    var i := 0;
    while i < |layer|
      invariant i == 2 * |next| && |next| <= (|layer| + 1) / 2
      invariant forall j :: 0 <= j < |next| ==> next[j] == NextLayer(node, layer)[j]
    {
      var left := layer[i];
      var right := if i + 1 < |layer| then layer[i + 1] else left;
      assert Pair(layer, |next|) == (left, right);
      next := next + [node(left, right)];
      i := i + 2;
    }
  }

  /** After `current` comes the layer above it, with the layers above that. */
  lemma LayersFrom<D>(node: Node<D>, all: seq<seq<D>>, n: nat, current: seq<D>)
    requires n < |all| && |current| > 1 && all[n..] == Layers(node, current)
    ensures n + 1 < |all| && all[n + 1] == NextLayer(node, current)
    ensures all[n + 1..] == Layers(node, NextLayer(node, current))
  {
    hide NextLayer, Tapering;
    LayersStep(node, current);
    assert all[n..][1..] == all[n + 1..];
    assert all[n + 1..][0] == all[n + 1];
  }

  /** All layers bottom-up, from at least one leaf. */
  method BuildLayers<D>(node: Node<D>, leaves: seq<D>) returns (layers: seq<seq<D>>)
    requires |leaves| > 0
    ensures layers == Layers(node, leaves)
  {
    hide Layers, NextLayer, Tapering;
    ghost var all := Layers(node, leaves);
    LayersStep(node, leaves);
    assert all[0..] == all;
    layers := [leaves];
    var current := leaves;
    while |current| > 1
      invariant 0 < |current| && 0 < |layers| <= |all| && layers == all[..|layers|]
      invariant all[|layers| - 1..] == Layers(node, current)
      decreases |current|
    {
      var next := PairUp(node, current);
      LayersFrom(node, all, |layers| - 1, current);
      layers := layers + [next];
      current := next;
    }
    LayersStep(node, current);
  }

  // ----- Every position has a path to the root

  lemma {:induction false} ClimbFirst<D>(node: Node<D>, leaf: D, path: seq<Step<D>>)
    requires |path| > 0
    ensures Climb(node, leaf, path) == Climb(node, Combine(node, leaf, path[0]), path[1..])
  {
    if |path| > 1 {
      var front := path[..|path| - 1];
      ClimbFirst(node, leaf, front);
      assert path[1..][..|path| - 2] == front[1..];
    }
  }

  lemma StepReachesParent<D>(node: Node<D>, layer: seq<D>, index: nat)
    requires index < |layer|
    ensures Combine(node, layer[index], SiblingStep(layer, index)) == NextLayer(node, layer)[index / 2]
    ensures StepPair(layer[index], SiblingStep(layer, index)) == Pair(layer, index / 2)
  {
    var j := index / 2;
    assert index == if index % 2 == 1 then 2 * j + 1 else 2 * j;
    assert StepPair(layer[index], SiblingStep(layer, index)) == Pair(layer, j);
  }

  lemma {:induction false} PathReachesRoot<D>(node: Node<D>, layer: seq<D>, index: nat)
    requires index < |layer|
    ensures Climb(node, layer[index], PathFrom(Layers(node, layer), index)) == Root(node, layer)
    decreases |layer|
  {
    if |layer| > 1 {
      var next := NextLayer(node, layer);
      var layers := Layers(node, layer);
      assert layers[1..] == Layers(node, next);
      var path := PathFrom(layers, index);
      assert path[0] == SiblingStep(layer, index) && path[1..] == PathFrom(Layers(node, next), index / 2);
      ClimbFirst(node, layer[index], path);
      StepReachesParent(node, layer, index);
      PathReachesRoot(node, next, index / 2);
    }
  }

  // ----- Only positions of the tree have a path to the root

  /** No pair of the first set hashes like a different pair of the second. */
  ghost predicate NoMixups<D>(node: Node<D>, ps: set<(D, D)>, qs: set<(D, D)>) {
    forall p, q :: p in ps && q in qs && node(p.0, p.1) == node(q.0, q.1) ==> p == q
  }

  ghost function LayerPairs<D>(layer: seq<D>): set<(D, D)> {
    set j | 0 <= j < (|layer| + 1) / 2 :: Pair(layer, j)
  }

  /** Every pair hashed to build the layers above the first. */
  ghost function TreePairs<D>(layers: seq<seq<D>>): set<(D, D)> {
    if |layers| <= 1 then {} else LayerPairs(layers[0]) + TreePairs(layers[1..])
  }

  /** Every pair hashed on the way up a path. */
  ghost function ClimbPairs<D>(node: Node<D>, leaf: D, path: seq<Step<D>>): set<(D, D)> {
    if |path| == 0 then {}
    else
      var below := path[..|path| - 1];
      ClimbPairs(node, leaf, below) + {StepPair(Climb(node, leaf, below), path[|path| - 1])}
  }

  lemma {:induction false} ClimbPairsFirst<D>(node: Node<D>, leaf: D, path: seq<Step<D>>)
    requires |path| > 0
    ensures ClimbPairs(node, leaf, path)
         == {StepPair(leaf, path[0])} + ClimbPairs(node, Combine(node, leaf, path[0]), path[1..])
  {
    if |path| > 1 {
      var front := path[..|path| - 1];
      ClimbPairsFirst(node, leaf, front);
      ClimbFirst(node, leaf, front);
      assert path[1..][..|path| - 2] == front[1..];
    }
  }

  /** The path of a position hashes pairs of the tree only. */
  lemma {:induction false} PathPairsInTree<D>(node: Node<D>, layer: seq<D>, index: nat)
    requires index < |layer|
    ensures ClimbPairs(node, layer[index], PathFrom(Layers(node, layer), index)) <= TreePairs(Layers(node, layer))
    decreases |layer|
  {
    if |layer| > 1 {
      var next := NextLayer(node, layer);
      var path := PathFrom(Layers(node, layer), index);
      LayersAbove(node, layer);
      assert path[0] == SiblingStep(layer, index) && path[1..] == PathFrom(Layers(node, next), index / 2);
      ClimbPairsFirst(node, layer[index], path);
      StepReachesParent(node, layer, index);
      assert StepPair(layer[index], path[0]) in LayerPairs(layer);
      PathPairsInTree(node, next, index / 2);
    }
  }

  /** A hash above the first layer is the hash of a pair of the layer below it. */
  lemma {:induction false} AboveFirstLayer<D>(node: Node<D>, layer: seq<D>, k: nat, x: D) returns (p: (D, D))
    requires |layer| > 0 && 0 < k < |Layers(node, layer)| && x in Layers(node, layer)[k]
    ensures p in TreePairs(Layers(node, layer)) && node(p.0, p.1) == x
    ensures p.0 in Layers(node, layer)[k - 1] && p.1 in Layers(node, layer)[k - 1]
    decreases |layer|
  {
    hide Layers, TreePairs, NextLayer, LayerPairs, Tapering;
    LayersStep(node, layer);
    LayersAbove(node, layer);
    var next := NextLayer(node, layer);
    if k == 1 {
      p := PairAbove(node, layer, x);
    } else {
      p := AboveFirstLayer(node, next, k - 1, x);
    }
  }

  lemma PairAbove<D>(node: Node<D>, layer: seq<D>, x: D) returns (p: (D, D))
    requires x in NextLayer(node, layer)
    ensures p in LayerPairs(layer) && node(p.0, p.1) == x && p.0 in layer && p.1 in layer
  {
    var next := NextLayer(node, layer);
    var j :| 0 <= j < |next| && next[j] == x;
    p := Pair(layer, j);
    assert p in LayerPairs(layer);
  }

  lemma LayersAbove<D>(node: Node<D>, layer: seq<D>)
    requires |layer| > 1
    ensures Layers(node, layer)[1..] == Layers(node, NextLayer(node, layer))
    ensures TreePairs(Layers(node, layer)) == LayerPairs(layer) + TreePairs(Layers(node, NextLayer(node, layer)))
  {
  }

  /** Whatever the siblings and however long the path: one that climbs into a layer of the tree
      started from a leaf of the tree, when no hash of a pair is mistaken for another or for a leaf. */
  lemma {:induction false} ClimbStartsAtLeaf<D>(node: Node<D>, layer: seq<D>, leaf: D, path: seq<Step<D>>, k: nat)
    requires |layer| > 0 && k < |Layers(node, layer)|
    requires Climb(node, leaf, path) in Layers(node, layer)[k]
    requires NoMixups(node, TreePairs(Layers(node, layer)), ClimbPairs(node, leaf, path))
    requires forall p :: p in ClimbPairs(node, leaf, path) ==> node(p.0, p.1) !in layer
    requires forall p :: p in TreePairs(Layers(node, layer)) ==> node(p.0, p.1) != leaf
    ensures leaf in layer
  {
    var x := Climb(node, leaf, path);
    if |path| == 0 {
      if k > 0 { var p := AboveFirstLayer(node, layer, k, x); }
    } else {
      var below := path[..|path| - 1];
      var current := Climb(node, leaf, below);
      var q := StepPair(current, path[|path| - 1]);
      assert q in ClimbPairs(node, leaf, path) && x == node(q.0, q.1);
      if k > 0 {
        var p := AboveFirstLayer(node, layer, k, x);
        assert p == q;
        ClimbStartsAtLeaf(node, layer, leaf, below, k - 1);
      }
    }
  }

  // ----- The root determines the leaves, given their number

  lemma {:induction false} RootDeterminesLeaves<D>(node: Node<D>, a: seq<D>, b: seq<D>)
    requires |a| == |b| > 0 && Root(node, a) == Root(node, b)
    requires NoMixups(node, TreePairs(Layers(node, a)), TreePairs(Layers(node, b)))
    ensures a == b
    decreases |a|
  {
    if |a| > 1 {
      LayersAbove(node, a);
      LayersAbove(node, b);
      RootDeterminesLeaves(node, NextLayer(node, a), NextLayer(node, b));
      NextLayerDeterminesLayer(node, a, b);
    }
  }

  lemma NextLayerDeterminesLayer<D>(node: Node<D>, a: seq<D>, b: seq<D>)
    requires |a| == |b| && NextLayer(node, a) == NextLayer(node, b)
    requires NoMixups(node, LayerPairs(a), LayerPairs(b))
    ensures a == b
  {
    forall i | 0 <= i < |a| ensures a[i] == b[i] {
      ParentDeterminesChildren(node, a, b, i / 2);
      assert i == 2 * (i / 2) || i == 2 * (i / 2) + 1;
    }
  }

  lemma ParentDeterminesChildren<D>(node: Node<D>, a: seq<D>, b: seq<D>, j: nat)
    requires |a| == |b| && 2 * j < |a| && NextLayer(node, a)[j] == NextLayer(node, b)[j]
    requires NoMixups(node, LayerPairs(a), LayerPairs(b))
    ensures Pair(a, j) == Pair(b, j)
  {
    assert Pair(a, j) in LayerPairs(a) && Pair(b, j) in LayerPairs(b);
  }
}
