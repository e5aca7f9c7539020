/** Walking a tree's leaves through their parents: paths, and the next leaf after one. */
module LeafWalk {
  import opened Bytes
  import opened Leaves
  import opened Internals
  import opened Trees
  import opened Scans

  /** The child taken at each level, root first. */
  type Path = seq<nat>

  /** `path` leads from the root of `t` to a leaf. */
  ghost predicate LeadsToLeaf(t: Tree, path: Path)
    decreases |path|
  {
    if path == [] then t.LeafTree?
    else t.InnerTree? && path[0] <= |t.node.entries| && LeadsToLeaf(ChildAt(t.node, path[0]), path[1..])
  }

  /** The subtree after following `path`. */
  function Subtree(t: Tree, path: Path): Option<Tree>
    decreases |path|
  {
    if path == [] then Some(t)
    else if t.LeafTree? || path[0] > |t.node.entries| then None
    else Subtree(ChildAt(t.node, path[0]), path[1..])
  }

  /** How many leaves precede the one `path` leads to. */
  ghost function LeafNumber(t: Tree, path: Path): nat
    requires LeadsToLeaf(t, path)
    decreases |path|
  {
    if path == [] then 0
    else |LeavesIn(t, 0, path[0])| + LeafNumber(ChildAt(t.node, path[0]), path[1..])
  }

  /** Leftmost child at every level. */
  function Leftmost(t: Tree): Path
  {
    match t
    case LeafTree(_) => []
    case InnerTree(node) => [0] + Leftmost(node.leftmost)
  }

  /** The descent for a key. */
  function Descent(t: Tree, q: seq<byte>): Path
  {
    match t
    case LeafTree(_) => []
    case InnerTree(node) =>
      var r := Rank(node.entries, q);
      [r] + Descent(ChildAt(node, r), q)
  }

  /** The path reaches the leaf its number says. */
  lemma {:induction false} LeafAtNumber(t: Tree, path: Path)
    requires LeadsToLeaf(t, path)
    ensures Subtree(t, path).Some? && Subtree(t, path).value.LeafTree?
    ensures LeafNumber(t, path) < |LeavesOf(t)|
    ensures LeavesOf(t)[LeafNumber(t, path)] == Subtree(t, path).value.records
    decreases |path|
  {
    hide LeavesIn;
    if path == [] {
      OneLeaf(t);
    } else {
      var i := path[0];
      LeafAtNumber(ChildAt(t.node, i), path[1..]);
      AroundChild(t, i);
    }
  }

  lemma OneLeaf(t: Tree)
    requires t.LeafTree?
    ensures LeavesOf(t) == [t.records]
  {
  }

  lemma {:induction false} LeftmostIsFirst(t: Tree)
    ensures LeadsToLeaf(t, Leftmost(t)) && LeafNumber(t, Leftmost(t)) == 0
  {
    if t.InnerTree? {
      LeftmostIsFirst(t.node.leftmost);
      assert Leftmost(t)[1..] == Leftmost(t.node.leftmost);
    }
  }

  /** The descent for a key reaches the leaf a scan for it starts at. */
  lemma {:induction false} DescentIsStart(t: Tree, q: seq<byte>)
    ensures LeadsToLeaf(t, Descent(t, q)) && LeafNumber(t, Descent(t, q)) == StartLeaf(t, q)
  {
    if t.InnerTree? {
      var r := Rank(t.node.entries, q);
      DescentIsStart(ChildAt(t.node, r), q);
      assert Descent(t, q)[1..] == Descent(ChildAt(t.node, r), q);
    }
  }

  // ---------------------------------------------------------------------
  // The next leaf
  // ---------------------------------------------------------------------

  /** Below the node at `path[..k]` the path keeps to the last child. */
  ghost predicate LastBelow(t: Tree, path: Path, k: nat)
    requires k <= |path|
  {
    forall j :: k <= j < |path| ==>
      var s := Subtree(t, path[..j]);
      s.Some? && s.value.InnerTree? && path[j] == |s.value.node.entries|
  }

  lemma {:induction false} PrefixIsInner(t: Tree, path: Path, k: nat)
    requires LeadsToLeaf(t, path) && k < |path|
    ensures var s := Subtree(t, path[..k]);
            && s.Some? && s.value.InnerTree? && path[k] <= |s.value.node.entries|
            && LeadsToLeaf(s.value, path[k..])
    decreases |path|
  {
    if k > 0 {
      PrefixIsInner(ChildAt(t.node, path[0]), path[1..], k - 1);
      assert path[..k][1..] == path[1..][..k - 1] && path[1..][k - 1..] == path[k..];
    } else {
      assert path[..0] == [] && path[0..] == path;
    }
  }

  /** A path that keeps to the last child ends at the last leaf. */
  lemma {:induction false} LastPathIsLast(t: Tree, path: Path)
    requires LeadsToLeaf(t, path) && LastBelow(t, path, 0)
    ensures LeafNumber(t, path) == |LeavesOf(t)| - 1
    decreases |path|
  {
    hide LeavesIn;
    if path == [] {
      OneLeaf(t);
    } else {
      var child, rest := ChildAt(t.node, path[0]), path[1..];
      assert Subtree(t, path[..0]) == Some(t) by { assert path[..0] == []; }
      forall j | 0 <= j < |rest| ensures Subtree(child, rest[..j]) == Subtree(t, path[..j + 1]) {
        assert path[..j + 1][1..] == rest[..j];
      }
      LastPathIsLast(child, rest);
      AroundChild(t, path[0]);
      NoneAfter(t);
    }
  }

  lemma NoneAfter(t: Tree)
    requires t.InnerTree?
    ensures LeavesIn(t, |t.node.entries| + 1, |t.node.entries| + 1) == []
  {
  }

  /** Stepping to the next child right of a path that was last below goes exactly one leaf further. */
  lemma {:induction false} StepRight(t: Tree, path: Path, k: nat, next: Path)
    requires LeadsToLeaf(t, path) && k < |path| && LastBelow(t, path, k + 1)
    requires var s := Subtree(t, path[..k]);
             && s.Some? && s.value.InnerTree? && path[k] < |s.value.node.entries|
             && next == path[..k] + [path[k] + 1] + Leftmost(ChildAt(s.value.node, path[k] + 1))
    ensures LeadsToLeaf(t, next) && LeafNumber(t, next) == LeafNumber(t, path) + 1
    decreases k
  {
    hide LeavesIn;
    if k == 0 {
      assert path[..0] == [] && Subtree(t, []) == Some(t);
      StepRightHere(t, path, next);
    } else {
      var i := path[0];
      var child, rest := ChildAt(t.node, i), path[1..];
      assert path[..k][1..] == rest[..k - 1] && path[..k][0] == i;
      forall j | k <= j < |rest| ensures Subtree(child, rest[..j]) == Subtree(t, path[..j + 1]) {
        assert path[..j + 1][1..] == rest[..j];
      }
      assert next[0] == i && next[1..] == rest[..k - 1] + [rest[k - 1] + 1] + next[k + 1..];
      assert next[k + 1..] == Leftmost(ChildAt(Subtree(t, path[..k]).value.node, path[k] + 1));
      StepRight(child, rest, k - 1, next[1..]);
    }
  }

  lemma StepRightHere(t: Tree, path: Path, next: Path)
    requires t.InnerTree? && LeadsToLeaf(t, path) && path != [] && LastBelow(t, path, 1) && path[0] < |t.node.entries|
    requires next == [path[0] + 1] + Leftmost(ChildAt(t.node, path[0] + 1))
    ensures LeadsToLeaf(t, next) && LeafNumber(t, next) == LeafNumber(t, path) + 1
  {
    var i := path[0];
    var child, rest := ChildAt(t.node, i), path[1..];
    forall j | 0 <= j < |rest| ensures Subtree(child, rest[..j]) == Subtree(t, path[..j + 1]) {
      assert path[..j + 1][1..] == rest[..j];
    }
    LastPathIsLast(child, rest);
    LeftmostIsFirst(ChildAt(t.node, i + 1));
    assert next[1..] == Leftmost(ChildAt(t.node, i + 1));
    assert LeavesIn(t, 0, i + 1) == LeavesIn(t, 0, i) + LeavesOf(child);
  }

  /** Climbs to the first ancestor with a child further right, then descends its leftmost branch. */
  method NextLeafAfter(t: Tree, path: Path) returns (next: Option<Path>)
    requires LeadsToLeaf(t, path)
    ensures next.Some? <==> LeafNumber(t, path) + 1 < |LeavesOf(t)|
    ensures next.Some? ==> LeadsToLeaf(t, next.value) && LeafNumber(t, next.value) == LeafNumber(t, path) + 1
  {
    hide LeadsToLeaf, LeafNumber, LeavesOf, Subtree;
    LeafAtNumber(t, path);
    var k := |path|;
    while k > 0
      invariant 0 <= k <= |path| && LastBelow(t, path, k)
    {
      k := k - 1;
      PrefixIsInner(t, path, k);
      var parent := Subtree(t, path[..k]).value;
      if path[k] < |parent.node.entries| {
        next := Some(path[..k] + [path[k] + 1] + Leftmost(ChildAt(parent.node, path[k] + 1)));
        StepRight(t, path, k, next.value);
        LeafAtNumber(t, next.value);
        return;
      }
    }
    LastPathIsLast(t, path);
    return None;
  }

  /** Reading every leaf by repeated successor steps reads the row of leaves from there on. */
  method LeavesFrom(t: Tree, start: Path) returns (leaves: seq<seq<Record>>)
    requires LeadsToLeaf(t, start)
    ensures LeafNumber(t, start) < |LeavesOf(t)| && leaves == LeavesOf(t)[LeafNumber(t, start)..]
  {
    hide LeadsToLeaf, LeafNumber, LeavesOf, Subtree;
    LeafAtNumber(t, start);
    ghost var first := LeafNumber(t, start);
    var path := start;
    leaves := [];
    while true
      invariant LeadsToLeaf(t, path) && first <= LeafNumber(t, path) < |LeavesOf(t)|
      invariant leaves == LeavesOf(t)[first..LeafNumber(t, path)]
      decreases |LeavesOf(t)| - LeafNumber(t, path)
    {
      LeafAtNumber(t, path);
      leaves := leaves + [Subtree(t, path).value.records];
      var next := NextLeafAfter(t, path);
      if next.None? { break; }
      LeafAtNumber(t, next.value);
      path := next.value;
    }
  }
}
