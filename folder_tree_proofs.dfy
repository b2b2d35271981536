/**
 * What the folder-tree builder guarantees, proved about the functions of
 * `FolderTree` that follow its loops.
 *
 * The count roll-up is proved with a "spine" view of the builder: the nodes
 * on the path from the top to the node the builder stands on are still
 * open (their counts do not yet include their child on that path), every
 * other node is closed (its count is its own photos plus its children's
 * counts). Each step of the builder keeps this balance, and the final walk
 * closes the spine, so that afterwards every node holds its subtree's photos
 * and `count_all` all photos.
 */
module FolderTreeProofs {
  import opened FolderTree

  // ---------------------------------------------------------------- links

  /** Two stores with the same nodes up to their photo counts. */
  predicate SameLinks(a: seq<Node>, b: seq<Node>) {
    |a| == |b|
    && forall n :: 0 <= n < |a| ==> a[n].name == b[n].name && a[n].parent == b[n].parent && a[n].uri == b[n].uri
  }

  /** The nodes of `b` are the first nodes of `a`, up to their counts. */
  predicate KeepsOld(a: seq<Node>, b: seq<Node>) {
    |b| <= |a| && forall n :: 0 <= n < |b| ==> a[n].name == b[n].name && a[n].parent == b[n].parent && a[n].uri == b[n].uri
  }

  lemma KeepsOldTrans(a: seq<Node>, b: seq<Node>, c: seq<Node>)
    requires KeepsOld(a, b) && KeepsOld(b, c)
    ensures KeepsOld(a, c)
  {
  }

  /** Setting a count changes that count and nothing else. */
  lemma SetCountOnlyCount(nodes: seq<Node>, p: int, v: int)
    requires ValidIter(nodes, p)
    ensures SameLinks(SetCount(nodes, p, v), nodes)
    ensures forall n :: 0 <= n < |nodes| && n != p ==> SetCount(nodes, p, v)[n] == nodes[n]
  {
  }

  /** The folder path of a node reads only names and parent links. */
  lemma {:induction false} PathNamesLinks(a: seq<Node>, b: seq<Node>, x: int)
    requires SameLinks(a, b)
    ensures PathNames(a, x) == PathNames(b, x)
    decreases x + 1
  {
    if ValidIter(a, x) {
      assert ParentOf(a, x) == ParentOf(b, x);
      PathNamesLinks(a, b, ParentOf(a, x));
    }
  }

  /** Appending a node leaves the folder paths of the nodes before it alone. */
  lemma {:induction false} PathNamesAppend(a: seq<Node>, c: Node, x: int)
    requires x < |a|
    ensures PathNames(a + [c], x) == PathNames(a, x)
    decreases x + 1
  {
    if ValidIter(a, x) {
      assert (a + [c])[x] == a[x];
      PathNamesAppend(a, c, ParentOf(a, x));
    }
  }

  /** A node's folder path is its parent's path and its own name. */
  lemma PathNamesOfNode(nodes: seq<Node>, x: int)
    requires ValidIter(nodes, x)
    ensures |PathNames(nodes, x)| >= 1
    ensures PathNames(nodes, x) == PathNames(nodes, ParentOf(nodes, x)) + [nodes[x].name]
  {
  }

  /** Node `n`'s URI extends its parent's by its name and a slash. */
  predicate UriLinked(nodes: seq<Node>, n: int)
    requires 0 <= n < |nodes|
  {
    0 <= nodes[n].parent < n ==> nodes[n].uri == nodes[nodes[n].parent].uri + nodes[n].name + "/"
  }

  /** Every node's URI extends its parent's by its name and a slash. */
  predicate UriChained(nodes: seq<Node>) {
    forall n :: 0 <= n < |nodes| ==> UriLinked(nodes, n)
  }

  // ---------------------------------------------------------------- sums over the store

  /** The counts of the nodes below index `m` whose parent is `p`. */
  function ChildSum(nodes: seq<Node>, p: int, m: nat): int
    requires m <= |nodes|
  {
    if m == 0 then 0
    else ChildSum(nodes, p, m - 1) + (if nodes[m - 1].parent == p then nodes[m - 1].count else 0)
  }

  /** The counts of `p`'s children (of the top-level nodes for -1). */
  function Children(nodes: seq<Node>, p: int): int {
    ChildSum(nodes, p, |nodes|)
  }

  lemma {:induction false} ChildSumSetCount(nodes: seq<Node>, q: int, v: int, p: int, m: nat)
    requires ValidIter(nodes, q) && m <= |nodes|
    ensures ChildSum(SetCount(nodes, q, v), p, m)
         == ChildSum(nodes, p, m) + (if q < m && nodes[q].parent == p then v - nodes[q].count else 0)
  {
    if m > 0 {
      ChildSumSetCount(nodes, q, v, p, m - 1);
    }
  }

  /** Setting a node's count changes only its parent's children's sum, by the difference. */
  lemma ChildrenSetCount(nodes: seq<Node>, q: int, v: int, p: int)
    requires ValidIter(nodes, q)
    ensures Children(SetCount(nodes, q, v), p)
         == Children(nodes, p) + (if nodes[q].parent == p then v - nodes[q].count else 0)
  {
    ChildSumSetCount(nodes, q, v, p, |nodes|);
  }

  lemma {:induction false} ChildSumAppend(nodes: seq<Node>, c: Node, p: int, m: nat)
    requires m <= |nodes|
    ensures ChildSum(nodes + [c], p, m) == ChildSum(nodes, p, m)
  {
    if m > 0 {
      assert (nodes + [c])[m - 1] == nodes[m - 1];
      ChildSumAppend(nodes, c, p, m - 1);
    }
  }

  /** Appending a node adds its count to its parent's children's sum. */
  lemma ChildrenAppend(nodes: seq<Node>, c: Node, p: int)
    ensures Children(nodes + [c], p) == Children(nodes, p) + (if c.parent == p then c.count else 0)
  {
    ChildSumAppend(nodes, c, p, |nodes|);
  }

  /** In a forest a node at or past `m` has no children below `m`. */
  lemma {:induction false} NoChildrenYet(nodes: seq<Node>, p: int, m: nat)
    requires Forest(nodes) && m <= |nodes| && p >= m
    ensures ChildSum(nodes, p, m) == 0
  {
    if m > 0 {
      NoChildrenYet(nodes, p, m - 1);
    }
  }

  // ---------------------------------------------------------------- the open spine

  /**
   * The count of `n`'s child on the path up from `x`: 0 when `n` is not a
   * proper ancestor of `x` (for -1: the top-level node above `x`, if any).
   */
  function OpenChild(nodes: seq<Node>, x: int, n: int): int
    decreases x + 1
  {
    if !ValidIter(nodes, x) then 0
    else if ParentOf(nodes, x) == n then nodes[x].count
    else OpenChild(nodes, ParentOf(nodes, x), n)
  }

  /** Nothing at or below `x` is a proper ancestor of `x`. */
  lemma {:induction false} OpenChildNotAbove(nodes: seq<Node>, x: int, n: int)
    requires n >= x
    ensures OpenChild(nodes, x, n) == 0
    decreases x + 1
  {
    if ValidIter(nodes, x) {
      OpenChildNotAbove(nodes, ParentOf(nodes, x), n);
    }
  }

  /** The spine above `x` reads only the nodes up to `x`. */
  lemma {:induction false} OpenChildFrame(a: seq<Node>, b: seq<Node>, x: int, n: int)
    requires x < |a| && x < |b|
    requires forall y :: 0 <= y <= x ==> a[y] == b[y]
    ensures OpenChild(a, x, n) == OpenChild(b, x, n)
    decreases x + 1
  {
    if x >= 0 {
      OpenChildFrame(a, b, ParentOf(a, x), n);
    }
  }

  /**
   * The builder's balance with the spine ending at `x`: a node's count plus
   * its open child's count is its own photos plus its children's counts, and
   * likewise `count_all` for the top level.
   */
  predicate Balanced(nodes: seq<Node>, own: seq<int>, x: int, countAll: int) {
    |own| == |nodes|
    && (forall n :: 0 <= n < |nodes| ==> BalancedAt(nodes, own, x, n))
    && countAll + OpenChild(nodes, x, -1) == Children(nodes, -1)
  }

  predicate BalancedAt(nodes: seq<Node>, own: seq<int>, x: int, n: int)
    requires 0 <= n < |nodes| == |own|
  {
    nodes[n].count + OpenChild(nodes, x, n) == own[n] + Children(nodes, n)
  }

  /** No open spine: every node holds its own photos and its children's, `count_all` the top level's. */
  predicate Closed(nodes: seq<Node>, own: seq<int>, countAll: int) {
    |own| == |nodes|
    && (forall n :: 0 <= n < |nodes| ==> ClosedAt(nodes, own, n))
    && countAll == Children(nodes, -1)
  }

  predicate ClosedAt(nodes: seq<Node>, own: seq<int>, n: int)
    requires 0 <= n < |nodes| == |own|
  {
    nodes[n].count == own[n] + Children(nodes, n)
  }

  /** With no spine the balance is the closed form. */
  lemma NoSpineIsClosed(nodes: seq<Node>, own: seq<int>, countAll: int)
    requires Balanced(nodes, own, -1, countAll)
    ensures Closed(nodes, own, countAll)
  {
    forall n | 0 <= n < |nodes|
      ensures ClosedAt(nodes, own, n)
    {
      assert BalancedAt(nodes, own, -1, n);
    }
  }

  /**
   * One step up the spine (the step-back loop and the final walk): the
   * parent of `x` takes `x`'s count into its own, and the spine ends at the
   * parent.
   */
  lemma ClimbStep(nodes: seq<Node>, own: seq<int>, x: int, countAll: int)
    requires Forest(nodes) && ValidIter(nodes, x) && ParentOf(nodes, x) >= 0
    requires Balanced(nodes, own, x, countAll)
    ensures var p := ParentOf(nodes, x);
            Balanced(SetCount(nodes, p, nodes[p].count + nodes[x].count), own, p, countAll)
  {
    var p := ParentOf(nodes, x);
    var g := ParentOf(nodes, p);
    var d := nodes[x].count;
    var nodes' := SetCount(nodes, p, nodes[p].count + d);
    SetCountOnlyCount(nodes, p, nodes[p].count + d);
    assert ParentOf(nodes', p) == g;
    forall n | -1 <= n < |nodes|
      ensures n >= 0 ==> BalancedAt(nodes', own, p, n)
      ensures n == -1 ==> countAll + OpenChild(nodes', p, n) == Children(nodes', n)
    {
      ChildrenSetCount(nodes, p, nodes[p].count + d, n);
      OpenChildFrame(nodes', nodes, g, n);
      if n == p {
        OpenChildNotAbove(nodes', p, p);
      }
      assert OpenChild(nodes', p, n) == if g == n then nodes[p].count + d else OpenChild(nodes, g, n);
      assert OpenChild(nodes, x, n) == if p == n then d else OpenChild(nodes, p, n);
      assert OpenChild(nodes, p, n) == if g == n then nodes[p].count else OpenChild(nodes, g, n);
      if n >= 0 {
        assert BalancedAt(nodes, own, x, n);
        assert nodes'[n].count == nodes[n].count + (if n == p then d else 0);
      }
    }
  }

  /** The last step up: past a top-level node its count goes to `count_all`, and no spine is left. */
  lemma ClimbTop(nodes: seq<Node>, own: seq<int>, x: int, countAll: int)
    requires ValidIter(nodes, x) && ParentOf(nodes, x) == -1
    requires Balanced(nodes, own, x, countAll)
    ensures Closed(nodes, own, countAll + nodes[x].count)
    ensures Balanced(nodes, own, -1, countAll + nodes[x].count)
  {
    forall n | 0 <= n < |nodes|
      ensures ClosedAt(nodes, own, n) && BalancedAt(nodes, own, -1, n)
    {
      assert BalancedAt(nodes, own, x, n);
      OpenChildNotAbove(nodes, -1, n);
    }
  }

  /** Appending a node under the end of the spine (or at the top) extends the spine to it. */
  lemma AppendStep(nodes: seq<Node>, own: seq<int>, p: int, countAll: int, c: Node)
    requires Forest(nodes) && -1 <= p < |nodes| && c.parent == p
    requires Balanced(nodes, own, p, countAll)
    ensures Forest(nodes + [c])
    ensures Balanced(nodes + [c], own + [c.count], |nodes|, countAll)
  {
    var nodes' := nodes + [c];
    var x := |nodes|;
    assert ParentOf(nodes', x) == p;
    var own' := own + [c.count];
    forall n | -1 <= n < |nodes'|
      ensures n >= 0 ==> BalancedAt(nodes', own', x, n)
      ensures n == -1 ==> countAll + OpenChild(nodes', x, n) == Children(nodes', n)
    {
      ChildrenAppend(nodes, c, n);
      OpenChildFrame(nodes', nodes, p, n);
      if n == p {
        OpenChildNotAbove(nodes, p, p);
      }
      if n == x {
        NoChildrenYet(nodes, x, |nodes|);
        OpenChildNotAbove(nodes, p, x);
      } else if n >= 0 {
        assert BalancedAt(nodes, own, p, n);
        assert nodes'[n] == nodes[n] && own'[n] == own[n];
      }
    }
  }

  /** Photos credited to the node at the end of the spine join its count. */
  lemma CreditStep(nodes: seq<Node>, own: seq<int>, x: int, countAll: int, k: int)
    requires Forest(nodes) && ValidIter(nodes, x)
    requires Balanced(nodes, own, x, countAll)
    ensures Balanced(SetCount(nodes, x, nodes[x].count + k), own[x := own[x] + k], x, countAll)
  {
    var p := ParentOf(nodes, x);
    var nodes' := SetCount(nodes, x, nodes[x].count + k);
    var own' := own[x := own[x] + k];
    SetCountOnlyCount(nodes, x, nodes[x].count + k);
    assert ParentOf(nodes', x) == p;
    forall n | -1 <= n < |nodes|
      ensures n >= 0 ==> BalancedAt(nodes', own', x, n)
      ensures n == -1 ==> countAll + OpenChild(nodes', x, n) == Children(nodes', n)
    {
      ChildrenSetCount(nodes, x, nodes[x].count + k, n);
      OpenChildFrame(nodes', nodes, p, n);
      if n >= 0 {
        assert BalancedAt(nodes, own, x, n);
      }
    }
  }

  // ---------------------------------------------------------------- the builder's loops

  /** A node is valid exactly when its folder path is not empty. */
  lemma PathNamesEmpty(nodes: seq<Node>, x: int)
    ensures |PathNames(nodes, x)| > 0 <==> ValidIter(nodes, x)
  {
  }

  /** Setting a count keeps the forest, the URI chain and every folder path. */
  lemma SetCountKeepsShape(nodes: seq<Node>, p: int, v: int)
    requires ValidIter(nodes, p)
    ensures Forest(nodes) ==> Forest(SetCount(nodes, p, v))
    ensures UriChained(nodes) ==> UriChained(SetCount(nodes, p, v))
    ensures forall x :: PathNames(SetCount(nodes, p, v), x) == PathNames(nodes, x)
  {
    var nodes' := SetCount(nodes, p, v);
    SetCountOnlyCount(nodes, p, v);
    forall x {
      PathNamesLinks(nodes', nodes, x);
    }
    if UriChained(nodes) {
      forall n | 0 <= n < |nodes'|
        ensures UriLinked(nodes', n)
      {
        assert UriLinked(nodes, n);
      }
    }
  }

  /** The builder's state during the step-back loop: a well-formed store whose spine ends at `parent_iter`. */
  predicate StepInv(w: Walk, own: seq<int>) {
    Forest(w.nodes) && UriChained(w.nodes)
    && -1 <= w.parentIter < |w.nodes|
    && (ValidIter(w.nodes, w.parentIter) ==> w.lastCount == w.nodes[w.parentIter].count)
    && Balanced(w.nodes, own, w.parentIter, w.countAll)
  }

  /** One step of the step-back loop from a node that has a parent. */
  lemma ClimbStepKeeps(w: Walk, own: seq<int>, path: seq<string>)
    requires StepInv(w, own) && PathNames(w.nodes, w.parentIter) == path
    requires ValidIter(w.nodes, w.parentIter) && ParentOf(w.nodes, w.parentIter) >= 0
    ensures var x := w.parentIter;
            var p := ParentOf(w.nodes, x);
            var lc := w.lastCount + w.nodes[p].count;
            var w' := Walk(SetCount(w.nodes, p, lc), x, p, lc, w.countAll);
            StepInv(w', own) && SameLinks(w'.nodes, w.nodes)
            && |path| > 0 && PathNames(w'.nodes, p) == path[..|path| - 1]
  {
    var x := w.parentIter;
    var p := ParentOf(w.nodes, x);
    var lc := w.lastCount + w.nodes[p].count;
    ClimbStep(w.nodes, own, x, w.countAll);
    SetCountKeepsShape(w.nodes, p, lc);
    SetCountOnlyCount(w.nodes, p, lc);
    PathNamesOfNode(w.nodes, x);
  }

  /** The last step of the step-back loop, past a top-level node. */
  lemma ClimbTopKeeps(w: Walk, own: seq<int>, path: seq<string>)
    requires StepInv(w, own) && PathNames(w.nodes, w.parentIter) == path
    requires ValidIter(w.nodes, w.parentIter) && ParentOf(w.nodes, w.parentIter) == -1
    ensures StepInv(Walk(w.nodes, w.parentIter, -1, w.lastCount, w.countAll + w.lastCount), own)
    ensures |path| == 1 && PathNames(w.nodes, -1) == path[..0]
  {
    ClimbTop(w.nodes, own, w.parentIter, w.countAll);
    PathNamesOfNode(w.nodes, w.parentIter);
  }

  /**
   * The step-back loop climbs one folder per step, closing the folder it
   * leaves: after `steps` steps from a node with folder path `path`, the
   * spine ends at the ancestor whose path is `path` without its last
   * `steps` names.
   */
  lemma {:induction false} SteppedBackKeeps(w: Walk, own: seq<int>, path: seq<string>, steps: nat)
    requires StepInv(w, own) && PathNames(w.nodes, w.parentIter) == path && steps <= |path|
    ensures var r := SteppedBack(w, steps);
            StepInv(r, own) && PathNames(r.nodes, r.parentIter) == path[..|path| - steps]
            && SameLinks(r.nodes, w.nodes)
    decreases steps
  {
    if steps > 0 {
      var x := w.parentIter;
      PathNamesEmpty(w.nodes, x);
      var p := ParentOf(w.nodes, x);
      var path' := path[..|path| - 1];
      assert path'[..|path'| - (steps - 1)] == path[..|path| - steps];
      if p >= 0 {
        ClimbStepKeeps(w, own, path);
        var lc := w.lastCount + w.nodes[p].count;
        SteppedBackKeeps(Walk(SetCount(w.nodes, p, lc), x, p, lc, w.countAll), own, path', steps - 1);
      } else {
        ClimbTopKeeps(w, own, path);
        SteppedBackKeeps(Walk(w.nodes, x, -1, w.lastCount, w.countAll + w.lastCount), own, path', steps - 1);
      }
    }
  }

  /** The builder's state during the append loop: as in `StepInv`, without the running count. */
  predicate AppendInv(w: Walk, own: seq<int>) {
    Forest(w.nodes) && UriChained(w.nodes)
    && -1 <= w.parentIter < |w.nodes|
    && Balanced(w.nodes, own, w.parentIter, w.countAll)
  }

  lemma NewCountsCons(segs: seq<string>, i: nat, count: int)
    requires i < |segs|
    ensures NewCounts(segs, i, count) == [NewCount(segs, i, count)] + NewCounts(segs, i + 1, count)
  {
  }

  /** One round of the append loop. */
  lemma AppendOneKeeps(w: Walk, own: seq<int>, segs: seq<string>, j: nat, count: int, root: string)
    requires j < |segs| && AppendInv(w, own) && PathNames(w.nodes, w.parentIter) == segs[..j]
    ensures var n := |w.nodes|;
            var c := AppendedNode(w.nodes, w.parentIter, segs[j], NewCount(segs, j, count), root);
            AppendInv(Walk(w.nodes + [c], n, n, w.lastCount, w.countAll), own + [c.count])
            && PathNames(w.nodes + [c], n) == segs[..j + 1] && KeepsOld(w.nodes + [c], w.nodes)
  {
    var n := |w.nodes|;
    var c := AppendedNode(w.nodes, w.parentIter, segs[j], NewCount(segs, j, count), root);
    var nodes' := w.nodes + [c];
    AppendStep(w.nodes, own, w.parentIter, w.countAll, c);
    assert nodes'[n] == c;
    forall y | 0 <= y < |nodes'|
      ensures UriLinked(nodes', y)
    {
      if y < n {
        assert UriLinked(w.nodes, y);
        assert nodes'[y] == w.nodes[y];
      }
    }
    PathNamesAppend(w.nodes, c, w.parentIter);
    assert PathNames(nodes', n) == PathNames(nodes', w.parentIter) + [segs[j]];
    assert segs[..j + 1] == segs[..j] + [segs[j]];
  }

  /**
   * The append loop grows the spine by one node per remaining segment: the
   * last one holds the row's photos and its folder path is the row's.
   */
  lemma {:induction false} AppendedKeeps(w: Walk, own: seq<int>, segs: seq<string>, j: nat, count: int, root: string)
    requires j <= |segs| && AppendInv(w, own) && PathNames(w.nodes, w.parentIter) == segs[..j]
    ensures var r := Appended(w, segs, j, count, root);
            AppendInv(r, own + NewCounts(segs, j, count)) && PathNames(r.nodes, r.parentIter) == segs
            && (j < |segs| ==> r.nodes[r.parentIter].count == count)
            && KeepsOld(r.nodes, w.nodes)
    decreases |segs| - j
  {
    if j < |segs| {
      var n := |w.nodes|;
      var c := AppendedNode(w.nodes, w.parentIter, segs[j], NewCount(segs, j, count), root);
      AppendOneKeeps(w, own, segs, j, count, root);
      AppendedKeeps(Walk(w.nodes + [c], n, n, w.lastCount, w.countAll), own + [c.count], segs, j + 1, count, root);
      KeepsOldTrans(Appended(w, segs, j, count, root).nodes, w.nodes + [c], w.nodes);
      NewCountsCons(segs, j, count);
      assert own + [c.count] + NewCounts(segs, j + 1, count) == own + NewCounts(segs, j, count);
    } else {
      assert segs[..j] == segs;
      assert own + NewCounts(segs, j, count) == own;
    }
  }

  /** The final walk closes the whole spine: afterwards every node holds its subtree's photos. */
  lemma {:induction false} WalkedUpCloses(w: Walk, own: seq<int>)
    requires Forest(w.nodes) && -1 <= w.iter < |w.nodes|
    requires w.lastCount == (if ValidIter(w.nodes, w.iter) then w.nodes[w.iter].count else 0)
    requires Balanced(w.nodes, own, w.iter, w.countAll)
    ensures var r := WalkedUp(w);
            Closed(r.nodes, own, r.countAll + r.lastCount) && SameLinks(r.nodes, w.nodes)
    decreases w.iter + 1
  {
    var p := ParentOf(w.nodes, w.iter);
    if p >= 0 {
      var lc := w.lastCount + w.nodes[p].count;
      ClimbStep(w.nodes, own, w.iter, w.countAll);
      SetCountKeepsShape(w.nodes, p, lc);
      SetCountOnlyCount(w.nodes, p, lc);
      WalkedUpCloses(Walk(SetCount(w.nodes, p, lc), p, w.parentIter, lc, w.countAll), own);
    } else if ValidIter(w.nodes, w.iter) {
      ClimbTop(w.nodes, own, w.iter, w.countAll);
    } else {
      NoSpineIsClosed(w.nodes, own, w.countAll);
    }
  }

  // ---------------------------------------------------------------- rows

  /**
   * The builder between two rows: a well-formed store whose URIs chain, the
   * node `iter` whose folder path is the previous row's segments and whose
   * count is `last_count`, and the spine open above it.
   */
  predicate Inv(b: Build) {
    Forest(b.nodes) && UriChained(b.nodes)
    && -1 <= b.iter < |b.nodes|
    && PathNames(b.nodes, b.iter) == b.last
    && b.lastCount == (if ValidIter(b.nodes, b.iter) then b.nodes[b.iter].count else 0)
    && Balanced(b.nodes, b.own, b.iter, b.countAll)
  }

  /** `own'` is `own`, padded with zeros, with `c` photos credited to node `x`. */
  predicate Credited(own: seq<int>, own': seq<int>, x: int, c: int) {
    |own| <= |own'| && 0 <= x < |own'|
    && forall n :: 0 <= n < |own'| ==> own'[n] == (if n < |own| then own[n] else 0) + (if n == x then c else 0)
  }

  lemma ClearedInv()
    ensures Inv(Cleared)
  {
  }

  /** After the comparison and step-back loops, the spine ends at the folder the row shares with the previous one. */
  lemma SteppedBackForKeeps(b: Build, row: Row)
    requires Inv(b) && row.absolute && |row.segments| > 0
    ensures var segs := Normalize(row);
            var i := CommonPrefix(segs, b.last);
            var w := SteppedBackFor(b, row);
            StepInv(w, b.own) && SameLinks(w.nodes, b.nodes)
            && PathNames(w.nodes, w.parentIter) == segs[..i] && |segs[..i]| == i
  {
    var segs := Normalize(row);
    var i := CommonPrefix(segs, b.last);
    SteppedBackKeeps(Walk(b.nodes, b.iter, b.iter, b.lastCount, b.countAll), b.own, b.last, |b.last| - i);
    assert b.last[..i] == segs[..i];
  }

  /** The corrected case: a row whose folder is already in the store. */
  lemma FolderPresentKeeps(b: Build, row: Row)
    requires Inv(b) && Parsed(row) && FolderPresent(b, row)
    ensures var r := RowStep(b, row);
            Inv(r) && Credited(b.own, r.own, r.iter, row.count) && KeepsOld(r.nodes, b.nodes)
  {
    SteppedBackForKeeps(b, row);
    var w := SteppedBackFor(b, row);
    var f := w.parentIter;
    var c := w.nodes[f].count + row.count;
    var r := RowStep(b, row);
    assert r == Build(SetCount(w.nodes, f, c), b.own[f := b.own[f] + row.count], f, Normalize(row), c, w.countAll);
    CreditStep(w.nodes, b.own, f, w.countAll, row.count);
    SetCountKeepsShape(w.nodes, f, c);
    SetCountOnlyCount(w.nodes, f, c);
    assert Normalize(row)[..|row.segments|] == Normalize(row);
    assert PathNames(r.nodes, r.iter) == r.last;
    assert SameLinks(r.nodes, b.nodes);
  }

  lemma NewCountsCredit(own: seq<int>, segs: seq<string>, i: nat, count: int)
    requires i < |segs|
    ensures Credited(own, own + NewCounts(segs, i, count), |own| + |segs| - i - 1, count)
  {
    var own' := own + NewCounts(segs, i, count);
    forall n | |own| <= n < |own'|
      ensures own'[n] == NewCount(segs, i + n - |own|, count)
    {
    }
  }

  /** An absolute row whose folder is not in the store: its missing folders are appended. */
  lemma AppendRowKeeps(b: Build, row: Row)
    requires Inv(b) && Parsed(row) && row.absolute && !FolderPresent(b, row)
    ensures var r := RowStep(b, row);
            Inv(r) && Credited(b.own, r.own, r.iter, row.count) && KeepsOld(r.nodes, b.nodes)
            && r.last == Normalize(row)
  {
    var segs := Normalize(row);
    var i := CommonPrefix(segs, b.last);
    SteppedBackForKeeps(b, row);
    var w := SteppedBackFor(b, row);
    PathNamesEmpty(w.nodes, w.parentIter);
    assert i < |segs|;
    AppendedKeeps(w, b.own, segs, i, row.count, row.root);
    NewCountsCredit(b.own, segs, i, row.count);
    KeepsOldTrans(RowStep(b, row).nodes, w.nodes, b.nodes);
  }

  /** Every row keeps the builder's invariant and credits its photos to exactly one node, its folder. */
  lemma RowStepKeeps(b: Build, row: Row)
    requires Inv(b) && Parsed(row)
    ensures var r := RowStep(b, row);
            Inv(r) && KeepsOld(r.nodes, b.nodes)
            && (row.absolute ==> Credited(b.own, r.own, r.iter, row.count) && r.last == Normalize(row))
            && (!row.absolute ==> r == b)
  {
    if FolderPresent(b, row) {
      FolderPresentKeeps(b, row);
    } else if row.absolute {
      AppendRowKeeps(b, row);
    }
  }

  // ---------------------------------------------------------------- the whole tree

  /** The photo counts of the absolute rows: every photo the query reports. */
  function RowTotal(rows: seq<Row>): int {
    if |rows| == 0 then 0
    else RowTotal(rows[..|rows| - 1]) + (if rows[|rows| - 1].absolute then rows[|rows| - 1].count else 0)
  }

  function SumTo(s: seq<int>, m: nat): int
    requires m <= |s|
  {
    if m == 0 then 0 else SumTo(s, m - 1) + s[m - 1]
  }

  function Sum(s: seq<int>): int {
    SumTo(s, |s|)
  }

  lemma {:induction false} SumCreditedTo(own: seq<int>, own': seq<int>, x: int, c: int, m: nat)
    requires Credited(own, own', x, c) && m <= |own'|
    ensures SumTo(own', m) == SumTo(own, if m < |own| then m else |own|) + (if x < m then c else 0)
  {
    if m > 0 {
      SumCreditedTo(own, own', x, c, m - 1);
    }
  }

  lemma AllParsedPrefix(rows: seq<Row>, k: nat)
    requires AllParsed(rows) && k <= |rows|
    ensures AllParsed(rows[..k])
  {
    assert forall j :: 0 <= j < k ==> rows[..k][j] == rows[j];
  }

  /** Row by row the builder keeps its invariant, and its nodes' own photos add up to the rows' photos. */
  lemma {:induction false} FoldKeeps(rows: seq<Row>)
    requires AllParsed(rows)
    ensures Inv(Fold(rows)) && Sum(Fold(rows).own) == RowTotal(rows)
  {
    if |rows| > 0 {
      var prefix := rows[..|rows| - 1];
      var row := rows[|rows| - 1];
      AllParsedPrefix(rows, |rows| - 1);
      FoldKeeps(prefix);
      var b := Fold(prefix);
      RowStepKeeps(b, row);
      if row.absolute {
        var r := RowStep(b, row);
        SumCreditedTo(b.own, r.own, r.iter, row.count, |r.own|);
      }
    }
  }

  lemma SameLinksShape(a: seq<Node>, b: seq<Node>)
    requires SameLinks(a, b)
    ensures Forest(b) ==> Forest(a)
    ensures UriChained(b) ==> UriChained(a)
  {
    if UriChained(b) {
      forall n | 0 <= n < |a|
        ensures UriLinked(a, n)
      {
        assert UriLinked(b, n);
      }
    }
  }

  /**
   * The count roll-up: after `UpdateFolderTree` every folder's count is the
   * photos credited to it plus its subfolders' counts, `count_all` is the sum
   * of the top-level folders' counts, and the final walk changed counts only.
   */
  lemma RollUp(rows: seq<Row>)
    requires AllParsed(rows)
    ensures var t := Update(rows);
            var b := Fold(rows);
            Closed(t.nodes, b.own, t.countAll) && SameLinks(t.nodes, b.nodes)
            && Forest(t.nodes) && UriChained(t.nodes)
  {
    FoldKeeps(rows);
    var b := Fold(rows);
    WalkedUpCloses(Walk(b.nodes, b.iter, b.iter, b.lastCount, b.countAll), b.own);
    SameLinksShape(Update(rows).nodes, b.nodes);
  }

  function CountSum(nodes: seq<Node>, m: nat): int
    requires m <= |nodes|
  {
    if m == 0 then 0 else CountSum(nodes, m - 1) + nodes[m - 1].count
  }

  /** The children's sums of the nodes before `k`. */
  function ParentSums(nodes: seq<Node>, k: nat, m: nat): int
    requires m <= |nodes|
  {
    if k == 0 then 0 else ParentSums(nodes, k - 1, m) + ChildSum(nodes, k - 1, m)
  }

  lemma {:induction false} ParentSumsStep(nodes: seq<Node>, k: nat, m: nat)
    requires m < |nodes|
    ensures ParentSums(nodes, k, m + 1)
         == ParentSums(nodes, k, m) + (if 0 <= nodes[m].parent < k then nodes[m].count else 0)
  {
    if k > 0 {
      ParentSumsStep(nodes, k - 1, m);
    }
  }

  lemma {:induction false} ParentSumsNone(nodes: seq<Node>, k: nat)
    ensures ParentSums(nodes, k, 0) == 0
  {
    if k > 0 {
      ParentSumsNone(nodes, k - 1);
    }
  }

  /** Every node is counted once among its parent's children (or the top level's). */
  lemma {:induction false} DoubleCount(nodes: seq<Node>, m: nat)
    requires Forest(nodes) && m <= |nodes|
    ensures ChildSum(nodes, -1, m) + ParentSums(nodes, |nodes|, m) == CountSum(nodes, m)
  {
    if m > 0 {
      DoubleCount(nodes, m - 1);
      ParentSumsStep(nodes, |nodes|, m - 1);
      assert -1 <= nodes[m - 1].parent < m - 1;
    } else {
      ParentSumsNone(nodes, |nodes|);
    }
  }

  lemma {:induction false} ClosedSums(nodes: seq<Node>, own: seq<int>, countAll: int, k: nat)
    requires Closed(nodes, own, countAll) && k <= |nodes|
    ensures CountSum(nodes, k) == SumTo(own, k) + ParentSums(nodes, k, |nodes|)
  {
    if k > 0 {
      ClosedSums(nodes, own, countAll, k - 1);
      assert ClosedAt(nodes, own, k - 1);
    }
  }

  /** In a closed forest the top level holds all the photos credited anywhere. */
  lemma ClosedTotal(nodes: seq<Node>, own: seq<int>, countAll: int)
    requires Forest(nodes) && Closed(nodes, own, countAll)
    ensures countAll == Sum(own)
  {
    DoubleCount(nodes, |nodes|);
    ClosedSums(nodes, own, countAll, |nodes|);
  }

  /** `Count` after `UpdateFolderTree` is the sum of the photo counts of all absolute rows. */
  lemma CountIsTotal(rows: seq<Row>)
    requires AllParsed(rows)
    ensures Update(rows).countAll == RowTotal(rows)
  {
    RollUp(rows);
    FoldKeeps(rows);
    ClosedTotal(Update(rows).nodes, Fold(rows).own, Update(rows).countAll);
  }

  // ---------------------------------------------------------------- the folders in the tree

  /** A node keeps its folder path while the store only grows after it and keeps its links. */
  lemma {:induction false} PathNamesKept(a: seq<Node>, b: seq<Node>, x: int)
    requires KeepsOld(a, b) && x < |b|
    ensures PathNames(a, x) == PathNames(b, x)
    decreases x + 1
  {
    if ValidIter(b, x) {
      assert ParentOf(a, x) == ParentOf(b, x);
      PathNamesKept(a, b, ParentOf(b, x));
    }
  }

  /**
   * The append loop adds the missing tail of the row's folder path: the
   * `m`-th new node is the folder `segs[..j + m + 1]`, each under the one
   * before, and the nodes before them are kept.
   */
  lemma {:induction false} AppendedPaths(w: Walk, segs: seq<string>, j: nat, count: int, root: string)
    requires j <= |segs| && -1 <= w.parentIter < |w.nodes| && PathNames(w.nodes, w.parentIter) == segs[..j]
    ensures var r := Appended(w, segs, j, count, root);
            KeepsOld(r.nodes, w.nodes)
            && forall n :: |w.nodes| <= n < |r.nodes| ==> PathNames(r.nodes, n) == segs[..j + 1 + n - |w.nodes|]
    decreases |segs| - j
  {
    if j < |segs| {
      var top := |w.nodes|;
      var c := AppendedNode(w.nodes, w.parentIter, segs[j], NewCount(segs, j, count), root);
      var nodes := w.nodes + [c];
      assert ParentOf(nodes, top) == w.parentIter;
      PathNamesAppend(w.nodes, c, w.parentIter);
      assert PathNames(nodes, top) == segs[..j] + [segs[j]];
      assert segs[..j] + [segs[j]] == segs[..j + 1];
      var r := Appended(w, segs, j, count, root);
      assert r == Appended(Walk(nodes, top, top, w.lastCount, w.countAll), segs, j + 1, count, root);
      AppendedPaths(Walk(nodes, top, top, w.lastCount, w.countAll), segs, j + 1, count, root);
      PathNamesKept(r.nodes, nodes, top);
      KeepsOldTrans(r.nodes, nodes, w.nodes);
    }
  }

  /**
   * The append loop node by node: the store before it is kept as it is, and
   * the `m`-th new node is segment `j + m` with its count (the row's on the
   * last one, 0 above), appended under the node before it, the first one
   * under `parent_iter` (at the top, with the row's root URI, when that is
   * not valid).
   */
  lemma {:induction false} AppendedChain(w: Walk, segs: seq<string>, j: nat, count: int, root: string)
    requires j <= |segs|
    ensures var r := Appended(w, segs, j, count, root);
            var top := |w.nodes|;
            r.nodes[..top] == w.nodes
            && forall n :: top <= n < |r.nodes| ==>
                 r.nodes[n] == AppendedNode(r.nodes[..n], if n == top then w.parentIter else n - 1,
                                            segs[j + n - top], NewCount(segs, j + n - top, count), root)
    decreases |segs| - j
  {
    if j < |segs| {
      var top := |w.nodes|;
      var c := AppendedNode(w.nodes, w.parentIter, segs[j], NewCount(segs, j, count), root);
      var nodes := w.nodes + [c];
      AppendedChain(Walk(nodes, top, top, w.lastCount, w.countAll), segs, j + 1, count, root);
      var r := Appended(w, segs, j, count, root);
      assert r.nodes[..top + 1] == nodes;
      assert r.nodes[..top] == nodes[..top] == w.nodes;
    }
  }

  /** The nodes a row adds lie on that row's folder path. */
  lemma RowStepPaths(b: Build, row: Row)
    requires Inv(b) && Parsed(row)
    ensures var r := RowStep(b, row);
            forall n :: |b.nodes| <= n < |r.nodes| ==> row.absolute && PathNames(r.nodes, n) <= Normalize(row)
  {
    if row.absolute && !FolderPresent(b, row) {
      var segs := Normalize(row);
      SteppedBackForKeeps(b, row);
      AppendedPaths(SteppedBackFor(b, row), segs, CommonPrefix(segs, b.last), row.count, row.root);
    }
  }

  /** Some node of the store has folder path `path`. */
  predicate HasFolder(nodes: seq<Node>, path: seq<string>) {
    exists n :: 0 <= n < |nodes| && PathNames(nodes, n) == path
  }

  /** `path` leads to the folder of some absolute row. */
  predicate OnRowPath(rows: seq<Row>, path: seq<string>)
    requires AllParsed(rows)
  {
    exists k :: 0 <= k < |rows| && rows[k].absolute && path <= Normalize(rows[k])
  }

  lemma HasFolderKept(a: seq<Node>, b: seq<Node>, path: seq<string>)
    requires KeepsOld(a, b) && HasFolder(b, path)
    ensures HasFolder(a, path)
  {
    var n :| 0 <= n < |b| && PathNames(b, n) == path;
    PathNamesKept(a, b, n);
  }

  /** Every absolute row's folder is a node of the store. */
  lemma {:induction false} FoldRowFolders(rows: seq<Row>)
    requires AllParsed(rows)
    ensures forall k :: 0 <= k < |rows| && rows[k].absolute ==> HasFolder(Fold(rows).nodes, Normalize(rows[k]))
  {
    if |rows| > 0 {
      var prefix := rows[..|rows| - 1];
      var row := rows[|rows| - 1];
      AllParsedPrefix(rows, |rows| - 1);
      FoldRowFolders(prefix);
      FoldKeeps(prefix);
      var b := Fold(prefix);
      var r := Fold(rows);
      RowStepKeeps(b, row);
      forall k | 0 <= k < |rows| && rows[k].absolute
        ensures HasFolder(r.nodes, Normalize(rows[k]))
      {
        if k < |prefix| {
          assert prefix[k] == rows[k];
          HasFolderKept(r.nodes, b.nodes, Normalize(rows[k]));
        } else {
          PathNamesEmpty(r.nodes, r.iter);
          assert 0 <= r.iter < |r.nodes|;
        }
      }
    }
  }

  /** Every node of the store is a folder on the path to some absolute row's folder. */
  lemma {:induction false} FoldNodesOnRows(rows: seq<Row>)
    requires AllParsed(rows)
    ensures forall n :: 0 <= n < |Fold(rows).nodes| ==> OnRowPath(rows, PathNames(Fold(rows).nodes, n))
  {
    if |rows| > 0 {
      var prefix := rows[..|rows| - 1];
      var row := rows[|rows| - 1];
      AllParsedPrefix(rows, |rows| - 1);
      FoldNodesOnRows(prefix);
      FoldKeeps(prefix);
      var b := Fold(prefix);
      var r := Fold(rows);
      RowStepKeeps(b, row);
      RowStepPaths(b, row);
      NodesOnRowsStep(rows, b.nodes, r.nodes);
    }
  }

  /** The nodes a row keeps lie on the earlier rows' paths, and those it adds on its own. */
  lemma NodesOnRowsStep(rows: seq<Row>, prior: seq<Node>, nodes: seq<Node>)
    requires AllParsed(rows) && |rows| > 0 && AllParsed(rows[..|rows| - 1])
    requires KeepsOld(nodes, prior)
    requires forall n :: 0 <= n < |prior| ==> OnRowPath(rows[..|rows| - 1], PathNames(prior, n))
    requires forall n :: |prior| <= n < |nodes| ==>
               rows[|rows| - 1].absolute && PathNames(nodes, n) <= Normalize(rows[|rows| - 1])
    ensures forall n :: 0 <= n < |nodes| ==> OnRowPath(rows, PathNames(nodes, n))
  {
    var prefix := rows[..|rows| - 1];
    forall n | 0 <= n < |nodes|
      ensures OnRowPath(rows, PathNames(nodes, n))
    {
      if n < |prior| {
        PathNamesKept(nodes, prior, n);
        var k :| 0 <= k < |prefix| && prefix[k].absolute && PathNames(prior, n) <= Normalize(prefix[k]);
        assert rows[k] == prefix[k];
      }
    }
  }

  /**
   * After `UpdateFolderTree` the tree shows the folder of every absolute
   * row, and no folder that is not on the path to one of them.
   */
  lemma TreeFolders(rows: seq<Row>)
    requires AllParsed(rows)
    ensures forall k :: 0 <= k < |rows| && rows[k].absolute ==> HasFolder(Update(rows).nodes, Normalize(rows[k]))
    ensures forall n :: 0 <= n < |Update(rows).nodes| ==> OnRowPath(rows, PathNames(Update(rows).nodes, n))
  {
    FoldRowFolders(rows);
    FoldNodesOnRows(rows);
    RollUp(rows);
    var t := Update(rows).nodes;
    var b := Fold(rows).nodes;
    forall n | 0 <= n < |t|
      ensures PathNames(t, n) == PathNames(b, n)
    {
      PathNamesLinks(t, b, n);
    }
    forall k | 0 <= k < |rows| && rows[k].absolute
      ensures HasFolder(t, Normalize(rows[k]))
    {
      var n :| 0 <= n < |b| && PathNames(b, n) == Normalize(rows[k]);
      assert PathNames(t, n) == Normalize(rows[k]);
    }
  }

  // ---------------------------------------------------------------- the loop as written

  /** No row finds its folder already reached by the step-back, as the loop is written. */
  predicate NeverRevisits(rows: seq<Row>)
    requires AllParsed(rows)
  {
    |rows| == 0
    || (AllParsedPrefix(rows, |rows| - 1);
        NeverRevisits(rows[..|rows| - 1])
        && !FolderPresent(FoldAsWritten(rows[..|rows| - 1]), rows[|rows| - 1]))
  }

  /** Where no row revisits a folder, the loop as written and the corrected one build the same tree. */
  lemma {:induction false} AsWrittenAgrees(rows: seq<Row>)
    requires AllParsed(rows) && NeverRevisits(rows)
    ensures FoldAsWritten(rows) == Fold(rows) && UpdateAsWritten(rows) == Update(rows)
  {
    if |rows| > 0 {
      AllParsedPrefix(rows, |rows| - 1);
      AsWrittenAgrees(rows[..|rows| - 1]);
    }
  }

  /** Three rows in the query's descending order: the folder `a/b/`, its ancestor `a/`, then `0/`. */
  function RevisitRows(): seq<Row> {
    [Row(true, "file", ["/", "a/", "b/"], "file:///", 1),
     Row(true, "file", ["/", "a/"], "file:///", 2),
     Row(true, "file", ["/", "0/"], "file:///", 3)]
  }

  lemma RevisitRowsSegments()
    ensures AllParsed(RevisitRows())
    ensures Normalize(RevisitRows()[0]) == ["file", "a", "b"]
    ensures Normalize(RevisitRows()[1]) == ["file", "a"]
    ensures Normalize(RevisitRows()[2]) == ["file", "0"]
  {
    assert TrimEnd("file") == "file";
    assert TrimEnd("a/") == "a" by { assert "a/"[..1] == "a"; }
    assert TrimEnd("b/") == "b" by { assert "b/"[..1] == "b"; }
    assert TrimEnd("0/") == "0" by { assert "0/"[..1] == "0"; }
  }

  /** The first row builds its whole path: `file`, `a`, `b`, with the row's photo on `b`. */
  lemma RevisitFirstRow()
    ensures AllParsed(RevisitRows()[..1])
    ensures Fold(RevisitRows()[..1]) == FoldAsWritten(RevisitRows()[..1])
    ensures Fold(RevisitRows()[..1])
         == Build([Node("file", 0, -1, "file:///"), Node("a", 0, 0, "file:///a/"), Node("b", 1, 1, "file:///a/b/")],
                  [0, 0, 1], 2, ["file", "a", "b"], 1, 0)
  {
    RevisitRowsSegments();
    var rows := RevisitRows()[..1];
    assert rows[..0] == [];
    var row := RevisitRows()[0];
    assert CommonPrefix(["file", "a", "b"], []) == 0;
    assert !FolderPresent(Cleared, row);
    assert "file:///" + "a" + "/" == "file:///a/";
    assert "file:///a/" + "b" + "/" == "file:///a/b/";
  }

  /** The second row as the loop is written: its folder `a` is an ancestor of `b`, nothing is appended and `iter` stays on `b`. */
  lemma RevisitSecondRowAsWritten()
    ensures AllParsed(RevisitRows()[..2])
    ensures FoldAsWritten(RevisitRows()[..2])
         == Build([Node("file", 0, -1, "file:///"), Node("a", 1, 0, "file:///a/"), Node("b", 1, 1, "file:///a/b/")],
                  [0, 0, 1], 2, ["file", "a"], 2, 0)
  {
    RevisitFirstRow();
    assert RevisitRows()[..2][..1] == RevisitRows()[..1];
    RevisitSecondStepAsWritten();
  }

  lemma RevisitSecondStepAsWritten()
    ensures AllParsed(RevisitRows())
    ensures RowStepAsWritten(
              Build([Node("file", 0, -1, "file:///"), Node("a", 0, 0, "file:///a/"), Node("b", 1, 1, "file:///a/b/")],
                    [0, 0, 1], 2, ["file", "a", "b"], 1, 0),
              RevisitRows()[1])
         == Build([Node("file", 0, -1, "file:///"), Node("a", 1, 0, "file:///a/"), Node("b", 1, 1, "file:///a/b/")],
                  [0, 0, 1], 2, ["file", "a"], 2, 0)
  {
    RevisitRowsSegments();
    CommonPrefixUnique(["file", "a"], ["file", "a", "b"], 2);
  }

  /** The second row corrected: `a` takes the row's photos and becomes `iter`. */
  lemma RevisitSecondRow()
    ensures AllParsed(RevisitRows()[..2])
    ensures Fold(RevisitRows()[..2])
         == Build([Node("file", 0, -1, "file:///"), Node("a", 3, 0, "file:///a/"), Node("b", 1, 1, "file:///a/b/")],
                  [0, 2, 1], 1, ["file", "a"], 3, 0)
  {
    RevisitFirstRow();
    assert RevisitRows()[..2][..1] == RevisitRows()[..1];
    RevisitSecondStep();
  }

  lemma RevisitSecondStep()
    ensures AllParsed(RevisitRows())
    ensures RowStep(
              Build([Node("file", 0, -1, "file:///"), Node("a", 0, 0, "file:///a/"), Node("b", 1, 1, "file:///a/b/")],
                    [0, 0, 1], 2, ["file", "a", "b"], 1, 0),
              RevisitRows()[1])
         == Build([Node("file", 0, -1, "file:///"), Node("a", 3, 0, "file:///a/"), Node("b", 1, 1, "file:///a/b/")],
                  [0, 2, 1], 1, ["file", "a"], 3, 0)
  {
    RevisitRowsSegments();
    CommonPrefixUnique(["file", "a"], ["file", "a", "b"], 2);
  }

  /** The third row as written: the step-back stops at `a`, so `0` is appended under it. */
  lemma RevisitThirdRowAsWritten()
    ensures AllParsed(RevisitRows())
    ensures FoldAsWritten(RevisitRows())
         == Build([Node("file", 0, -1, "file:///"), Node("a", 3, 0, "file:///a/"), Node("b", 1, 1, "file:///a/b/"),
                   Node("0", 3, 1, "file:///a/0/")], [0, 0, 1, 3], 3, ["file", "0"], 3, 0)
  {
    RevisitSecondRowAsWritten();
    assert RevisitRows()[..2] == RevisitRows()[..|RevisitRows()| - 1];
    RevisitThirdStepAsWritten();
  }

  lemma RevisitThirdStepAsWritten()
    ensures AllParsed(RevisitRows())
    ensures RowStepAsWritten(
              Build([Node("file", 0, -1, "file:///"), Node("a", 1, 0, "file:///a/"), Node("b", 1, 1, "file:///a/b/")],
                    [0, 0, 1], 2, ["file", "a"], 2, 0),
              RevisitRows()[2])
         == Build([Node("file", 0, -1, "file:///"), Node("a", 3, 0, "file:///a/"), Node("b", 1, 1, "file:///a/b/"),
                   Node("0", 3, 1, "file:///a/0/")], [0, 0, 1, 3], 3, ["file", "0"], 3, 0)
  {
    RevisitRowsSegments();
    CommonPrefixUnique(["file", "0"], ["file", "a"], 1);
    assert "file:///a/" + "0" + "/" == "file:///a/0/";
  }

  /** The third row corrected: the step-back reaches `file`, and `0` is appended under it. */
  lemma RevisitThirdRow()
    ensures AllParsed(RevisitRows())
    ensures Fold(RevisitRows())
         == Build([Node("file", 3, -1, "file:///"), Node("a", 3, 0, "file:///a/"), Node("b", 1, 1, "file:///a/b/"),
                   Node("0", 3, 0, "file:///0/")], [0, 2, 1, 3], 3, ["file", "0"], 3, 0)
  {
    RevisitSecondRow();
    assert RevisitRows()[..2] == RevisitRows()[..|RevisitRows()| - 1];
    RevisitThirdStep();
  }

  lemma RevisitThirdStep()
    ensures AllParsed(RevisitRows())
    ensures RowStep(
              Build([Node("file", 0, -1, "file:///"), Node("a", 3, 0, "file:///a/"), Node("b", 1, 1, "file:///a/b/")],
                    [0, 2, 1], 1, ["file", "a"], 3, 0),
              RevisitRows()[2])
         == Build([Node("file", 3, -1, "file:///"), Node("a", 3, 0, "file:///a/"), Node("b", 1, 1, "file:///a/b/"),
                   Node("0", 3, 0, "file:///0/")], [0, 2, 1, 3], 3, ["file", "0"], 3, 0)
  {
    RevisitRowsSegments();
    CommonPrefixUnique(["file", "0"], ["file", "a"], 1);
    assert "file:///" + "0" + "/" == "file:///0/";
  }

  /** The final walk from `0` as written: `a` and then `file` take the running count. */
  lemma RevisitFinishAsWritten()
    ensures AllParsed(RevisitRows())
    ensures UpdateAsWritten(RevisitRows())
         == Tree([Node("file", 6, -1, "file:///"), Node("a", 6, 0, "file:///a/"), Node("b", 1, 1, "file:///a/b/"),
                  Node("0", 3, 1, "file:///a/0/")], 6)
  {
    RevisitThirdRowAsWritten();
    RevisitWalkUpAsWritten();
  }

  lemma RevisitWalkUpAsWritten()
    ensures WalkedUp(Walk([Node("file", 0, -1, "file:///"), Node("a", 3, 0, "file:///a/"), Node("b", 1, 1, "file:///a/b/"),
                           Node("0", 3, 1, "file:///a/0/")], 3, 3, 3, 0))
         == Walk([Node("file", 6, -1, "file:///"), Node("a", 6, 0, "file:///a/"), Node("b", 1, 1, "file:///a/b/"),
                  Node("0", 3, 1, "file:///a/0/")], 0, 3, 6, 0)
  {
    var nodes := [Node("file", 0, -1, "file:///"), Node("a", 3, 0, "file:///a/"), Node("b", 1, 1, "file:///a/b/"),
                  Node("0", 3, 1, "file:///a/0/")];
    var up := nodes[1 := Node("a", 6, 0, "file:///a/")];
    var top := up[0 := Node("file", 6, -1, "file:///")];
    assert WalkedUp(Walk(nodes, 3, 3, 3, 0)) == WalkedUp(Walk(up, 1, 3, 6, 0));
    assert WalkedUp(Walk(up, 1, 3, 6, 0)) == WalkedUp(Walk(top, 0, 3, 6, 0));
    assert WalkedUp(Walk(top, 0, 3, 6, 0)) == Walk(top, 0, 3, 6, 0);
  }

  /** The final walk from `0` corrected: only `file` takes the running count. */
  lemma RevisitFinish()
    ensures AllParsed(RevisitRows())
    ensures Update(RevisitRows())
         == Tree([Node("file", 6, -1, "file:///"), Node("a", 3, 0, "file:///a/"), Node("b", 1, 1, "file:///a/b/"),
                  Node("0", 3, 0, "file:///0/")], 6)
  {
    RevisitThirdRow();
    RevisitWalkUp();
  }

  lemma RevisitWalkUp()
    ensures WalkedUp(Walk([Node("file", 3, -1, "file:///"), Node("a", 3, 0, "file:///a/"), Node("b", 1, 1, "file:///a/b/"),
                           Node("0", 3, 0, "file:///0/")], 3, 3, 3, 0))
         == Walk([Node("file", 6, -1, "file:///"), Node("a", 3, 0, "file:///a/"), Node("b", 1, 1, "file:///a/b/"),
                  Node("0", 3, 0, "file:///0/")], 0, 3, 6, 0)
  {
    var nodes := [Node("file", 3, -1, "file:///"), Node("a", 3, 0, "file:///a/"), Node("b", 1, 1, "file:///a/b/"),
                  Node("0", 3, 0, "file:///0/")];
    var top := nodes[0 := Node("file", 6, -1, "file:///")];
    assert WalkedUp(Walk(nodes, 3, 3, 3, 0)) == WalkedUp(Walk(top, 0, 3, 6, 0));
    assert WalkedUp(Walk(top, 0, 3, 6, 0)) == Walk(top, 0, 3, 6, 0);
  }

  /**
   * After the three rows, as written, `0` sits under `a` (URI
   * `file:///a/0/`) and `a`'s count includes `0`'s photos; corrected, `0` is
   * a child of `file` beside `a`. The total is six photos either way.
   */
  lemma RevisitedFolderMisplacesNext()
    ensures AllParsed(RevisitRows())
    ensures |UpdateAsWritten(RevisitRows()).nodes| == |Update(RevisitRows()).nodes| == 4
    ensures UpdateAsWritten(RevisitRows()).nodes[3].parent == 1
    ensures UpdateAsWritten(RevisitRows()).nodes[3].uri == "file:///a/0/"
    ensures UpdateAsWritten(RevisitRows()).nodes[1].count == 6
    ensures Update(RevisitRows()).nodes[3].parent == 0
    ensures Update(RevisitRows()).nodes[3].uri == "file:///0/"
    ensures Update(RevisitRows()).nodes[1].count == 3
    ensures UpdateAsWritten(RevisitRows()).countAll == Update(RevisitRows()).countAll == 6
  {
    RevisitFinishAsWritten();
    RevisitFinish();
  }
}
