/**
 * The photo browser's folder tree: the rows of the folder query (one per
 * distinct base URI, with its photo count, in descending URI order) become a
 * forest of folder nodes, each holding a name, a photo count and a URI.
 *
 * The tree store is a sequence of nodes in insertion order, each naming its
 * parent by index (-1 for a top-level node); an iterator inside the builder
 * is a node index, -1 standing for an invalid iterator. The functions below
 * follow the builder's loops step for step; the class at the end runs the
 * same loops imperatively and is proved to reach the same tree.
 */
module FolderTree {
  import opened Wrappers

  /**
   * One query row, its base URI already parsed: whether it is absolute, its
   * scheme, its `Segments` (each directory segment ends in '/', the first is
   * "/"), the base URI resolved against "/", and the photo count.
   */
  datatype Row = Row(absolute: bool, scheme: string, segments: seq<string>, root: string, count: int)

  /** A parsed absolute URI has at least its root segment. */
  predicate Parsed(r: Row) {
    r.absolute ==> |r.segments| > 0
  }

  predicate AllParsed(rows: seq<Row>) {
    forall k :: 0 <= k < |rows| ==> Parsed(rows[k])
  }

  /** A tree-store row: the folder name, its photo count, its parent's index (or -1) and its URI. */
  datatype Node = Node(name: string, count: int, parent: int, uri: string)

  // ---------------------------------------------------------------- segments

  predicate Trimmed(s: string) {
    |s| == 0 || s[|s| - 1] != '/'
  }

  /** `TrimEnd('/')`: the string without its trailing slashes. */
  function TrimEnd(s: string): (r: string)
    decreases |s|
  {
    if |s| > 0 && s[|s| - 1] == '/' then TrimEnd(s[..|s| - 1]) else s
  }

  /** `TrimEnd` keeps a prefix without a trailing slash, and what it drops are slashes only. */
  lemma {:induction false} TrimEndDropsSlashes(s: string)
    ensures |TrimEnd(s)| <= |s| && s[..|TrimEnd(s)|] == TrimEnd(s)
    ensures Trimmed(TrimEnd(s))
    ensures forall k :: |TrimEnd(s)| <= k < |s| ==> s[k] == '/'
    decreases |s|
  {
    if |s| > 0 && s[|s| - 1] == '/' {
      TrimEndDropsSlashes(s[..|s| - 1]);
    }
  }

  /** Trimming twice is trimming once. */
  lemma TrimEndIdempotent(s: string)
    ensures TrimEnd(TrimEnd(s)) == TrimEnd(s)
  {
    TrimEndDropsSlashes(s);
  }

  /** The segments as the builder compares and inserts them: the scheme first, every segment trimmed. */
  function Normalize(r: Row): (segs: seq<string>)
    requires r.absolute && |r.segments| > 0
    ensures |segs| == |r.segments|
    ensures segs[0] == TrimEnd(r.scheme)
    ensures forall k :: 1 <= k < |segs| ==> segs[k] == TrimEnd(r.segments[k])
  {
    seq(|r.segments|, k requires 0 <= k < |r.segments| => TrimEnd(if k == 0 then r.scheme else r.segments[k]))
  }

  /** The first `n` elements of `a` and `b` agree. */
  predicate SamePrefix(a: seq<string>, b: seq<string>, n: int) {
    0 <= n <= |a| && n <= |b| && forall k :: 0 <= k < n ==> a[k] == b[k]
  }

  /** Where the comparison loop stops: the length of the longest common prefix. */
  function CommonPrefix(a: seq<string>, b: seq<string>): (n: nat)
    ensures SamePrefix(a, b, n)
    ensures n < |a| && n < |b| ==> a[n] != b[n]
  {
    if |a| == 0 || |b| == 0 || a[0] != b[0] then 0
    else CommonPrefix(a[1..], b[1..]) + 1
  }

  /** Any common prefix after which the sequences differ or one ends is the longest one. */
  lemma {:induction false} CommonPrefixUnique(a: seq<string>, b: seq<string>, m: nat)
    requires SamePrefix(a, b, m)
    requires m == |a| || m == |b| || a[m] != b[m]
    ensures m == CommonPrefix(a, b)
    decreases m
  {
    if m > 0 {
      assert a[0] == b[0];
      CommonPrefixUnique(a[1..], b[1..], m - 1);
    }
  }

  // ---------------------------------------------------------------- the store's links

  /** Every node's parent was inserted before it. */
  predicate Forest(nodes: seq<Node>) {
    forall n :: 0 <= n < |nodes| ==> -1 <= nodes[n].parent < n
  }

  /** `IterIsValid`: an index that names a node. */
  predicate ValidIter(nodes: seq<Node>, x: int) {
    0 <= x < |nodes|
  }

  /**
   * `IterParent`: the parent of a valid node, -1 for a top-level node or an
   * invalid iterator. (A link that does not point to an earlier node never
   * occurs in a built store, see `Forest`; it is read as top-level.)
   */
  function ParentOf(nodes: seq<Node>, x: int): (p: int)
    ensures -1 <= p && (x >= 0 ==> p < x) && p < |nodes|
    ensures x < 0 ==> p == -1
    ensures Forest(nodes) && ValidIter(nodes, x) ==> p == nodes[x].parent
  {
    if ValidIter(nodes, x) && -1 <= nodes[x].parent < x then nodes[x].parent else -1
  }

  /** `SetValue (iter, 1, v)`: the photo count of one node. */
  function SetCount(nodes: seq<Node>, p: int, v: int): (r: seq<Node>)
    requires ValidIter(nodes, p)
    ensures |r| == |nodes| && r[p].count == v
  {
    nodes[p := nodes[p].(count := v)]
  }

  /** The folder names from the top-level node down to `x`. */
  function PathNames(nodes: seq<Node>, x: int): (r: seq<string>)
    decreases x + 1
  {
    if !ValidIter(nodes, x) then [] else PathNames(nodes, ParentOf(nodes, x)) + [nodes[x].name]
  }

  // ---------------------------------------------------------------- the builder's loops

  /** The builder's walking state: the store, `iter`, `parent_iter`, `last_count` and `count_all`. */
  datatype Walk = Walk(nodes: seq<Node>, iter: int, parentIter: int, lastCount: int, countAll: int)

  /**
   * The step-back loop: `steps` times, `iter` moves to `parent_iter` and
   * `parent_iter` to its parent, whose count grows by `last_count` and
   * becomes the new `last_count`; past a top-level node `last_count` goes to
   * `count_all` instead.
   */
  function SteppedBack(w: Walk, steps: nat): (r: Walk)
    ensures |r.nodes| == |w.nodes|
    decreases steps
  {
    if steps == 0 then w
    else
      var iter := w.parentIter;
      var p := ParentOf(w.nodes, iter);
      if p >= 0 then
        var lc := w.lastCount + w.nodes[p].count;
        SteppedBack(Walk(SetCount(w.nodes, p, lc), iter, p, lc, w.countAll), steps - 1)
      else
        SteppedBack(Walk(w.nodes, iter, -1, w.lastCount, w.countAll + w.lastCount), steps - 1)
  }

  /** The count a node appended for segment `i` gets: the row's count on the last one, 0 above it. */
  function NewCount(segs: seq<string>, i: int, count: int): int {
    if i == |segs| - 1 then count else 0
  }

  /** The counts of the nodes appended for segments `i` onwards. */
  function NewCounts(segs: seq<string>, i: nat, count: int): (r: seq<int>)
    requires i <= |segs|
    ensures |r| == |segs| - i
  {
    seq(|segs| - i, k requires 0 <= k < |segs| - i => NewCount(segs, i + k, count))
  }

  /** `AppendValues`: the node for one segment, under `parent_iter` when it is valid, else at the top. */
  function AppendedNode(nodes: seq<Node>, parentIter: int, segment: string, count: int, root: string): Node {
    if ValidIter(nodes, parentIter) then
      Node(segment, count, parentIter, nodes[parentIter].uri + segment + "/")
    else
      Node(segment, count, -1, root)
  }

  /**
   * The append loop: for each remaining segment a node is appended and
   * becomes `iter` and the new `parent_iter`.
   */
  function Appended(w: Walk, segs: seq<string>, i: nat, count: int, root: string): (r: Walk)
    requires i <= |segs|
    ensures |r.nodes| == |w.nodes| + |segs| - i
    ensures i == |segs| ==> r == w
    ensures i < |segs| ==> r.iter == |r.nodes| - 1 && r.parentIter == r.iter
    ensures r.lastCount == w.lastCount && r.countAll == w.countAll
    decreases |segs| - i
  {
    if i == |segs| then w
    else
      var n := |w.nodes|;
      var nodes := w.nodes + [AppendedNode(w.nodes, w.parentIter, segs[i], NewCount(segs, i, count), root)];
      Appended(Walk(nodes, n, n, w.lastCount, w.countAll), segs, i + 1, count, root)
  }

  /** One round of the append loop. */
  lemma AppendedStep(w: Walk, segs: seq<string>, i: nat, count: int, root: string)
    requires i < |segs|
    ensures var n := |w.nodes|;
            var node := AppendedNode(w.nodes, w.parentIter, segs[i], NewCount(segs, i, count), root);
            Appended(w, segs, i, count, root)
            == Appended(Walk(w.nodes + [node], n, n, w.lastCount, w.countAll), segs, i + 1, count, root)
  {
  }

  /** The final walk up from the last inserted node: every ancestor's count grows by the running count. */
  function WalkedUp(w: Walk): (r: Walk)
    ensures |r.nodes| == |w.nodes| && r.countAll == w.countAll
    decreases w.iter + 1
  {
    var p := ParentOf(w.nodes, w.iter);
    if p >= 0 then
      var lc := w.lastCount + w.nodes[p].count;
      WalkedUp(Walk(SetCount(w.nodes, p, lc), p, w.parentIter, lc, w.countAll))
    else w
  }

  // ---------------------------------------------------------------- rows

  /**
   * The builder between two rows: the store, the photo count each node holds
   * for its own folder (a proof device), `iter`, `last_segments`,
   * `last_count` and `count_all`.
   */
  datatype Build = Build(nodes: seq<Node>, own: seq<int>, iter: int, last: seq<string>, lastCount: int, countAll: int)

  /** After `Clear ()` and the initialisations before the row loop. */
  const Cleared: Build := Build([], [], -1, [], 0, 0)

  /** The walk state after the comparison and step-back loops of an absolute row. */
  function SteppedBackFor(b: Build, row: Row): (w: Walk)
    requires row.absolute && |row.segments| > 0
    ensures |w.nodes| == |b.nodes|
  {
    var i := CommonPrefix(Normalize(row), b.last);
    SteppedBack(Walk(b.nodes, b.iter, b.iter, b.lastCount, b.countAll), |b.last| - i)
  }

  /** One row as the loop body is written: relative rows are skipped, absolute ones appended. */
  function RowStepAsWritten(b: Build, row: Row): (r: Build)
    requires |b.own| == |b.nodes| && Parsed(row)
    ensures |r.own| == |r.nodes|
  {
    if !row.absolute then b
    else
      var segs := Normalize(row);
      var i := CommonPrefix(segs, b.last);
      var a := Appended(SteppedBackFor(b, row), segs, i, row.count, row.root);
      Build(a.nodes, b.own + NewCounts(segs, i, row.count), a.iter, segs, row.count, a.countAll)
  }

  /** Whether the row's folder is the one the step-back reached, so that nothing is appended. */
  predicate FolderPresent(b: Build, row: Row)
    requires Parsed(row)
  {
    row.absolute
    && CommonPrefix(Normalize(row), b.last) == |row.segments|
    && ValidIter(b.nodes, SteppedBackFor(b, row).parentIter)
  }

  /**
   * One row with the folder-already-present case corrected: the row's photos
   * join that folder's count, and the folder becomes `iter`.
   */
  function RowStep(b: Build, row: Row): (r: Build)
    requires |b.own| == |b.nodes| && Parsed(row)
    ensures |r.own| == |r.nodes|
  {
    if FolderPresent(b, row) then
      var w := SteppedBackFor(b, row);
      var f := w.parentIter;
      var c := w.nodes[f].count + row.count;
      Build(SetCount(w.nodes, f, c), b.own[f := b.own[f] + row.count], f, Normalize(row), c, w.countAll)
    else
      RowStepAsWritten(b, row)
  }

  function Fold(rows: seq<Row>): (b: Build)
    requires AllParsed(rows)
    ensures |b.own| == |b.nodes|
  {
    if |rows| == 0 then Cleared
    else RowStep(Fold(rows[..|rows| - 1]), rows[|rows| - 1])
  }

  function FoldAsWritten(rows: seq<Row>): (b: Build)
    requires AllParsed(rows)
    ensures |b.own| == |b.nodes|
  {
    if |rows| == 0 then Cleared
    else RowStepAsWritten(FoldAsWritten(rows[..|rows| - 1]), rows[|rows| - 1])
  }

  /** The store and `count_all` after the final walk up. */
  datatype Tree = Tree(nodes: seq<Node>, countAll: int)

  function Finish(b: Build): Tree {
    var w := WalkedUp(Walk(b.nodes, b.iter, b.iter, b.lastCount, b.countAll));
    Tree(w.nodes, w.countAll + w.lastCount)
  }

  /** `UpdateFolderTree` on the query's rows. */
  function Update(rows: seq<Row>): Tree
    requires AllParsed(rows)
  {
    Finish(Fold(rows))
  }

  function UpdateAsWritten(rows: seq<Row>): Tree
    requires AllParsed(rows)
  {
    Finish(FoldAsWritten(rows))
  }

  // ---------------------------------------------------------------- the store

  /** A tree iterator: the store's stamp when it was handed out, and a node index. */
  datatype TreeIter = TreeIter(stamp: int, index: int)

  class FolderTreeModel {
    var nodes: seq<Node>
    var countAll: int
    /** Changed by every `Clear ()`, so that iterators handed out before are no longer valid. */
    var stamp: int

    /** `FolderTreeModel ()`: the tree of the rows the query returns. */
    constructor (rows: seq<Row>)
      requires AllParsed(rows)
      ensures Tree(nodes, countAll) == Update(rows)
    {
      nodes := [];
      countAll := 0;
      stamp := 0;
      new;
      UpdateFolderTree(rows);
    }

    /** `IterIsValid`: the iterator belongs to the current contents of the store. */
    predicate IterIsValid(iter: TreeIter)
      reads this
    {
      iter.stamp == stamp && 0 <= iter.index < |nodes|
    }

    /** `GetFolderNameByIter`: the name column, or null for an invalid iterator. */
    function GetFolderNameByIter(iter: TreeIter): (r: Option<string>)
      reads this
      ensures r.Some? <==> IterIsValid(iter)
      ensures r.Some? ==> r.value == nodes[iter.index].name
    {
      if !IterIsValid(iter) then None else Some(nodes[iter.index].name)
    }

    /** `GetPhotoCountByIter`: the count column, or -1 for an invalid iterator. */
    function GetPhotoCountByIter(iter: TreeIter): (r: int)
      reads this
      ensures !IterIsValid(iter) ==> r == -1
      ensures IterIsValid(iter) ==> r == nodes[iter.index].count
    {
      if !IterIsValid(iter) then -1 else nodes[iter.index].count
    }

    /** `GetUriByIter`: the URI column, or null for an invalid iterator. */
    function GetUriByIter(iter: TreeIter): (r: Option<string>)
      reads this
      ensures r.Some? <==> IterIsValid(iter)
      ensures r.Some? ==> r.value == nodes[iter.index].uri
    {
      if !IterIsValid(iter) then None else Some(nodes[iter.index].uri)
    }

    /** `Count`: the photos of all folders together. */
    function Count(): int
      reads this
    {
      countAll
    }

    /**
     * `UpdateFolderTree`: clear the store, then insert the rows one by one,
     * reusing the part of each row's path it shares with the previous row,
     * and finally carry the last counts up to the top.
     */
    method UpdateFolderTree(rows: seq<Row>)
      requires AllParsed(rows)
      modifies this
      ensures Tree(nodes, countAll) == Update(rows)
      ensures stamp != old(stamp)
    {
      nodes := [];
      stamp := stamp + 1;
      countAll := 0;
      var iter := -1;
      var lastSegments: seq<string> := [];
      var lastCount := 0;
      ghost var own: seq<int> := [];
      var k := 0;
      while k < |rows|
        invariant 0 <= k <= |rows|
        invariant Fold(rows[..k]) == Build(nodes, own, iter, lastSegments, lastCount, countAll)
        invariant stamp == old(stamp) + 1
      {
        assert rows[..k + 1][..k] == rows[..k];
        if rows[k].absolute {
          iter, lastSegments, lastCount, own := InsertRow(rows[k], iter, lastSegments, lastCount, own);
        }
        // a relative URI is logged and skipped
        k := k + 1;
      }
      assert rows[..k] == rows;
      lastCount := WalkUp(iter, lastCount);
      countAll := countAll + lastCount;
    }

    /** The loop body for one absolute row. */
    method InsertRow(row: Row, iter: int, lastSegments: seq<string>, lastCount: int, ghost own: seq<int>)
      returns (iter': int, lastSegments': seq<string>, lastCount': int, ghost own': seq<int>)
      requires |own| == |nodes| && row.absolute && |row.segments| > 0
      modifies this
      ensures Build(nodes, own', iter', lastSegments', lastCount', countAll)
           == RowStep(Build(old(nodes), own, iter, lastSegments, lastCount, old(countAll)), row)
      ensures stamp == old(stamp)
    {
      ghost var b := Build(nodes, own, iter, lastSegments, lastCount, countAll);
      var count := row.count;
      var segments, i := FindCommonPrefix(row, lastSegments);
      var it, parentIter, lc := StepBack(iter, iter, lastCount, |lastSegments| - i);
      assert Walk(nodes, it, parentIter, lc, countAll) == SteppedBackFor(b, row);
      var appended := i < |segments|;
      segments, it, parentIter := AppendSegments(row, segments, i, it, parentIter, lc);
      if !appended && 0 <= parentIter < |nodes| {
        // the row's folder is the one stepped back to: its photos join that folder
        lastCount' := nodes[parentIter].count + count;
        nodes := SetCount(nodes, parentIter, lastCount');
        iter' := parentIter;
        own' := own[parentIter := own[parentIter] + count];
      } else {
        lastCount' := count;
        iter' := it;
        own' := own + NewCounts(segments, i, count);
      }
      lastSegments' := segments;
    }

    /**
     * The comparison loop: the scheme replaces the first segment, and segments
     * are trimmed as they are compared, up to the first one that differs from
     * the previous row's.
     */
    method FindCommonPrefix(row: Row, lastSegments: seq<string>) returns (segments: seq<string>, i: nat)
      requires row.absolute && |row.segments| > 0
      ensures i == CommonPrefix(Normalize(row), lastSegments)
      ensures |segments| == |row.segments| && SamePrefix(segments, Normalize(row), i)
      ensures forall k :: 0 <= k < |segments| ==> TrimEnd(segments[k]) == Normalize(row)[k]
    {
      ghost var norm := Normalize(row);
      segments := row.segments[0 := row.scheme];
      i := 0;
      while i < |lastSegments| && i < |segments|
        invariant i <= |lastSegments| && i <= |segments| == |norm|
        invariant SamePrefix(segments, norm, i) && SamePrefix(norm, lastSegments, i)
        invariant forall k :: 0 <= k < |segments| ==> TrimEnd(segments[k]) == norm[k]
      {
        segments := TrimSegment(norm, segments, i);
        if segments[i] != lastSegments[i] {
          CommonPrefixUnique(norm, lastSegments, i);
          return;
        }
        i := i + 1;
      }
      CommonPrefixUnique(norm, lastSegments, i);
    }

    /** `segments[i] = segments[i].TrimEnd ('/')`, one more segment in its compared form. */
    static method TrimSegment(ghost norm: seq<string>, segments: seq<string>, i: nat) returns (segments': seq<string>)
      requires i < |segments| == |norm| && SamePrefix(segments, norm, i)
      requires forall k :: 0 <= k < |segments| ==> TrimEnd(segments[k]) == norm[k]
      ensures |segments'| == |segments| && SamePrefix(segments', norm, i + 1)
      ensures forall k :: 0 <= k < |segments'| ==> TrimEnd(segments'[k]) == norm[k]
    {
      TrimEndIdempotent(segments[i]);
      segments' := segments[i := TrimEnd(segments[i])];
    }

    /** The step-back loop. */
    method StepBack(iter: int, parentIter: int, lastCount: int, steps: nat)
      returns (iter': int, parentIter': int, lastCount': int)
      modifies this
      ensures Walk(nodes, iter', parentIter', lastCount', countAll)
           == SteppedBack(Walk(old(nodes), iter, parentIter, lastCount, old(countAll)), steps)
      ensures stamp == old(stamp)
    {
      ghost var w := Walk(nodes, iter, parentIter, lastCount, countAll);
      var ns, all := nodes, countAll;
      iter', parentIter', lastCount' := iter, parentIter, lastCount;
      var j := 0;
      while j < steps
        invariant j <= steps
        invariant SteppedBack(Walk(ns, iter', parentIter', lastCount', all), steps - j) == SteppedBack(w, steps)
        modifies {}
      {
        iter' := parentIter';
        parentIter' := ParentOf(ns, iter');
        if parentIter' >= 0 {
          lastCount' := lastCount' + ns[parentIter'].count;
          ns := SetCount(ns, parentIter', lastCount');
        } else {
          all := all + lastCount';
        }
        j := j + 1;
      }
      nodes, countAll := ns, all;
    }

    /** The append loop: each remaining segment, trimmed, becomes a node under the one before. */
    method AppendSegments(row: Row, segments: seq<string>, i: nat, iter: int, parentIter: int, ghost lastCount: int)
      returns (segments': seq<string>, iter': int, parentIter': int)
      requires row.absolute && |row.segments| > 0
      requires |segments| == |row.segments| && SamePrefix(segments, Normalize(row), i)
      requires forall k :: 0 <= k < |segments| ==> TrimEnd(segments[k]) == Normalize(row)[k]
      modifies this
      ensures segments' == Normalize(row)
      ensures Walk(nodes, iter', parentIter', lastCount, countAll)
           == Appended(Walk(old(nodes), iter, parentIter, lastCount, old(countAll)), Normalize(row), i, row.count, row.root)
      ensures stamp == old(stamp)
    {
      ghost var norm := Normalize(row);
      ghost var w := Walk(nodes, iter, parentIter, lastCount, countAll);
      var ns := nodes;
      segments', iter', parentIter' := segments, iter, parentIter;
      var j := i;
      while j < |segments'|
        invariant i <= j <= |segments'| == |norm|
        invariant SamePrefix(segments', norm, j)
        invariant forall k :: 0 <= k < |segments'| ==> TrimEnd(segments'[k]) == norm[k]
        invariant Appended(Walk(ns, iter', parentIter', lastCount, w.countAll), norm, j, row.count, row.root)
               == Appended(w, norm, i, row.count, row.root)
        modifies {}
      {
        segments', ns := AppendSegment(row, norm, segments', j, ns, iter', parentIter', lastCount, w.countAll);
        iter' := |ns| - 1;
        parentIter' := iter';
        j := j + 1;
      }
      assert segments' == norm;
      assert Walk(ns, iter', parentIter', lastCount, w.countAll) == Appended(w, norm, i, row.count, row.root);
      nodes := ns;
    }

    /** One round of the append loop: trim segment `j` and append its node. */
    static method AppendSegment(row: Row, ghost norm: seq<string>, segments: seq<string>, j: nat,
                                ns: seq<Node>, ghost iter: int, parentIter: int, ghost lastCount: int, ghost countAll: int)
      returns (segments': seq<string>, ns': seq<Node>)
      requires j < |segments| == |norm| && SamePrefix(segments, norm, j)
      requires forall k :: 0 <= k < |segments| ==> TrimEnd(segments[k]) == norm[k]
      ensures |segments'| == |segments| && SamePrefix(segments', norm, j + 1)
      ensures forall k :: 0 <= k < |segments'| ==> TrimEnd(segments'[k]) == norm[k]
      ensures Appended(Walk(ns, iter, parentIter, lastCount, countAll), norm, j, row.count, row.root)
           == Appended(Walk(ns', |ns|, |ns|, lastCount, countAll), norm, j + 1, row.count, row.root)
    {
      AppendedStep(Walk(ns, iter, parentIter, lastCount, countAll), norm, j, row.count, row.root);
      segments' := TrimSegment(norm, segments, j);
      ns' := AppendNode(ns, parentIter, segments'[j], if |segments'| - 1 == j then row.count else 0, row.root);
    }

    /** `AppendValues`, under `parent_iter` when it is valid and at the top otherwise. */
    static method AppendNode(ns: seq<Node>, parentIter: int, segment: string, count: int, root: string)
      returns (ns': seq<Node>)
      ensures ns' == ns + [AppendedNode(ns, parentIter, segment, count, root)]
    {
      var node;
      if 0 <= parentIter < |ns| {
        node := Node(segment, count, parentIter, ns[parentIter].uri + segment + "/");
      } else {
        node := Node(segment, count, -1, root);
      }
      ns' := ns + [node];
    }

    /** The final walk: from the last inserted node up to the top, each ancestor takes the running count. */
    method WalkUp(iter: int, lastCount: int) returns (lastCount': int)
      modifies this
      ensures nodes == WalkedUp(Walk(old(nodes), iter, iter, lastCount, countAll)).nodes
      ensures lastCount' == WalkedUp(Walk(old(nodes), iter, iter, lastCount, countAll)).lastCount
      ensures countAll == old(countAll) && stamp == old(stamp)
    {
      ghost var w := Walk(nodes, iter, iter, lastCount, countAll);
      var ns, it := nodes, iter;
      lastCount' := lastCount;
      var p := ParentOf(ns, it);
      while p >= 0
        invariant p == ParentOf(ns, it)
        invariant WalkedUp(Walk(ns, it, iter, lastCount', w.countAll)) == WalkedUp(w)
        modifies {}
        decreases p + 1
      {
        it := p;
        lastCount' := lastCount' + ns[it].count;
        ns := SetCount(ns, it, lastCount');
        p := ParentOf(ns, it);
      }
      nodes := ns;
    }
  }
}
