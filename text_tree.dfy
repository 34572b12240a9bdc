/**
 * The tree text CRDT's document shape as the position/location code reads it:
 * a forest of runs ("nodes"), each with cached live sizes, plus a key -> node map.
 */
module TextTree {

  /** `[counter, site]`: the id of one character. A node's id names the first character of its run;
      the i-th character of the run has id `[counter + i, site]`. The same pair is the map key. */
  datatype Id = Id(counter: int, site: string)

  /** The site of the two sentinel locations. */
  const RootSite := "root"

  /** The parent key of a top-level node (`'0:root'`). */
  const RootKey := Id(0, RootSite)

  /** A run of text inserted at once. `size` is a cache that should equal the live characters of
      the node and all its descendants; nothing forces it to. */
  datatype Node = Node(id: Id, text: string, deleted: bool, children: seq<Node>, parent: Id, size: int)

  /** `roots` is the ordered top-level list; `nodeMap` is the document's `map`. */
  datatype Doc = Doc(roots: seq<Node>, nodeMap: map<Id, Node>)

  /** The live characters a node contributes itself: none once it is deleted. */
  function Own(n: Node): (r: nat)
    ensures r == 0 <==> n.deleted || n.text == []
  {
    if n.deleted then 0 else |n.text|
  }

  /** Sum of the cached sizes of the first `k` nodes of a list. */
  function SizeBefore(s: seq<Node>, k: nat): int
    requires k <= |s|
  {
    if k == 0 then 0 else SizeBefore(s, k - 1) + s[k - 1].size
  }

  /** Sum of the cached sizes of a whole list of nodes. */
  function SumSizes(s: seq<Node>): int
  {
    SizeBefore(s, |s|)
  }

  /** `length(crdt)`: the sum of the roots' sizes. When the roots' size caches are consistent this
      is the length of the visible text. */
  function Length(doc: Doc): (r: int)
    ensures (forall i :: 0 <= i < |doc.roots| ==> SizeCacheOk(doc.roots[i])) ==> r == |DocText(doc)|
  {
    SizesCountText(doc.roots, |doc.roots|);
    SumSizes(doc.roots)
  }

  /** The visible text of a subtree: its own text unless deleted, then its children's in order. */
  ghost function Text(n: Node): string
    decreases n, 0
  {
    (if n.deleted then [] else n.text) + TextsBefore(n.children, |n.children|)
  }

  /** The visible text of the first `k` nodes of a list. */
  ghost function TextsBefore(s: seq<Node>, k: nat): string
    requires k <= |s|
    decreases s, k
  {
    if k == 0 then [] else TextsBefore(s, k - 1) + Text(s[k - 1])
  }

  /** The visible text of the document. */
  ghost function DocText(doc: Doc): string
  {
    TextsBefore(doc.roots, |doc.roots|)
  }

  /** First index of `x` in `s`, or -1 (`Array.prototype.indexOf`). */
  function IndexOf(s: seq<Node>, x: Node): (r: int)
    ensures -1 <= r < |s|
    ensures r >= 0 <==> x in s
    ensures r >= 0 ==> s[r] == x && x !in s[..r]
  {
    assert s[0..] == s;
    IndexFrom(s, x, 0)
  }

  /** The search of `IndexOf` from index `i` on. */
  function IndexFrom(s: seq<Node>, x: Node, i: nat): (r: int)
    requires i <= |s|
    ensures r == -1 || i <= r < |s|
    ensures r >= 0 <==> x in s[i..]
    ensures r >= 0 ==> s[r] == x && x !in s[i..r]
    decreases |s| - i
  {
    if i == |s| then -1
    else if s[i] == x then i
    else
      var r := IndexFrom(s, x, i + 1);
      assert s[i..] == [s[i]] + s[i + 1..];
      assert r >= 0 ==> s[i..r] == [s[i]] + s[i + 1..r];
      r
  }

  /** Number of nodes in a subtree; strictly larger for a parent than for each of its children. */
  function Weight(n: Node): nat
    decreases n, 1, 0
  {
    1 + WeightFrom(n, 0)
  }

  function WeightFrom(n: Node, i: nat): nat
    requires i <= |n.children|
    decreases n, 0, |n.children| - i
  {
    if i == |n.children| then 0 else Weight(n.children[i]) + WeightFrom(n, i + 1)
  }

  /** The sizes cached in a subtree are consistent with its live text. */
  ghost predicate SizeCacheOk(n: Node)
    decreases n
  {
    && n.size == Own(n) + SumSizes(n.children)
    && forall i :: 0 <= i < |n.children| ==> SizeCacheOk(n.children[i])
  }

  /** No two nodes of `s` share an id. */
  ghost predicate DistinctIds(s: seq<Node>)
  {
    forall i, j :: 0 <= i < j < |s| ==> s[i].id != s[j].id
  }

  /** `n` carries a real (non-sentinel, non-negative) id and is the map entry of that id. */
  ghost predicate Entry(doc: Doc, n: Node)
  {
    n.id.counter >= 0 && n.id.site != RootSite && n.id in doc.nodeMap && doc.nodeMap[n.id] == n
  }

  /** A subtree is linked into the document: each node is its own map entry, carries a real
      (non-sentinel, non-negative) id, and each child names it as parent and is unique among its siblings. */
  ghost predicate Linked(doc: Doc, n: Node)
    decreases n
  {
    && Entry(doc, n)
    && DistinctIds(n.children)
    && forall i :: 0 <= i < |n.children| ==> n.children[i].parent == n.id && Linked(doc, n.children[i])
  }

  /** No node of a site starts inside the run of an earlier node of the same site. */
  ghost predicate RunsDisjoint(m: map<Id, Node>)
  {
    forall a, b :: a in m && b in m && a.site == b.site && a.counter < b.counter ==>
      a.counter + |m[a].text| <= b.counter
  }

  /** The top-level list: distinct ids, each root a consistent linked subtree under the root key. */
  ghost predicate RootsOk(doc: Doc)
  {
    && DistinctIds(doc.roots)
    && forall r :: r in doc.roots ==> r.parent == RootKey && SizeCacheOk(r) && Linked(doc, r)
  }

  /** The invariants the position/location translation relies on. */
  ghost predicate DocWF(doc: Doc)
  {
    RootsOk(doc) && RunsDisjoint(doc.nodeMap)
  }

  /* ---------- facts about sizes, weights and indexOf ---------- */

  /** Sizes of well-cached subtrees are never negative. */
  lemma {:induction false} SizeNonneg(n: Node)
    requires SizeCacheOk(n)
    ensures n.size >= 0
    decreases n
  {
    forall i | 0 <= i < |n.children| ensures n.children[i].size >= 0 {
      SizeNonneg(n.children[i]);
    }
    SizeBeforeMono(n.children, 0, |n.children|);
  }

  /** Over non-negative sizes, a longer prefix never sums to less. */
  lemma {:induction false} SizeBeforeMono(s: seq<Node>, i: nat, j: nat)
    requires i <= j <= |s|
    requires forall k :: 0 <= k < |s| ==> s[k].size >= 0
    ensures SizeBefore(s, i) <= SizeBefore(s, j)
    decreases j
  {
    if i < j {
      SizeBeforeMono(s, i, j - 1);
    }
  }

  lemma {:induction false} WeightFromBound(n: Node, i: nat, j: nat)
    requires i <= j < |n.children|
    ensures Weight(n.children[j]) <= WeightFrom(n, i)
    decreases j - i
  {
    if i < j {
      WeightFromBound(n, i + 1, j);
    }
  }

  /** A child weighs strictly less than its parent. */
  lemma ChildLighter(n: Node, j: nat)
    requires j < |n.children|
    ensures Weight(n.children[j]) < Weight(n)
  {
    WeightFromBound(n, 0, j);
  }

  /** With consistent size caches, a subtree's size is the length of its visible text. */
  lemma {:induction false} SizeCountsText(n: Node)
    ensures SizeCacheOk(n) ==> n.size == |Text(n)|
    decreases n, 0
  {
    SizesCountText(n.children, |n.children|);
  }

  /** With consistent size caches, the sizes of the first `k` nodes sum to the length of their
      visible text. */
  lemma {:induction false} SizesCountText(s: seq<Node>, k: nat)
    requires k <= |s|
    ensures (forall i :: 0 <= i < |s| ==> SizeCacheOk(s[i])) ==> SizeBefore(s, k) == |TextsBefore(s, k)|
    decreases s, k
  {
    if k > 0 {
      SizesCountText(s, k - 1);
      SizeCountsText(s[k - 1]);
    }
  }

  /** An element of a list whose ids are distinct is found at its own index. */
  lemma IndexOfDistinct(s: seq<Node>, i: nat)
    requires DistinctIds(s) && i < |s|
    ensures IndexOf(s, s[i]) == i
  {
    IndexFromDistinct(s, i, 0);
  }

  lemma {:induction false} IndexFromDistinct(s: seq<Node>, i: nat, k: nat)
    requires DistinctIds(s) && k <= i < |s|
    ensures IndexFrom(s, s[i], k) == i
    decreases i - k
  {
    if k < i {
      assert s[k].id != s[i].id;
      IndexFromDistinct(s, i, k + 1);
    }
  }
}
