/**
 * Properties of the position/location translation: the owner search, the additive structure of
 * `CharsBefore`, error-freedom under consistent size caches, the sentinels, the bounds check and
 * the round trip `PosOf(LocOf(pos)) == pos` on well-formed documents.
 */
module TextLocProofs {
  import opened Wrappers
  import opened TextTree
  import opened TextLoc

  /* ---------- nodeForLoc ---------- */

  /** The owner search returns the entry with the largest counter from `counter` down to 0 on the
      site, and nothing exactly when no such entry exists. */
  lemma {:induction false} OwnerIsLatest(m: map<Id, Node>, counter: int, site: string)
    ensures Owner(m, counter, site).None? <==> forall j :: 0 <= j <= counter ==> Id(j, site) !in m
    ensures Owner(m, counter, site).Some? ==>
              exists j :: 0 <= j <= counter && Id(j, site) in m && Owner(m, counter, site).value == m[Id(j, site)]
                          && forall k :: j < k <= counter ==> Id(k, site) !in m
    decreases counter + 1
  {
    if counter >= 0 && Id(counter, site) !in m {
      OwnerIsLatest(m, counter - 1, site);
      if Owner(m, counter, site).Some? {
        var j :| 0 <= j <= counter - 1 && Id(j, site) in m && Owner(m, counter - 1, site).value == m[Id(j, site)]
                 && forall k :: j < k <= counter - 1 ==> Id(k, site) !in m;
        assert forall k :: j < k <= counter ==> Id(k, site) !in m;
      }
    }
  }

  /** Inside a run that no later node of the site starts within, the owner is the run's node. */
  lemma {:induction false} OwnerInRun(m: map<Id, Node>, c: int, site: string, d: nat)
    requires c >= 0 && Id(c, site) in m
    requires forall j :: c < j <= c + d ==> Id(j, site) !in m
    ensures Owner(m, c + d, site) == Some(m[Id(c, site)])
    decreases d
  {
    if d > 0 {
      OwnerInRun(m, c, site, d - 1);
    }
  }

  /** With disjoint runs, a counter inside a linked node's run is owned by that node. */
  lemma OwnerOfRunChar(doc: Doc, n: Node, d: nat)
    requires RunsDisjoint(doc.nodeMap) && Entry(doc, n)
    requires d == 0 || d < |n.text|
    ensures Owner(doc.nodeMap, n.id.counter + d, n.id.site) == Some(n)
  {
    forall j | n.id.counter < j <= n.id.counter + d ensures Id(j, n.id.site) !in doc.nodeMap {
    }
    OwnerInRun(doc.nodeMap, n.id.counter, n.id.site, d);
  }

  /** `PosOf` of a character owned by `n`: the characters before `n` plus the offset into its run. */
  lemma PosOfOwned(doc: Doc, n: Node, d: nat, pre: bool, b: int)
    requires n.id.site != RootSite
    requires Owner(doc.nodeMap, n.id.counter + d, n.id.site) == Some(n)
    requires CharsBefore(doc, n) == Ok(b)
    ensures PosOf(doc, Loc(n.id.counter + d, n.id.site, pre)) == Ok(b + d + if pre then 1 else 0)
  {
  }

  /** `PosOf` of a character in a linked node's run. */
  lemma PosOfRunChar(doc: Doc, n: Node, d: nat, id: Id, pre: bool, b: int, t: int)
    requires RunsDisjoint(doc.nodeMap) && Entry(doc, n)
    requires d == 0 || d < |n.text|
    requires id == Id(n.id.counter + d, n.id.site)
    requires CharsBefore(doc, n) == Ok(b) && t == b + d + (if pre then 1 else 0)
    ensures PosOf(doc, Loc(id.counter, id.site, pre)) == Ok(t)
  {
    OwnerOfRunChar(doc, n, d);
    PosOfOwned(doc, n, d, pre, b);
  }

  /** `charactersBeforeNode` never reports a missing location. */
  lemma {:induction false} CharsBeforeNotNoSuchLoc(doc: Doc, n: Node)
    ensures CharsBefore(doc, n) != Err(NoSuchLoc)
    decreases |Heavier(doc.nodeMap, n)|
  {
    if n.parent != RootKey && n.parent in doc.nodeMap {
      var idx := IndexOf(Siblings(doc, n), n);
      if idx >= 0 {
        HeavierShrinks(doc.nodeMap, n, n.parent, idx);
        CharsBeforeNotNoSuchLoc(doc, doc.nodeMap[n.parent]);
      }
    }
  }

  /** `locToPos`: a root location is 0 for counter 0 and the length otherwise; any other location
      is unknown exactly when its site has no node with a counter from `loc.id` down to 0. */
  lemma LocToPosCases(doc: Doc, loc: Loc)
    ensures loc.site == RootSite ==> PosOf(doc, loc) == Ok(if loc.id == 0 then 0 else Length(doc))
    ensures loc.site != RootSite ==>
              (PosOf(doc, loc) == Err(NoSuchLoc) <==> forall j :: 0 <= j <= loc.id ==> Id(j, loc.site) !in doc.nodeMap)
  {
    if loc.site != RootSite {
      OwnerIsLatest(doc.nodeMap, loc.id, loc.site);
      if Owner(doc.nodeMap, loc.id, loc.site).Some? {
        CharsBeforeNotNoSuchLoc(doc, Owner(doc.nodeMap, loc.id, loc.site).value);
      }
    }
  }

  /** A known location lies at the start of the latest node of its site at or below its counter,
      plus the offset into that node's run, plus one when anchored left. */
  lemma LocToPosAtLatest(doc: Doc, loc: Loc, j: int)
    requires loc.site != RootSite && 0 <= j <= loc.id && Id(j, loc.site) in doc.nodeMap
    requires forall k :: j < k <= loc.id ==> Id(k, loc.site) !in doc.nodeMap
    ensures var n := doc.nodeMap[Id(j, loc.site)];
            PosOf(doc, loc) == Shift(CharsBefore(doc, n), loc.id - n.id.counter + (if loc.pre then 1 else 0))
  {
    OwnerInRun(doc.nodeMap, j, loc.site, loc.id - j);
  }

  /* ---------- charactersBeforeNode ---------- */

  /** A top-level node is preceded by exactly the roots before it. */
  lemma RootCharsBefore(doc: Doc, i: nat)
    requires DistinctIds(doc.roots) && i < |doc.roots| && doc.roots[i].parent == RootKey
    ensures CharsBefore(doc, doc.roots[i]) == Ok(SizeBefore(doc.roots, i))
  {
    IndexOfDistinct(doc.roots, i);
  }

  /** A child is preceded by what precedes its parent, the parent's own live text and the
      earlier siblings. */
  lemma ChildCharsBefore(doc: Doc, n: Node, i: nat, b: int)
    requires Linked(doc, n) && i < |n.children|
    requires CharsBefore(doc, n) == Ok(b)
    ensures CharsBefore(doc, n.children[i]) == Ok(b + Own(n) + SizeBefore(n.children, i))
  {
    IndexOfDistinct(n.children, i);
    ChildStep(doc, n, i, b);
  }

  lemma ChildStep(doc: Doc, n: Node, i: nat, b: int)
    requires i < |n.children|
    requires n.id != RootKey && n.id in doc.nodeMap && doc.nodeMap[n.id] == n
    requires n.children[i].parent == n.id
    requires IndexOf(n.children, n.children[i]) == i
    requires CharsBefore(doc, n) == Ok(b)
    ensures CharsBefore(doc, n.children[i]) == Ok(b + Own(n) + SizeBefore(n.children, i))
  {
    CharsBeforeStep(doc, n.children[i]);
  }

  /* ---------- consistent caches make the descent total ---------- */

  /** With consistent size caches, a pre position 1..size and a post position 0..size-1 are always
      found: the "size caches must have been miscalculated" error cannot happen. */
  lemma {:induction false} SizeCachesSuffice(n: Node, pos: int)
    requires SizeCacheOk(n)
    ensures 1 <= pos <= n.size ==> PreLocInNode(n, pos).Ok?
    ensures 0 <= pos < n.size ==> PostLocInNode(n, pos).Ok?
    decreases n, 1, 0
  {
    if 1 <= pos <= n.size && pos != 1 && !(!n.deleted && pos <= |n.text|) {
      PreChildrenSuffice(n, 0, pos - Own(n));
    }
    if 0 <= pos < n.size && pos != 0 && !(!n.deleted && pos < |n.text|) {
      PostChildrenSuffice(n, 0, pos - Own(n));
    }
  }

  lemma {:induction false} PreChildrenSuffice(n: Node, i: nat, pos: int)
    requires SizeCacheOk(n) && i <= |n.children|
    requires 1 <= pos && pos + SizeBefore(n.children, i) <= SumSizes(n.children)
    ensures PreLocInChildren(n, i, pos).Ok?
    decreases n, 0, |n.children| - i
  {
    if pos <= n.children[i].size {
      SizeCachesSuffice(n.children[i], pos);
    } else {
      PreChildrenSuffice(n, i + 1, pos - n.children[i].size);
    }
  }

  lemma {:induction false} PostChildrenSuffice(n: Node, i: nat, pos: int)
    requires SizeCacheOk(n) && i <= |n.children|
    requires 0 <= pos && pos + SizeBefore(n.children, i) < SumSizes(n.children)
    ensures PostLocInChildren(n, i, pos).Ok?
    decreases n, 0, |n.children| - i
  {
    if pos < n.children[i].size {
      SizeCachesSuffice(n.children[i], pos);
    } else {
      PostChildrenSuffice(n, i + 1, pos - n.children[i].size);
    }
  }

  /** When a live node's own text covers the position, the anchor is a character of its run. */
  lemma LiveRunAnchors(n: Node, pos: int)
    requires SizeCacheOk(n) && !n.deleted
    ensures 1 <= pos <= |n.text| ==> PreLocInNode(n, pos) == Ok(Id(n.id.counter + pos - 1, n.id.site))
    ensures 0 <= pos < |n.text| ==> PostLocInNode(n, pos) == Ok(Id(n.id.counter + pos, n.id.site))
  {
    forall i | 0 <= i < |n.children| ensures n.children[i].size >= 0 {
      SizeNonneg(n.children[i]);
    }
    SizeBeforeMono(n.children, 0, |n.children|);
  }

  /* ---------- the bounds check and the sentinels ---------- */

  /** The walk inside a node only fails with node-level errors. */
  lemma {:induction false} NodeWalkInBounds(n: Node, pos: int)
    ensures PreLocInNode(n, pos) != Err(OutOfBounds)
    ensures PostLocInNode(n, pos) != Err(OutOfBounds)
    decreases n, 1, 0
  {
    ChildrenWalkInBounds(n, 0, pos - Own(n));
  }

  lemma {:induction false} ChildrenWalkInBounds(n: Node, i: nat, pos: int)
    requires i <= |n.children|
    ensures PreLocInChildren(n, i, pos) != Err(OutOfBounds)
    ensures PostLocInChildren(n, i, pos) != Err(OutOfBounds)
    decreases n, 0, |n.children| - i
  {
    if i < |n.children| {
      NodeWalkInBounds(n.children[i], pos);
      ChildrenWalkInBounds(n, i + 1, pos - n.children[i].size);
    }
  }

  lemma {:induction false} PreRootsInBounds(roots: seq<Node>, i: nat, pos: int)
    requires i <= |roots|
    requires 1 <= pos && pos + SizeBefore(roots, i) <= SumSizes(roots)
    ensures PreLocInRoots(roots, i, pos) != Err(OutOfBounds)
    decreases |roots| - i
  {
    if pos <= roots[i].size {
      NodeWalkInBounds(roots[i], pos);
    } else {
      PreRootsInBounds(roots, i + 1, pos - roots[i].size);
    }
  }

  lemma {:induction false} PostRootsInBounds(roots: seq<Node>, i: nat, pos: int)
    requires i <= |roots|
    requires 0 <= pos && pos + SizeBefore(roots, i) <= SumSizes(roots)
    ensures PostLocInRoots(roots, i, pos) != Err(OutOfBounds)
    decreases |roots| - i
  {
    if i < |roots| {
      if pos < roots[i].size {
        NodeWalkInBounds(roots[i], pos);
      } else {
        PostRootsInBounds(roots, i + 1, pos - roots[i].size);
      }
    }
  }

  /** For any document and any non-negative position, `posToLoc` reports out-of-bounds exactly
      when the position lies beyond the document's length. Negative positions are outside this
      lemma and the round trip: the bounds check only tests the upper end, see
      `NegativePositionEscapes`. */
  lemma OutOfBoundsExactly(doc: Doc, pos: int, anchorLeft: bool)
    requires pos >= 0
    ensures LocOf(doc, pos, anchorLeft) == Err(OutOfBounds) <==> pos > Length(doc)
  {
    if pos <= Length(doc) {
      if anchorLeft && pos != 0 {
        PreRootsInBounds(doc.roots, 0, pos);
      } else if !anchorLeft {
        PostRootsInBounds(doc.roots, 0, pos);
      }
    }
  }

  /** A negative position passes the bounds check of `posToLoc`, which only tests `pos > total`, and
      reaches the tree walk: on a well-formed one-run document holding "xyz" at `[5, "a"]`,
      position -1 becomes a location two counters before the run, which no node owns, so
      `locToPos` rejects the location that `posToLoc` produced. */
  lemma NegativePositionEscapes()
    ensures var n := Node(Id(5, "a"), "xyz", false, [], RootKey, 3);
            var doc := Doc([n], map[n.id := n]);
            && DocWF(doc)
            && LocOf(doc, -1, true) == Ok(Loc(3, "a", true))
            && PosOf(doc, Loc(3, "a", true)) == Err(NoSuchLoc)
  {
    var n := Node(Id(5, "a"), "xyz", false, [], RootKey, 3);
    var doc := Doc([n], map[n.id := n]);
    assert SizeCacheOk(n) && Linked(doc, n);
    assert RootsOk(doc);
    assert DocWF(doc);
    assert SizeBefore(doc.roots, 1) == 3;
    assert PreLocInRoots(doc.roots, 0, -1) == Ok(Id(3, "a"));
    assert Owner(doc.nodeMap, 3, "a") == None by {
      OwnerIsLatest(doc.nodeMap, 3, "a");
    }
  }

  lemma {:induction false} PostRootsAtEnd(roots: seq<Node>, i: nat)
    requires i <= |roots|
    requires forall j :: 0 <= j < |roots| ==> roots[j].size >= 0
    ensures PostLocInRoots(roots, i, SumSizes(roots) - SizeBefore(roots, i)) == Ok(RootEnd)
    decreases |roots| - i
  {
    if i < |roots| {
      SizeBeforeMono(roots, i + 1, |roots|);
      PostRootsAtEnd(roots, i + 1);
    }
  }

  /** Position 0 anchored left is the start sentinel; the end anchored right is the end sentinel. */
  lemma RootSentinels(doc: Doc)
    requires forall j :: 0 <= j < |doc.roots| ==> doc.roots[j].size >= 0
    ensures LocOf(doc, 0, true) == Ok(Loc(0, RootSite, true))
    ensures LocOf(doc, Length(doc), false) == Ok(Loc(1, RootSite, false))
  {
    SizeBeforeMono(doc.roots, 0, |doc.roots|);
    PostRootsAtEnd(doc.roots, 0);
  }

  /* ---------- the round trip ---------- */

  /** The pre descent over a list of children picks the child `k` whose subtree holds the position. */
  lemma {:induction false} PreChildSelect(n: Node, i: nat, pos: int) returns (k: nat, p: int)
    requires i <= |n.children|
    requires 1 <= pos && pos + SizeBefore(n.children, i) <= SumSizes(n.children)
    ensures i <= k < |n.children|
    ensures p == pos + SizeBefore(n.children, i) - SizeBefore(n.children, k) && 1 <= p <= n.children[k].size
    ensures PreLocInChildren(n, i, pos) == PreLocInNode(n.children[k], p)
    decreases |n.children| - i
  {
    if pos <= n.children[i].size {
      k, p := i, pos;
    } else {
      k, p := PreChildSelect(n, i + 1, pos - n.children[i].size);
    }
  }

  /** The post descent over a list of children picks the child `k` whose subtree holds the position. */
  lemma {:induction false} PostChildSelect(n: Node, i: nat, pos: int) returns (k: nat, p: int)
    requires i <= |n.children|
    requires 0 <= pos && pos + SizeBefore(n.children, i) < SumSizes(n.children)
    ensures i <= k < |n.children|
    ensures p == pos + SizeBefore(n.children, i) - SizeBefore(n.children, k) && 0 <= p < n.children[k].size
    ensures PostLocInChildren(n, i, pos) == PostLocInNode(n.children[k], p)
    decreases |n.children| - i
  {
    if pos < n.children[i].size {
      k, p := i, pos;
    } else {
      k, p := PostChildSelect(n, i + 1, pos - n.children[i].size);
    }
  }

  /** The pre descent over the roots picks the root `k` whose subtree holds the position. */
  lemma {:induction false} PreRootSelect(roots: seq<Node>, i: nat, pos: int) returns (k: nat, p: int)
    requires i <= |roots|
    requires 1 <= pos && pos + SizeBefore(roots, i) <= SumSizes(roots)
    ensures i <= k < |roots|
    ensures p == pos + SizeBefore(roots, i) - SizeBefore(roots, k) && 1 <= p <= roots[k].size
    ensures PreLocInRoots(roots, i, pos) == PreLocInNode(roots[k], p)
    decreases |roots| - i
  {
    if pos <= roots[i].size {
      k, p := i, pos;
    } else {
      k, p := PreRootSelect(roots, i + 1, pos - roots[i].size);
    }
  }

  /** The post descent over the roots picks the root `k` whose subtree holds the position. */
  lemma {:induction false} PostRootSelect(roots: seq<Node>, i: nat, pos: int) returns (k: nat, p: int)
    requires i <= |roots|
    requires 0 <= pos && pos + SizeBefore(roots, i) < SumSizes(roots)
    ensures i <= k < |roots|
    ensures p == pos + SizeBefore(roots, i) - SizeBefore(roots, k) && 0 <= p < roots[k].size
    ensures PostLocInRoots(roots, i, pos) == PostLocInNode(roots[k], p)
    decreases |roots| - i
  {
    if pos < roots[i].size {
      k, p := i, pos;
    } else {
      k, p := PostRootSelect(roots, i + 1, pos - roots[i].size);
    }
  }

  /** Descending for a pre anchor from `n`, whose preceding characters number `b`, reaches
      character `d` of the run of the map entry `N`, preceded by `bN` characters. */
  lemma {:induction false} PreNodeFind(doc: Doc, n: Node, pos: int, b: int) returns (id: Id, N: Node, d: nat, bN: int)
    requires SizeCacheOk(n) && Linked(doc, n)
    requires CharsBefore(doc, n) == Ok(b)
    requires 1 <= pos <= n.size
    ensures PreLocInNode(n, pos) == Ok(id) && id == Id(N.id.counter + d, N.id.site)
    ensures Entry(doc, N) && (d == 0 || d < |N.text|)
    ensures CharsBefore(doc, N) == Ok(bN) && bN == b + pos - d - 1
    decreases n, 1
  {
    if pos == 1 {
      N, d, bN := n, 0, b;
      id := Id(n.id.counter + d, n.id.site);
    } else if !n.deleted && pos <= |n.text| {
      N, d, bN := n, pos - 1, b;
      id := Id(n.id.counter + d, n.id.site);
    } else {
      id, N, d, bN := PreDescend(doc, n, pos, b);
    }
  }

  /** The descent into the children of `n` once its own text is passed. */
  lemma {:induction false} PreDescend(doc: Doc, n: Node, pos: int, b: int) returns (id: Id, N: Node, d: nat, bN: int)
    requires SizeCacheOk(n) && Linked(doc, n)
    requires CharsBefore(doc, n) == Ok(b)
    requires 1 <= pos <= n.size && pos != 1 && !(!n.deleted && pos <= |n.text|)
    ensures PreLocInNode(n, pos) == Ok(id) && id == Id(N.id.counter + d, N.id.site)
    ensures Entry(doc, N) && (d == 0 || d < |N.text|)
    ensures CharsBefore(doc, N) == Ok(bN) && bN == b + pos - d - 1
    decreases n, 0
  {
    var q := pos - Own(n);
    assert PreLocInNode(n, pos) == PreLocInChildren(n, 0, q);
    var k, p := PreChildSelect(n, 0, q);
    ChildCharsBefore(doc, n, k, b);
    id, N, d, bN := PreNodeFind(doc, n.children[k], p, b + Own(n) + SizeBefore(n.children, k));
  }

  /** Descending for a post anchor from `n`, whose preceding characters number `b`, reaches
      character `d` of the run of the map entry `N`, preceded by `bN` characters. */
  lemma {:induction false} PostNodeFind(doc: Doc, n: Node, pos: int, b: int) returns (id: Id, N: Node, d: nat, bN: int)
    requires SizeCacheOk(n) && Linked(doc, n)
    requires CharsBefore(doc, n) == Ok(b)
    requires 0 <= pos < n.size
    ensures PostLocInNode(n, pos) == Ok(id) && id == Id(N.id.counter + d, N.id.site)
    ensures Entry(doc, N) && (d == 0 || d < |N.text|)
    ensures CharsBefore(doc, N) == Ok(bN) && bN == b + pos - d
    decreases n, 1
  {
    if pos == 0 {
      N, d, bN := n, 0, b;
      id := Id(n.id.counter + d, n.id.site);
    } else if !n.deleted && pos < |n.text| {
      N, d, bN := n, pos, b;
      id := Id(n.id.counter + d, n.id.site);
    } else {
      id, N, d, bN := PostDescend(doc, n, pos, b);
    }
  }

  /** The descent into the children of `n` once its own text is passed. */
  lemma {:induction false} PostDescend(doc: Doc, n: Node, pos: int, b: int) returns (id: Id, N: Node, d: nat, bN: int)
    requires SizeCacheOk(n) && Linked(doc, n)
    requires CharsBefore(doc, n) == Ok(b)
    requires 0 <= pos < n.size && pos != 0 && !(!n.deleted && pos < |n.text|)
    ensures PostLocInNode(n, pos) == Ok(id) && id == Id(N.id.counter + d, N.id.site)
    ensures Entry(doc, N) && (d == 0 || d < |N.text|)
    ensures CharsBefore(doc, N) == Ok(bN) && bN == b + pos - d
    decreases n, 0
  {
    var q := pos - Own(n);
    assert PostLocInNode(n, pos) == PostLocInChildren(n, 0, q);
    var k, p := PostChildSelect(n, 0, q);
    ChildCharsBefore(doc, n, k, b);
    id, N, d, bN := PostNodeFind(doc, n.children[k], p, b + Own(n) + SizeBefore(n.children, k));
  }

  /** The pre descent over the whole document reaches a character of the run of a map entry. */
  lemma PreDocFind(doc: Doc, pos: int) returns (id: Id, N: Node, d: nat, bN: int)
    requires RootsOk(doc)
    requires 1 <= pos <= Length(doc)
    ensures PreLoc(doc, pos) == Ok(id) && id == Id(N.id.counter + d, N.id.site)
    ensures Entry(doc, N) && (d == 0 || d < |N.text|)
    ensures CharsBefore(doc, N) == Ok(bN) && bN == pos - d - 1
  {
    var k, p := PreRootSelect(doc.roots, 0, pos);
    RootAt(doc, k);
    RootCharsBefore(doc, k);
    id, N, d, bN := PreNodeFind(doc, doc.roots[k], p, SizeBefore(doc.roots, k));
  }

  /** The post descent over the whole document reaches a character of the run of a map entry. */
  lemma PostDocFind(doc: Doc, pos: int) returns (id: Id, N: Node, d: nat, bN: int)
    requires RootsOk(doc)
    requires 0 <= pos < Length(doc)
    ensures PostLoc(doc, pos) == Ok(id) && id == Id(N.id.counter + d, N.id.site)
    ensures Entry(doc, N) && (d == 0 || d < |N.text|)
    ensures CharsBefore(doc, N) == Ok(bN) && bN == pos - d
  {
    var k, p := PostRootSelect(doc.roots, 0, pos);
    RootAt(doc, k);
    RootCharsBefore(doc, k);
    id, N, d, bN := PostNodeFind(doc, doc.roots[k], p, SizeBefore(doc.roots, k));
  }

  lemma RootAt(doc: Doc, k: nat)
    requires RootsOk(doc) && k < |doc.roots|
    ensures DistinctIds(doc.roots) && doc.roots[k].parent == RootKey
    ensures SizeCacheOk(doc.roots[k]) && Linked(doc, doc.roots[k])
  {
    assert doc.roots[k] in doc.roots;
  }

  lemma PreRoundTrip(doc: Doc, pos: int) returns (id: Id)
    requires RootsOk(doc) && RunsDisjoint(doc.nodeMap)
    requires 1 <= pos <= Length(doc)
    ensures PreLoc(doc, pos) == Ok(id)
    ensures PosOf(doc, Loc(id.counter, id.site, true)) == Ok(pos)
  {
    var N, d, bN;
    id, N, d, bN := PreDocFind(doc, pos);
    PosOfRunChar(doc, N, d, id, true, bN, pos);
  }

  lemma PostRoundTrip(doc: Doc, pos: int) returns (id: Id)
    requires RootsOk(doc) && RunsDisjoint(doc.nodeMap)
    requires 0 <= pos < Length(doc)
    ensures PostLoc(doc, pos) == Ok(id)
    ensures PosOf(doc, Loc(id.counter, id.site, false)) == Ok(pos)
  {
    var N, d, bN;
    id, N, d, bN := PostDocFind(doc, pos);
    PosOfRunChar(doc, N, d, id, false, bN, pos);
  }

  /** `locToPos(crdt, posToLoc(crdt, pos, anchorLeft))` is `pos` for every in-bounds position of a
      well-formed document, on either anchoring. */
  lemma LocRoundTrip(doc: Doc, pos: int, anchorLeft: bool)
    requires DocWF(doc)
    requires 0 <= pos <= Length(doc)
    ensures LocOf(doc, pos, anchorLeft).Ok?
    ensures PosOf(doc, LocOf(doc, pos, anchorLeft).value) == Ok(pos)
  {
    if anchorLeft && pos != 0 {
      var id := PreRoundTrip(doc, pos);
    } else if !anchorLeft && pos < Length(doc) {
      var id := PostRoundTrip(doc, pos);
    } else if !anchorLeft {
      RootNonneg(doc);
      PostRootsAtEnd(doc.roots, 0);
    }
  }

  lemma RootNonneg(doc: Doc)
    requires RootsOk(doc)
    ensures forall j :: 0 <= j < |doc.roots| ==> doc.roots[j].size >= 0
  {
    forall j | 0 <= j < |doc.roots| ensures doc.roots[j].size >= 0 {
      SizeNonneg(doc.roots[j]);
    }
  }
}
