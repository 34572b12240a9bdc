/**
 * Translation between linear text positions and stable locations in the tree text CRDT
 * (packages/text-crdt/loc.js). Each recursive function states what the source computes; each
 * method runs the source's loops and is proved to compute that function.
 */
module TextLoc {
  import opened Wrappers
  import opened TextTree

  /** A stable anchor: the character `[id, site]`, to the left of the position (`pre`) or to its right. */
  datatype Loc = Loc(id: int, site: string, pre: bool)

  /** The source's thrown errors; the messages themselves are not modelled. */
  datatype LocError =
    | OutOfBounds        // "Loc is outside of the bounds" / "Pos ... is outside the bounds"
    | PosNotInNode       // "pos ... not in node ..."
    | SizeCacheMismatch  // "Node size caches must have been miscalculated!"
    | NotInParent        // "node not found in parents children ..."
    | MissingParent      // the parent key has no map entry (a TypeError in the source)
    | NoSuchLoc          // "Loc does not exist in tree ..."

  /** The sentinel left of everything (`[0, 'root']`) and right of everything (`[1, 'root']`). */
  const RootStart := Id(0, RootSite)
  const RootEnd := Id(1, RootSite)

  function Shift(r: Result<int, LocError>, k: int): Result<int, LocError>
  {
    match r
    case Ok(v) => Ok(v + k)
    case Err(e) => Err(e)
  }

  /* ---------- position -> location: the specification ---------- */

  /** The character left of position `pos` counted from the start of `n`'s subtree. */
  function PreLocInNode(n: Node, pos: int): Result<Id, LocError>
    decreases n, 1, 0
  {
    if pos == 1 then Ok(n.id)
    else if pos > n.size then Err(PosNotInNode)
    else if !n.deleted && pos <= |n.text| then Ok(Id(n.id.counter + pos - 1, n.id.site))
    else PreLocInChildren(n, 0, pos - Own(n))
  }

  /** The children loop of `PreLocInNode` from child `i` on, with `pos` what is left of the position. */
  function PreLocInChildren(n: Node, i: nat, pos: int): Result<Id, LocError>
    requires i <= |n.children|
    decreases n, 0, |n.children| - i
  {
    if i == |n.children| then Err(SizeCacheMismatch)
    else if pos <= n.children[i].size then PreLocInNode(n.children[i], pos)
    else PreLocInChildren(n, i + 1, pos - n.children[i].size)
  }

  function PreLocInRoots(roots: seq<Node>, i: nat, pos: int): Result<Id, LocError>
    requires i <= |roots|
    decreases |roots| - i
  {
    if i == |roots| then Err(OutOfBounds)
    else if pos <= roots[i].size then PreLocInNode(roots[i], pos)
    else PreLocInRoots(roots, i + 1, pos - roots[i].size)
  }

  /** The character left of `pos` in the document, or the start sentinel at 0. */
  function PreLoc(doc: Doc, pos: int): Result<Id, LocError>
  {
    if pos == 0 then Ok(RootStart) else PreLocInRoots(doc.roots, 0, pos)
  }

  /** The character right of position `pos` counted from the start of `n`'s subtree. */
  function PostLocInNode(n: Node, pos: int): Result<Id, LocError>
    decreases n, 1, 0
  {
    if pos == 0 then Ok(n.id)
    else if pos >= n.size then Err(PosNotInNode)
    else if !n.deleted && pos < |n.text| then Ok(Id(n.id.counter + pos, n.id.site))
    else PostLocInChildren(n, 0, pos - Own(n))
  }

  function PostLocInChildren(n: Node, i: nat, pos: int): Result<Id, LocError>
    requires i <= |n.children|
    decreases n, 0, |n.children| - i
  {
    if i == |n.children| then Err(SizeCacheMismatch)
    else if pos < n.children[i].size then PostLocInNode(n.children[i], pos)
    else PostLocInChildren(n, i + 1, pos - n.children[i].size)
  }

  function PostLocInRoots(roots: seq<Node>, i: nat, pos: int): Result<Id, LocError>
    requires i <= |roots|
    decreases |roots| - i
  {
    if i == |roots| then (if pos == 0 then Ok(RootEnd) else Err(OutOfBounds))
    else if pos < roots[i].size then PostLocInNode(roots[i], pos)
    else PostLocInRoots(roots, i + 1, pos - roots[i].size)
  }

  /** The character right of `pos` in the document, or the end sentinel at the end. */
  function PostLoc(doc: Doc, pos: int): Result<Id, LocError>
  {
    PostLocInRoots(doc.roots, 0, pos)
  }

  /** `posToLoc`: a position becomes a location anchored on the requested side. */
  function LocOf(doc: Doc, pos: int, anchorLeft: bool): (r: Result<Loc, LocError>)
    ensures r.Ok? ==> r.value.pre == anchorLeft
  {
    if pos > Length(doc) then Err(OutOfBounds)
    else
      match (if anchorLeft then PreLoc(doc, pos) else PostLoc(doc, pos))
      case Ok(id) => Ok(Loc(id.counter, id.site, anchorLeft))
      case Err(e) => Err(e)
  }

  /* ---------- location -> position: the specification ---------- */

  /** `nodeForLoc`: the map entry `[c, site]` with the largest `c` from `counter` down to 0. */
  function Owner(m: map<Id, Node>, counter: int, site: string): Option<Node>
    decreases counter + 1
  {
    if counter < 0 then None
    else if Id(counter, site) in m then Some(m[Id(counter, site)])
    else Owner(m, counter - 1, site)
  }

  /** The map keys whose node weighs more than `n`: the measure that makes the walk up the
      parent chain terminate, since every step moves to a strictly heavier node. */
  ghost function Heavier(m: map<Id, Node>, n: Node): set<Id>
  {
    set k | k in m && Weight(m[k]) > Weight(n)
  }

  lemma HeavierShrinks(m: map<Id, Node>, n: Node, k: Id, idx: nat)
    requires k in m && idx < |m[k].children| && m[k].children[idx] == n
    ensures |Heavier(m, m[k])| < |Heavier(m, n)|
  {
    ChildLighter(m[k], idx);
    var lighter := Heavier(m, n) - {k};
    assert Heavier(m, m[k]) <= lighter;
    SubsetCard(Heavier(m, m[k]), lighter);
  }

  lemma {:induction false} SubsetCard<T>(a: set<T>, b: set<T>)
    requires a <= b
    ensures |a| <= |b|
    decreases |b|
  {
    if a != {} {
      var x :| x in a;
      SubsetCard(a - {x}, b - {x});
    }
  }

  /** One step of the walk up the parent chain, as `CharsBefore` defines it. */
  lemma CharsBeforeStep(doc: Doc, n: Node)
    requires n.parent != RootKey && n.parent in doc.nodeMap
    requires IndexOf(Siblings(doc, n), n) >= 0
    ensures var p := doc.nodeMap[n.parent];
            var idx := IndexOf(p.children, n);
            CharsBefore(doc, n) == Shift(CharsBefore(doc, p), SizeBefore(p.children, idx) + Own(p))
  {
  }

  /** Where the walk up the parent chain stops, `CharsBefore` is decided without recursion. */
  lemma CharsBeforeStop(doc: Doc, n: Node)
    ensures n.parent != RootKey && n.parent !in doc.nodeMap ==> CharsBefore(doc, n) == Err(MissingParent)
    ensures (n.parent == RootKey || n.parent in doc.nodeMap) && IndexOf(Siblings(doc, n), n) < 0 ==>
              CharsBefore(doc, n) == Err(NotInParent)
    ensures n.parent == RootKey && IndexOf(doc.roots, n) >= 0 ==>
              CharsBefore(doc, n) == Ok(SizeBefore(doc.roots, IndexOf(doc.roots, n)))
  {
  }

  lemma ShiftTwice(r: Result<int, LocError>, a: int, b: int)
    ensures Shift(Shift(r, a), b) == Shift(r, a + b)
  {
  }

  /** The siblings list `n` sits in: the roots for a top-level node, otherwise its parent's children. */
  function Siblings(doc: Doc, n: Node): seq<Node>
    requires n.parent == RootKey || n.parent in doc.nodeMap
  {
    if n.parent == RootKey then doc.roots else doc.nodeMap[n.parent].children
  }

  /** `charactersBeforeNode`: along the chain of ancestors, the sizes of the preceding siblings at
      every level plus the own live text of every ancestor. */
  function CharsBefore(doc: Doc, n: Node): Result<int, LocError>
    decreases |Heavier(doc.nodeMap, n)|
  {
    if n.parent != RootKey && n.parent !in doc.nodeMap then Err(MissingParent)
    else
      var siblings := Siblings(doc, n);
      var idx := IndexOf(siblings, n);
      if idx < 0 then Err(NotInParent)
      else if n.parent == RootKey then Ok(SizeBefore(siblings, idx))
      else
        var p := doc.nodeMap[n.parent];
        HeavierShrinks(doc.nodeMap, n, n.parent, idx);
        Shift(CharsBefore(doc, p), SizeBefore(siblings, idx) + Own(p))
  }

  /** `locToPos`: sentinels map to the ends; otherwise the owning run's start plus the offset
      into the run, plus one for a pre anchor. */
  function PosOf(doc: Doc, loc: Loc): Result<int, LocError>
  {
    if loc.site == RootSite then Ok(if loc.id == 0 then 0 else Length(doc))
    else
      match Owner(doc.nodeMap, loc.id, loc.site)
      case None => Err(NoSuchLoc)
      case Some(n) => Shift(CharsBefore(doc, n), loc.id - n.id.counter + (if loc.pre then 1 else 0))
  }

  /* ---------- the source's procedures ---------- */

  method PosToPreLocForNode(n: Node, pos0: int) returns (r: Result<Id, LocError>)
    ensures r == PreLocInNode(n, pos0)
    decreases n
  {
    var pos := pos0;
    if pos == 1 {
      return Ok(n.id);
    }
    if pos > n.size {
      return Err(PosNotInNode);
    }
    if !n.deleted {
      if pos <= |n.text| {
        return Ok(Id(n.id.counter + pos - 1, n.id.site));
      }
      pos := pos - |n.text|;
    }
    var i := 0;
    while i < |n.children|
      invariant 0 <= i <= |n.children|
      invariant PreLocInNode(n, pos0) == PreLocInChildren(n, i, pos)
    {
      var child := n.children[i];
      if pos <= child.size {
        r := PosToPreLocForNode(child, pos);
        return;
      }
      pos := pos - child.size;
      i := i + 1;
    }
    return Err(SizeCacheMismatch);
  }

  method PosToPreLoc(doc: Doc, pos0: int) returns (r: Result<Id, LocError>)
    ensures r == PreLoc(doc, pos0)
  {
    var pos := pos0;
    if pos == 0 {
      return Ok(RootStart);
    }
    var i := 0;
    while i < |doc.roots|
      invariant 0 <= i <= |doc.roots|
      invariant PreLoc(doc, pos0) == PreLocInRoots(doc.roots, i, pos)
    {
      if pos <= doc.roots[i].size {
        r := PosToPreLocForNode(doc.roots[i], pos);
        return;
      }
      pos := pos - doc.roots[i].size;
      i := i + 1;
    }
    return Err(OutOfBounds);
  }

  method PosToPostLocForNode(n: Node, pos0: int) returns (r: Result<Id, LocError>)
    ensures r == PostLocInNode(n, pos0)
    decreases n
  {
    var pos := pos0;
    if pos == 0 {
      return Ok(n.id);
    }
    if pos >= n.size {
      return Err(PosNotInNode);
    }
    if !n.deleted {
      if pos < |n.text| {
        return Ok(Id(n.id.counter + pos, n.id.site));
      }
      pos := pos - |n.text|;
    }
    var i := 0;
    while i < |n.children|
      invariant 0 <= i <= |n.children|
      invariant PostLocInNode(n, pos0) == PostLocInChildren(n, i, pos)
    {
      var child := n.children[i];
      if pos < child.size {
        r := PosToPostLocForNode(child, pos);
        return;
      }
      pos := pos - child.size;
      i := i + 1;
    }
    return Err(SizeCacheMismatch);
  }

  method PosToPostLoc(doc: Doc, pos0: int) returns (r: Result<Id, LocError>)
    ensures r == PostLoc(doc, pos0)
  {
    var pos := pos0;
    var i := 0;
    while i < |doc.roots|
      invariant 0 <= i <= |doc.roots|
      invariant PostLoc(doc, pos0) == PostLocInRoots(doc.roots, i, pos)
    {
      if pos < doc.roots[i].size {
        r := PosToPostLocForNode(doc.roots[i], pos);
        return;
      }
      pos := pos - doc.roots[i].size;
      i := i + 1;
    }
    if pos == 0 {
      return Ok(RootEnd);
    }
    return Err(OutOfBounds);
  }

  method PosToLoc(doc: Doc, pos: int, anchorLeft: bool) returns (r: Result<Loc, LocError>)
    ensures r == LocOf(doc, pos, anchorLeft)
  {
    var total := Length(doc);
    if pos > total {
      return Err(OutOfBounds);
    }
    var at;
    if anchorLeft {
      at := PosToPreLoc(doc, pos);
    } else {
      at := PosToPostLoc(doc, pos);
    }
    match at
    case Ok(id) => r := Ok(Loc(id.counter, id.site, anchorLeft));
    case Err(e) => r := Err(e);
  }

  method NodeForLoc(doc: Doc, loc: Loc) returns (r: Option<Node>)
    ensures r == Owner(doc.nodeMap, loc.id, loc.site)
  {
    var i := loc.id;
    while i >= 0
      invariant Owner(doc.nodeMap, loc.id, loc.site) == Owner(doc.nodeMap, i, loc.site)
      decreases i
    {
      var k := Id(i, loc.site);
      if k in doc.nodeMap {
        return Some(doc.nodeMap[k]);
      }
      i := i - 1;
    }
    return None;
  }

  /** The `for (let i = 0; i < idx; i++) total += siblings[i].size` loop, from a zero total. */
  method SizesBefore(siblings: seq<Node>, idx: nat) returns (total: int)
    requires idx <= |siblings|
    ensures total == SizeBefore(siblings, idx)
  {
    total := 0;
    var i := 0;
    while i < idx
      invariant 0 <= i <= idx
      invariant total == SizeBefore(siblings, i)
    {
      total := total + siblings[i].size;
      i := i + 1;
    }
  }

  /** One turn of `charactersBeforeNode`'s loop at `node`: either the walk stops with `r`, or it
      moves to the parent, which is heavier, after counting `add` more characters. */
  method ClimbOne(doc: Doc, node: Node) returns (stop: bool, r: Result<int, LocError>, add: int)
    ensures stop ==> CharsBefore(doc, node) == r
    ensures !stop ==> && node.parent != RootKey && node.parent in doc.nodeMap
                      && CharsBefore(doc, node) == Shift(CharsBefore(doc, doc.nodeMap[node.parent]), add)
                      && |Heavier(doc.nodeMap, doc.nodeMap[node.parent])| < |Heavier(doc.nodeMap, node)|
  {
    CharsBeforeStop(doc, node);
    if node.parent != RootKey && node.parent !in doc.nodeMap {
      return true, Err(MissingParent), 0;
    }
    var siblings := Siblings(doc, node);
    var idx := IndexOf(siblings, node);
    if idx == -1 {
      return true, Err(NotInParent), 0;
    }
    add := SizesBefore(siblings, idx);
    if node.parent == RootKey {
      return true, Ok(add), 0;
    }
    CharsBeforeStep(doc, node);
    HeavierShrinks(doc.nodeMap, node, node.parent, idx);
    var parent := doc.nodeMap[node.parent];
    if !parent.deleted {
      add := add + |parent.text|;
    }
    stop, r := false, Ok(0);
  }

  method CharactersBeforeNode(doc: Doc, n0: Node) returns (r: Result<int, LocError>)
    ensures r == CharsBefore(doc, n0)
  {
    var total := 0;
    var node := n0;
    while true
      invariant CharsBefore(doc, n0) == Shift(CharsBefore(doc, node), total)
      decreases |Heavier(doc.nodeMap, node)|
    {
      var stop, res, add := ClimbOne(doc, node);
      if stop {
        return Shift(res, total);
      }
      ShiftTwice(CharsBefore(doc, doc.nodeMap[node.parent]), add, total);
      total := total + add;
      node := doc.nodeMap[node.parent];
    }
  }

  method LocToPos(doc: Doc, loc: Loc) returns (r: Result<int, LocError>)
    ensures r == PosOf(doc, loc)
  {
    if loc.site == RootSite {
      return Ok(if loc.id == 0 then 0 else Length(doc));
    }
    var node := NodeForLoc(doc, loc);
    if node.None? {
      return Err(NoSuchLoc);
    }
    var nodePos := CharactersBeforeNode(doc, node.value);
    var offset := loc.id - node.value.id.counter;
    r := Shift(nodePos, offset + (if loc.pre then 1 else 0));
  }
}
