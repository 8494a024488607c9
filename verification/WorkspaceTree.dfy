/**
The folder tree of a workspace archive: the parent check, the walk above the active note, and
the closure of deleted nodes over their descendants.
*/
module WorkspaceTree {
  import opened Wrappers

  type NodeId = string

  datatype NodeKind = Folder | Note

  datatype Node = Node(id: NodeId, parent: Option<NodeId>, kind: NodeKind, deleted: bool)

  datatype ArchiveFault =
    | DuplicateNode(id: NodeId)
    | MissingParent(id: NodeId)
    | ParentIsNotAFolder(id: NodeId)
    | ParentCycle(id: NodeId)
    | ActiveNoteMissing
    | ActiveNoteUnavailable

  type NodeMap = map<NodeId, Node>

  /* ---------- Parent chains ---------- */

  function ParentOf(nodes: NodeMap, id: NodeId): Option<NodeId> {
    if id in nodes then nodes[id].parent else None
  }

  // The `k`-th ancestor of a node, the node itself being the 0th.
  function Ancestor(nodes: NodeMap, id: NodeId, k: nat): Option<NodeId> {
    if k == 0 then Some(id)
    else
      match Ancestor(nodes, id, k - 1)
      case None => None
      case Some(a) => ParentOf(nodes, a)
  }

  // Following parents from here ends.
  ghost predicate Rooted(nodes: NodeMap, id: NodeId) {
    exists k: nat :: Ancestor(nodes, id, k).None?
  }

  ghost predicate ParentsAreFolders(nodes: NodeMap) {
    forall id :: id in nodes && nodes[id].parent.Some? ==>
      nodes[id].parent.value in nodes && nodes[nodes[id].parent.value].kind.Folder?
  }

  lemma {:induction false} AncestorOfParent(nodes: NodeMap, id: NodeId, k: nat)
    requires ParentOf(nodes, id).Some?
    ensures Ancestor(nodes, id, k + 1) == Ancestor(nodes, ParentOf(nodes, id).value, k)
  {
    if k > 0 { AncestorOfParent(nodes, id, k - 1); }
  }

  lemma {:induction false} AncestorStaysNone(nodes: NodeMap, id: NodeId, k: nat, n: nat)
    requires k <= n && Ancestor(nodes, id, k).None?
    ensures Ancestor(nodes, id, n).None?
  {
    if k < n { AncestorStaysNone(nodes, id, k, n - 1); }
  }

  // A chain that comes back to an earlier ancestor never ends.
  lemma {:induction false} RepetitionNeverEnds(nodes: NodeMap, id: NodeId, i: nat, j: nat, n: nat)
    requires i < j && Ancestor(nodes, id, i).Some? && Ancestor(nodes, id, i) == Ancestor(nodes, id, j)
    ensures Ancestor(nodes, id, n).Some?
    decreases n
  {
    if n <= j {
      if Ancestor(nodes, id, n).None? { AncestorStaysNone(nodes, id, n, j); }
    } else {
      RepetitionNeverEnds(nodes, id, i, j, n - (j - i));
      SameTail(nodes, id, i, j, n - j);
    }
  }

  lemma {:induction false} SameTail(nodes: NodeMap, id: NodeId, i: nat, j: nat, m: nat)
    requires Ancestor(nodes, id, i) == Ancestor(nodes, id, j)
    ensures Ancestor(nodes, id, i + m) == Ancestor(nodes, id, j + m)
  {
    if m > 0 { SameTail(nodes, id, i, j, m - 1); }
  }

  /* ---------- The parent check ---------- */

  // Every id a walk can meet.
  function Names(nodes: NodeMap): set<NodeId> {
    nodes.Keys + set n | n in nodes && nodes[n].parent.Some? :: nodes[n].parent.value
  }

  /** One node's walk up: an error exactly when its chain does not end. */
  method WalkAncestors(nodes: NodeMap, id: NodeId, parent: NodeId) returns (cycle: bool)
    requires id in nodes && nodes[id].parent == Some(parent)
    ensures cycle <==> !Rooted(nodes, id)
  {
    var ancestors: set<NodeId> := {};
    var current: Option<NodeId> := Some(parent);
    ghost var k: nat := 1;
    AncestorOfParent(nodes, id, 0);
    while current.Some?
      invariant k >= 1 && current == Ancestor(nodes, id, k)
      invariant forall a :: a in ancestors ==> exists i: nat :: 1 <= i < k && Ancestor(nodes, id, i) == Some(a)
      invariant ancestors <= Names(nodes) && (current.Some? ==> current.value in Names(nodes))
      decreases Names(nodes) - ancestors, current.Some?
    {
      var ancestor := current.value;
      if ancestor in ancestors || ancestor == id {
        ghost var i: nat := 0;
        if ancestor in ancestors {
          i :| 1 <= i < k && Ancestor(nodes, id, i) == Some(ancestor);
        }
        forall n: nat ensures Ancestor(nodes, id, n).Some? {
          RepetitionNeverEnds(nodes, id, i, k, n);
        }
        return true;
      }
      ancestors := ancestors + {ancestor};
      current := ParentOf(nodes, ancestor);
      k := k + 1;
    }
    assert Ancestor(nodes, id, k).None?;
    return false;
  }

  /* ---------- The archive check ---------- */

  ghost predicate UniqueIds(nodes: seq<Node>) {
    forall i, j :: 0 <= i < j < |nodes| ==> nodes[i].id != nodes[j].id
  }

  // The nodes by id; with unique ids every node is found under its own.
  function ById(nodes: seq<Node>): NodeMap {
    if nodes == [] then map[] else ById(nodes[..|nodes| - 1])[nodes[|nodes| - 1].id := nodes[|nodes| - 1]]
  }

  lemma {:induction false} ByIdFinds(nodes: seq<Node>, id: NodeId)
    ensures id in ById(nodes) <==> exists i :: 0 <= i < |nodes| && nodes[i].id == id
    ensures id in ById(nodes) ==> ById(nodes)[id] in nodes && ById(nodes)[id].id == id
    ensures UniqueIds(nodes) ==> forall i :: 0 <= i < |nodes| && nodes[i].id == id ==> ById(nodes)[id] == nodes[i]
  {
    if nodes != [] {
      var before, last := nodes[..|nodes| - 1], nodes[|nodes| - 1];
      ByIdFinds(before, id);
      assert nodes == before + [last];
      assert forall i :: 0 <= i < |before| ==> nodes[i] == before[i];
      if id == last.id { assert nodes[|nodes| - 1].id == id; }
    }
  }

  // A tree: unique ids, parents that are folders of the archive, and no cycles.
  ghost predicate IsTree(nodes: seq<Node>) {
    UniqueIds(nodes) && ParentsAreFolders(ById(nodes)) && forall id :: id in ById(nodes) ==> Rooted(ById(nodes), id)
  }

  lemma UniqueSnoc(nodes: seq<Node>, node: Node)
    requires UniqueIds(nodes)
    ensures UniqueIds(nodes + [node]) <==> node.id !in ById(nodes)
  {
    ByIdFinds(nodes, node.id);
    if i :| 0 <= i < |nodes| && nodes[i].id == node.id {
      assert (nodes + [node])[i].id == (nodes + [node])[|nodes|].id;
    }
  }

  lemma UniquePrefix(nodes: seq<Node>, i: nat)
    requires i <= |nodes| && UniqueIds(nodes)
    ensures UniqueIds(nodes[..i])
  {
  }

  lemma EmptyIsUnique()
    ensures UniqueIds([])
  {
  }

  method CollectNodes(nodes: seq<Node>) returns (r: Result<NodeMap, ArchiveFault>)
    ensures r.Ok? <==> UniqueIds(nodes)
    ensures r.Ok? ==> r.value == ById(nodes)
  {
    hide UniqueIds;
    var collected: NodeMap := map[];
    assert UniqueIds(nodes[..0]) by { EmptyIsUnique(); }
    for i := 0 to |nodes|
      invariant collected == ById(nodes[..i]) && UniqueIds(nodes[..i])
    {
      UniqueSnoc(nodes[..i], nodes[i]);
      assert nodes[..i + 1] == nodes[..i] + [nodes[i]];
      if nodes[i].id in collected {
        if UniqueIds(nodes) { UniquePrefix(nodes, i + 1); }
        return Err(DuplicateNode(nodes[i].id));
      }
      collected := collected[nodes[i].id := nodes[i]];
    }
    assert nodes[..|nodes|] == nodes;
    return Ok(collected);
  }

  lemma NoParentIsRooted(nodes: NodeMap, id: NodeId)
    requires ParentOf(nodes, id).None?
    ensures Rooted(nodes, id)
  {
    assert Ancestor(nodes, id, 0) == Some(id);
    assert Ancestor(nodes, id, 1).None?;
  }

  /** The tree part of `WorkspaceArchive::validate` accepts exactly the trees. */
  method CheckTree(nodes: seq<Node>) returns (r: Result<NodeMap, ArchiveFault>)
    ensures r.Ok? <==> IsTree(nodes)
    ensures r.Ok? ==> r.value == ById(nodes)
  {
    r := CollectNodes(nodes);
    if r.Err? {
      return r;
    }
    var byId := r.value;
    for i := 0 to |nodes|
      invariant r == Ok(byId) && byId == ById(nodes)
      invariant forall j :: 0 <= j < i ==> NodeIsPlaced(byId, nodes[j].id)
    {
      var node := nodes[i];
      ByIdFinds(nodes, node.id);
      assert byId[node.id] == node;
      if node.parent.None? {
        NoParentIsRooted(byId, node.id);
      } else {
        var parent := node.parent.value;
        if parent !in byId {
          return Err(MissingParent(parent));
        }
        if !byId[parent].kind.Folder? {
          return Err(ParentIsNotAFolder(parent));
        }
        var cycle := WalkAncestors(byId, node.id, parent);
        if cycle {
          return Err(ParentCycle(node.id));
        }
      }
    }
    forall id | id in byId ensures NodeIsPlaced(byId, id) {
      ByIdFinds(nodes, id);
    }
  }

  ghost predicate NodeIsPlaced(nodes: NodeMap, id: NodeId) {
    && id in nodes && Rooted(nodes, id)
    && (nodes[id].parent.Some? ==> nodes[id].parent.value in nodes && nodes[nodes[id].parent.value].kind.Folder?)
  }

  /* ---------- Deleted subtrees ---------- */

  // The node or one of its ancestors is deleted.
  ghost predicate UnderDeleted(nodes: NodeMap, id: NodeId) {
    exists k: nat :: DeletedAt(nodes, id, k)
  }

  ghost predicate DeletedAt(nodes: NodeMap, id: NodeId, k: nat) {
    match Ancestor(nodes, id, k)
    case None => false
    case Some(a) => a in nodes && nodes[a].deleted
  }

  // Steps to the end of a rooted chain: what makes the walk below terminate.
  ghost function Height(nodes: NodeMap, id: NodeId): nat
    requires Rooted(nodes, id)
  {
    var k: nat :| Ancestor(nodes, id, k).None?;
    LeastEnd(nodes, id, k)
  }

  ghost function LeastEnd(nodes: NodeMap, id: NodeId, k: nat): (n: nat)
    requires Ancestor(nodes, id, k).None?
    ensures Ancestor(nodes, id, n).None? && forall m: nat :: m < n ==> Ancestor(nodes, id, m).Some?
  {
    if k > 0 && Ancestor(nodes, id, k - 1).None? then LeastEnd(nodes, id, k - 1)
    else
      assert forall m: nat :: m < k ==> Ancestor(nodes, id, m).Some? by {
        forall m: nat | m < k ensures Ancestor(nodes, id, m).Some? {
          if Ancestor(nodes, id, m).None? { AncestorStaysNone(nodes, id, m, k - 1); }
        }
      }
      k
  }

  /** The walk above the active note keeps no visited set; in a tree it ends at a root all the same. */
  method WalkActive(nodes: NodeMap, active: NodeId) returns (available: bool)
    requires active in nodes && Rooted(nodes, active)
    requires forall id :: id in nodes && nodes[id].parent.Some? ==> nodes[id].parent.value in nodes
    ensures available <==> !UnderDeleted(nodes, active)
  {
    var current: Option<NodeId> := Some(active);
    ghost var k: nat := 0;
    ghost var height := Height(nodes, active);
    while current.Some?
      invariant current == Ancestor(nodes, active, k) && (current.Some? ==> current.value in nodes)
      invariant forall j: nat :: j < k ==> !DeletedAt(nodes, active, j)
      invariant k <= height
      decreases height - k
    {
      var node := nodes[current.value];
      if node.deleted {
        assert DeletedAt(nodes, active, k);
        return false;
      }
      current := ParentOf(nodes, current.value);
      k := k + 1;
      if current.Some? && height < k { AncestorStaysNone(nodes, active, height, k); }
    }
    forall j: nat ensures !DeletedAt(nodes, active, j) {
      if j >= k { AncestorStaysNone(nodes, active, k, j); }
    }
    return true;
  }

  /** The active-note check of a validated archive. */
  method CheckActive(nodes: seq<Node>, byId: NodeMap, active: NodeId) returns (r: Result<(), ArchiveFault>)
    requires IsTree(nodes) && byId == ById(nodes)
    ensures r.Ok? <==> active in byId && byId[active].kind.Note? && !UnderDeleted(byId, active)
  {
    if active !in byId {
      return Err(ActiveNoteMissing);
    }
    if !byId[active].kind.Note? {
      return Err(ActiveNoteUnavailable);
    }
    var available := WalkActive(byId, active);
    return if available then Ok(()) else Err(ActiveNoteUnavailable);
  }

  /* ---------- The worklist ---------- */

  ghost predicate IsChild(nodes: seq<Node>, parent: NodeId, child: NodeId) {
    exists i :: 0 <= i < |nodes| && nodes[i].id == child && nodes[i].parent == Some(parent)
  }

  ghost predicate IsDeleted(nodes: seq<Node>, id: NodeId) {
    exists i :: 0 <= i < |nodes| && nodes[i].id == id && nodes[i].deleted
  }

  // `n` child steps below a deleted node.
  ghost predicate Below(nodes: seq<Node>, id: NodeId, n: nat)
    decreases n
  {
    if n == 0 then IsDeleted(nodes, id)
    else exists parent :: Below(nodes, parent, n - 1) && IsChild(nodes, parent, id)
  }

  ghost predicate Unavailable(nodes: seq<Node>, id: NodeId) {
    exists n: nat :: Below(nodes, id, n)
  }

  lemma ChildOfUnavailable(nodes: seq<Node>, parent: NodeId, child: NodeId)
    requires Unavailable(nodes, parent) && IsChild(nodes, parent, child)
    ensures Unavailable(nodes, child)
  {
    var n: nat :| Below(nodes, parent, n);
    assert Below(nodes, child, n + 1);
  }

  lemma {:induction false} ClosedSetHoldsUnavailable(nodes: seq<Node>, s: set<NodeId>, id: NodeId, n: nat)
    requires forall d :: IsDeleted(nodes, d) ==> d in s
    requires forall p, c :: p in s && IsChild(nodes, p, c) ==> c in s
    requires Below(nodes, id, n)
    ensures id in s
    decreases n
  {
    if n > 0 {
      var parent :| Below(nodes, parent, n - 1) && IsChild(nodes, parent, id);
      ClosedSetHoldsUnavailable(nodes, s, parent, n - 1);
    }
  }

  function AllIds(nodes: seq<Node>): set<NodeId> {
    set node | node in nodes :: node.id
  }

  ghost predicate Indexes(children: map<NodeId, seq<NodeId>>, nodes: seq<Node>) {
    forall p, c :: (p in children && c in children[p]) <==> IsChild(nodes, p, c)
  }

  function AddChild(children: map<NodeId, seq<NodeId>>, node: Node): map<NodeId, seq<NodeId>> {
    match node.parent
    case None => children
    case Some(p) => children[p := (if p in children then children[p] else []) + [node.id]]
  }

  lemma IndexesStep(children: map<NodeId, seq<NodeId>>, before: seq<Node>, node: Node)
    requires Indexes(children, before)
    ensures Indexes(AddChild(children, node), before + [node])
  {
    var more := AddChild(children, node);
    forall p, c ensures (p in more && c in more[p]) <==> IsChild(before + [node], p, c) {
      assert (p in children && c in children[p]) <==> IsChild(before, p, c);
      IsChildStep(before, node, p, c);
    }
  }

  // Children by parent, and the deleted nodes, in node order.
  method IndexChildren(nodes: seq<Node>) returns (children: map<NodeId, seq<NodeId>>, deleted: seq<NodeId>)
    ensures Indexes(children, nodes)
    ensures forall d :: d in deleted <==> IsDeleted(nodes, d)
  {
    children := map[];
    deleted := [];
    for i := 0 to |nodes|
      invariant Indexes(children, nodes[..i])
      invariant forall d :: d in deleted <==> IsDeleted(nodes[..i], d)
    {
      assert nodes[..i + 1] == nodes[..i] + [nodes[i]];
      IndexesStep(children, nodes[..i], nodes[i]);
      forall d { IsDeletedStep(nodes[..i], nodes[i], d); }
      children := AddChild(children, nodes[i]);
      if nodes[i].deleted {
        deleted := deleted + [nodes[i].id];
      }
    }
    assert nodes[..|nodes|] == nodes;
  }

  lemma IsChildStep(before: seq<Node>, node: Node, p: NodeId, c: NodeId)
    ensures IsChild(before + [node], p, c) <==> IsChild(before, p, c) || (node.id == c && node.parent == Some(p))
  {
    var all := before + [node];
    assert all[|before|] == node;
    assert forall i :: 0 <= i < |before| ==> all[i] == before[i];
  }

  lemma IsDeletedStep(before: seq<Node>, node: Node, d: NodeId)
    ensures IsDeleted(before + [node], d) <==> IsDeleted(before, d) || (node.id == d && node.deleted)
  {
    var all := before + [node];
    assert all[|before|] == node;
    assert forall i :: 0 <= i < |before| ==> all[i] == before[i];
  }

  /** `unavailable_node_ids`: the deleted nodes and everything below them, and nothing else. */
  method UnavailableNodeIds(nodes: seq<Node>) returns (unavailable: set<NodeId>)
    ensures forall id :: id in unavailable <==> Unavailable(nodes, id)
  {
    var children, pending := IndexChildren(nodes);
    unavailable := {};
    forall d | d in pending ensures Unavailable(nodes, d) && d in AllIds(nodes) {
      assert Below(nodes, d, 0);
    }
    while pending != []
      invariant unavailable <= AllIds(nodes) && forall id :: id in pending ==> id in AllIds(nodes)
      invariant forall id :: id in unavailable || id in pending ==> Unavailable(nodes, id)
      invariant forall d :: IsDeleted(nodes, d) ==> d in unavailable || d in pending
      invariant forall p, c :: p in unavailable && IsChild(nodes, p, c) ==> c in unavailable || c in pending
      decreases AllIds(nodes) - unavailable, |pending|
    {
      var id := pending[|pending| - 1];
      ghost var before := pending;
      pending := pending[..|pending| - 1];
      assert before == pending + [id];
      if id !in unavailable {
        unavailable := unavailable + {id};
        if id in children {
          forall c | c in children[id] ensures Unavailable(nodes, c) && c in AllIds(nodes) {
            assert id in children && c in children[id] <==> IsChild(nodes, id, c);
            ChildOfUnavailable(nodes, id, c);
          }
          pending := pending + children[id];
        }
      }
    }
    forall id | Unavailable(nodes, id) ensures id in unavailable {
      var n: nat :| Below(nodes, id, n);
      ClosedSetHoldsUnavailable(nodes, unavailable, id, n);
    }
  }

  /* ---------- Agreement ---------- */

  lemma {:induction false} BelowIsDeletedAncestor(nodes: seq<Node>, id: NodeId, n: nat)
    requires UniqueIds(nodes)
    ensures id in ById(nodes) ==> (Below(nodes, id, n) <==> DeletedAt(ById(nodes), id, n))
    ensures Below(nodes, id, n) ==> id in ById(nodes)
    decreases n
  {
    var byId := ById(nodes);
    ByIdFinds(nodes, id);
    if n == 0 {
      if id in byId {
        var i :| 0 <= i < |nodes| && nodes[i].id == id;
        assert byId[id] == nodes[i];
      }
    } else {
      if Below(nodes, id, n) {
        var parent :| Below(nodes, parent, n - 1) && IsChild(nodes, parent, id);
        BelowIsDeletedAncestor(nodes, parent, n - 1);
        AncestorOfParent(byId, id, n - 1);
      }
      if id in byId && DeletedAt(byId, id, n) {
        var i :| 0 <= i < |nodes| && nodes[i].id == id;
        if byId[id].parent.None? {
          assert Ancestor(byId, id, 1).None?;
          AncestorStaysNone(byId, id, 1, n);
        } else {
          var parent := byId[id].parent.value;
          AncestorOfParent(byId, id, n - 1);
          if parent !in byId {
            NoParentIsRooted(byId, parent);
            if n > 1 { AncestorStaysNone(byId, parent, 1, n - 1); }
          }
          BelowIsDeletedAncestor(nodes, parent, n - 1);
          assert IsChild(nodes, parent, id);
        }
      }
    }
  }

  /** With unique ids the downward closure and the upward walk agree on every node of the archive. */
  lemma ClosureAgreesWithWalk(nodes: seq<Node>, id: NodeId)
    requires UniqueIds(nodes) && id in ById(nodes)
    ensures Unavailable(nodes, id) <==> UnderDeleted(ById(nodes), id)
  {
    if Unavailable(nodes, id) {
      var n: nat :| Below(nodes, id, n);
      BelowIsDeletedAncestor(nodes, id, n);
    }
    if UnderDeleted(ById(nodes), id) {
      var k: nat :| DeletedAt(ById(nodes), id, k);
      BelowIsDeletedAncestor(nodes, id, k);
    }
  }

  /** A note of a validated archive passes the active check exactly when it is not unavailable. */
  method ActiveNoteAgrees(nodes: seq<Node>, byId: NodeMap, active: NodeId) returns (accepted: bool, unavailable: set<NodeId>)
    requires IsTree(nodes) && byId == ById(nodes) && active in byId && byId[active].kind.Note?
    ensures accepted <==> !UnderDeleted(byId, active)
    ensures forall id :: id in unavailable <==> Unavailable(nodes, id)
    ensures accepted <==> active !in unavailable
  {
    var r := CheckActive(nodes, byId, active);
    accepted := r.Ok?;
    unavailable := UnavailableNodeIds(nodes);
    ClosureAgreesWithWalk(nodes, active);
  }
}
