/** Parent-linked forests.  A store of file nodes is seen here only through
    its parent links; the module defines the ancestor walk (the lineage that
    `materialized_path` follows), acyclicity, depth, and the subtree below a
    node, with the facts the recursive tree queries need. */
module Forest {
  import opened Types

  /** Each node's parent, if it has one. */
  type Links = map<NodeId, Option<NodeId>>

  /** A node is the top of its chain in `l` when it has no parent, or when its
      parent is kept in another store (a trashed file under a live folder). */
  predicate Top(l: Links, id: NodeId)
    requires id in l
  {
    l[id].None? || l[id].value !in l
  }

  /** The ancestor chain of `id`, self first, walking parent links for at
      most `fuel` steps; None when the fuel runs out first. */
  function Chain(l: Links, id: NodeId, fuel: nat): (r: Option<seq<NodeId>>)
    requires id in l
    ensures r.Some? ==> 1 <= |r.value| <= fuel + 1 && r.value[0] == id
    ensures r.Some? ==> forall k :: 0 <= k < |r.value| ==> r.value[k] in l
    ensures r.Some? ==> forall k :: 0 <= k < |r.value| - 1 ==> l[r.value[k]] == Some(r.value[k + 1])
    ensures r.Some? ==> Top(l, r.value[|r.value| - 1])
    decreases fuel
  {
    match l[id]
    case None => Some([id])
    case Some(p) =>
      if p !in l then Some([id])
      else if fuel == 0 then None
      else
        match Chain(l, p, fuel - 1)
        case None => None
        case Some(c) => Some([id] + c)
  }

  /** More fuel does not change a walk that already reached its top. */
  lemma {:induction false} ChainFuel(l: Links, id: NodeId, f: nat, g: nat)
    requires id in l && f <= g && Chain(l, id, f).Some?
    ensures Chain(l, id, g) == Chain(l, id, f)
    decreases f
  {
    match l[id]
    case None =>
    case Some(p) =>
      if p in l {
        ChainFuel(l, p, f - 1, g - 1);
      }
  }

  /** Every walk reaches a top within |l| steps: there are no parent cycles. */
  predicate Acyclic(l: Links) {
    forall id {:trigger Chain(l, id, |l|)} :: id in l ==> Chain(l, id, |l|).Some?
  }

  /** The lineage of a node: itself, its parent, ..., the top of its chain. */
  function Lineage(l: Links, id: NodeId): (r: seq<NodeId>)
    requires Acyclic(l) && id in l
    ensures 1 <= |r| <= |l| + 1 && r[0] == id
    ensures forall k :: 0 <= k < |r| ==> r[k] in l
    ensures forall k :: 0 <= k < |r| - 1 ==> l[r[k]] == Some(r[k + 1])
    ensures Top(l, r[|r| - 1])
  {
    Chain(l, id, |l|).value
  }

  /** Number of ancestors of `id` in `l`; it never exceeds the store size. */
  function Depth(l: Links, id: NodeId): (d: nat)
    requires Acyclic(l) && id in l
    ensures d <= |l|
  {
    |Lineage(l, id)| - 1
  }

  /** Below a top, a lineage is the node followed by its parent's lineage. */
  lemma LineageStep(l: Links, id: NodeId)
    requires Acyclic(l) && id in l && !Top(l, id)
    ensures Lineage(l, id) == [id] + Lineage(l, l[id].value)
    ensures Depth(l, id) == Depth(l, l[id].value) + 1
  {
    var p := l[id].value;
    assert Chain(l, id, |l|).Some?;
    assert Chain(l, p, |l| - 1).Some?;
    ChainFuel(l, p, |l| - 1, |l|);
  }

  /** `c` is a child of `id`; being one puts `c` one level deeper, which is
      what recursion over children decreases on. */
  predicate IsChild(l: Links, id: NodeId, c: NodeId)
    requires Acyclic(l) && id in l
    ensures IsChild(l, id, c) <==> c in l && l[c] == Some(id)
    ensures IsChild(l, id, c) ==> Depth(l, c) == Depth(l, id) + 1
  {
    c in l && l[c] == Some(id) && (LineageStep(l, c); true)
  }

  /** `d` lies in the subtree rooted at `id` (`d` itself included). */
  predicate InSubtree(l: Links, id: NodeId, d: NodeId)
    requires Acyclic(l)
  {
    id in l && d in l && id in Lineage(l, d)
  }

  /** Whatever is below a child is below its parent. */
  lemma {:induction false} SubtreeOfChild(l: Links, id: NodeId, c: NodeId, d: NodeId)
    requires Acyclic(l) && id in l && c in l && l[c] == Some(id)
    requires InSubtree(l, c, d)
    ensures InSubtree(l, id, d)
    decreases Depth(l, d)
  {
    if d == c {
      LineageStep(l, c);
    } else {
      var r := Lineage(l, d);
      var k :| 0 <= k < |r| && r[k] == c;
      assert l[r[0]] == Some(r[1]);
      LineageStep(l, d);
      SubtreeOfChild(l, id, c, l[d].value);
    }
  }

  /** A strict descendant of `id` is below one of its children. */
  lemma ChildToward(l: Links, id: NodeId, d: NodeId) returns (c: NodeId)
    requires Acyclic(l) && InSubtree(l, id, d) && d != id
    ensures c in l && l[c] == Some(id) && InSubtree(l, c, d)
  {
    var r := Lineage(l, d);
    var k :| 0 <= k < |r| && r[k] == id;
    c := r[k - 1];
  }

  /** Adding a parentless node that nobody points at keeps every lineage. */
  lemma {:induction false} ChainAddTop(l: Links, k: NodeId, id: NodeId, fuel: nat)
    requires k !in l && id in l
    requires forall x :: x in l ==> l[x] != Some(k)
    ensures Chain(l[k := None], id, fuel) == Chain(l, id, fuel)
    decreases fuel
  {
    match l[id]
    case None =>
    case Some(p) =>
      if p in l && fuel > 0 {
        ChainAddTop(l, k, p, fuel - 1);
      }
  }

  lemma AddTopAcyclic(l: Links, k: NodeId)
    requires Acyclic(l) && k !in l
    requires forall x :: x in l ==> l[x] != Some(k)
    ensures Acyclic(l[k := None])
  {
    var l' := l[k := None];
    forall id | id in l'
      ensures Chain(l', id, |l'|).Some?
    {
      if id != k {
        ChainAddTop(l, k, id, |l'|);
        ChainFuel(l, id, |l|, |l'|);
      }
    }
  }
}
