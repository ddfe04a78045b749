/** The rules of `check_in_or_out`: who may change a node's checkout, when a
    request is a real transition, and what a transition does to the checkout
    state of the node and of the rest of the tree. */
module Checkout {
  import opened Types
  import opened Forest
  import opened FileTree

  /** How a checkout request ends: refused with FileNodeCheckedOutError,
      accepted without effect, or a transition logged under `action`. */
  datatype Decision = Refused | NoChange | Transition(action: LogAction)

  /** The decision of `check_in_or_out` for `user` asking to set the checkout
      of `id` to `checkout`.  `contributorPerms` is the user's entry in the
      project's permission table (empty when absent), `perms` what the
      project's permission lookup grants the user. */
  function Decide(t: Tree, id: NodeId, user: UserId, checkout: Option<UserId>,
                  contributorPerms: set<Permission>, perms: set<Permission>): (d: Decision)
    requires WellFormed(t) && id in t
    ensures d.Refused? <==>
      || Write !in perms
      || (IsCheckedOut(t, id) && t[id].checkout != Some(user) && Admin !in contributorPerms)
    ensures d.Transition? <==> !d.Refused? && (IsCheckedOut(t, id) <==> checkout.None?)
    ensures d.Transition? ==> d.action == if checkout.Some? then CheckedOut else CheckedIn
  {
    var locked := IsCheckedOut(t, id);
    if (locked && t[id].checkout != Some(user) && Admin !in contributorPerms) || Write !in perms then
      Refused
    else
      var action := if checkout.Some? then CheckedOut else CheckedIn;
      if (locked && action == CheckedIn) || (!locked && action == CheckedOut) then Transition(action)
      else NoChange
  }

  /** The tree after setting the checkout of `id`. */
  function SetCheckout(t: Tree, id: NodeId, checkout: Option<UserId>): (t': Tree)
    requires id in t
    ensures t'.Keys == t.Keys && t'[id].checkout == checkout
    ensures forall x :: x in t && x != id ==> t'[x] == t[x]
    ensures t'[id] == t[id].(checkout := checkout)
  {
    t[id := t[id].(checkout := checkout)]
  }

  /** Changing a node in place without touching its parent or kind keeps a
      tree well formed, with the same parent links. */
  lemma UpdateKeepsShape(t: Tree, id: NodeId, n: FileNode)
    requires WellFormed(t) && id in t
    requires n.parent == t[id].parent && n.kind == t[id].kind
    ensures TreeLinks(t[id := n]) == TreeLinks(t)
    ensures WellFormed(t[id := n])
  {
    assert TreeLinks(t[id := n]) == TreeLinks(t);
  }

  /** Whether a node is checked out changes only for the nodes above the one
      whose checkout was set: for any node not an ancestor of `id` (and not
      `id` itself) the answer stays what it was. */
  lemma SetCheckoutFrame(t: Tree, id: NodeId, checkout: Option<UserId>, x: NodeId)
    requires WellFormed(t) && id in t && x in t
    requires !InSubtree(TreeLinks(t), x, id)
    ensures WellFormed(SetCheckout(t, id, checkout))
    ensures IsCheckedOut(SetCheckout(t, id, checkout), x) == IsCheckedOut(t, x)
  {
    var t' := SetCheckout(t, id, checkout);
    UpdateKeepsShape(t, id, t[id].(checkout := checkout));
    CheckedOutIffLockBelow(t, x);
    CheckedOutIffLockBelow(t', x);
    if LockBelow(t, x) {
      var d :| InSubtree(TreeLinks(t), x, d) && t[d].checkout.Some?;
      assert t'[d] == t[d];
    }
    if LockBelow(t', x) {
      var d :| InSubtree(TreeLinks(t'), x, d) && t'[d].checkout.Some?;
      assert t'[d] == t[d];
    }
  }

  /** Checking a node out locks its whole lineage: the node and every folder
      above it report checked out, so none of them can be moved or deleted. */
  lemma CheckOutLocksLineage(t: Tree, id: NodeId, user: UserId, x: NodeId)
    requires WellFormed(t) && id in t
    requires x in Lineage(TreeLinks(t), id)
    ensures WellFormed(SetCheckout(t, id, Some(user)))
    ensures IsCheckedOut(SetCheckout(t, id, Some(user)), x)
  {
    var t' := SetCheckout(t, id, Some(user));
    UpdateKeepsShape(t, id, t[id].(checkout := Some(user)));
    assert InSubtree(TreeLinks(t'), x, id);
    CheckedOutIffLockBelow(t', x);
  }

  /** Once `user` has checked a node out, any other user without ADMIN on
      the project is refused, whatever they ask for. */
  lemma CheckedOutRefusesOthers(t: Tree, id: NodeId, user: UserId, other: UserId,
                                checkout: Option<UserId>, contributorPerms: set<Permission>,
                                perms: set<Permission>)
    requires WellFormed(t) && id in t
    requires other != user && Admin !in contributorPerms
    ensures WellFormed(SetCheckout(t, id, Some(user)))
    ensures Decide(SetCheckout(t, id, Some(user)), id, other, checkout, contributorPerms, perms) == Refused
  {
    var t' := SetCheckout(t, id, Some(user));
    UpdateKeepsShape(t, id, t[id].(checkout := Some(user)));
    assert IsCheckedOut(t', id);
  }

  /** The holder of a checkout who may write can always check the node back
      in, and the request is then a transition that clears the lock of a
      file. */
  lemma HolderChecksIn(t: Tree, id: NodeId, user: UserId, contributorPerms: set<Permission>,
                       perms: set<Permission>)
    requires WellFormed(t) && id in t
    requires t[id].checkout == Some(user) && Write in perms
    ensures Decide(t, id, user, None, contributorPerms, perms) == Transition(CheckedIn)
    ensures WellFormed(SetCheckout(t, id, None))
    ensures t[id].kind == File ==> !IsCheckedOut(SetCheckout(t, id, None), id)
  {
    UpdateKeepsShape(t, id, t[id].(checkout := None));
  }

  /** Checking in a node that is not checked out is never a transition: no
      checkout change and no log entry. */
  lemma CheckInFreeIsNoOp(t: Tree, id: NodeId, user: UserId, contributorPerms: set<Permission>,
                          perms: set<Permission>)
    requires WellFormed(t) && id in t && !IsCheckedOut(t, id)
    ensures Decide(t, id, user, None, contributorPerms, perms)
              == if Write in perms then NoChange else Refused
  {
  }

  /** A folder with a checked-out child still reports checked out after its
      own checkout is cleared: the check-in is logged, yet the lock below
      keeps the folder locked. */
  lemma FolderCheckInKeepsChildLock(t: Tree, id: NodeId, c: NodeId)
    requires WellFormed(t) && id in t && c in t
    requires t[c].parent == Some(id) && t[c].checkout.Some?
    ensures IsCheckedOut(t, id)
    ensures WellFormed(SetCheckout(t, id, None))
    ensures IsCheckedOut(SetCheckout(t, id, None), id)
  {
    var l := TreeLinks(t);
    var t' := SetCheckout(t, id, None);
    UpdateKeepsShape(t, id, t[id].(checkout := None));
    LineageStep(l, c);
    assert InSubtree(l, id, c);
    CheckedOutIffLockBelow(t, id);
    CheckedOutIffLockBelow(t', id);
    assert t'[c] == t[c];
  }
}
