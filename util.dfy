/** Reflection helpers over the scene tree (addons/nxr/scripts/util/Util.cs).
    Scene nodes are values: a node knows its runtime type, its parent and its owner,
    either of which may be null. A C# call that dereferences null is modelled as the
    outcome NullReference instead of a value. */
module Util {

  datatype Option<+T> = None | Some(value: T)

  /** What a C# expression yields: a value, or a NullReferenceException. */
  datatype Outcome<+T> = Returned(value: T) | NullReference

  /** How a void handler ends: normally, or by a NullReferenceException. */
  datatype Completion = Completed | NullReferenceThrown

  /** A runtime type: its name and the names of every base class and interface it has. */
  datatype Ty = Ty(name: string, supertypes: set<string>)

  /** A scene node: identity, runtime type, and the nullable Parent and Owner links. */
  datatype Node = Node(id: nat, runtimeType: Ty, parent: Option<Node>, owner: Option<Node>)

  /** Type.IsAssignableTo: the same type, a base class or an implemented interface. */
  predicate IsAssignableTo(from: Ty, to: Ty) {
    to.name == from.name || to.name in from.supertypes
  }

  /** NodeIs: false for a null node or a null type; otherwise whether the node's runtime
      type is assignable to the type. */
  function NodeIs(node: Option<Node>, ty: Option<Ty>): (r: bool)
    ensures node.None? || ty.None? ==> !r
    ensures node.Some? && ty.Some? ==> (r <==> IsAssignableTo(node.value.runtimeType, ty.value))
  {
    match (node, ty)
    case (Some(n), Some(t)) => IsAssignableTo(n.runtimeType, t)
    case _ => false
  }

  /** GetParentOrOwnerOfType: the parent if its type matches, else the owner if its type
      matches, else null. The parent (and, when the parent does not match, the owner) is
      dereferenced without a null check. */
  function GetParentOrOwnerOfType(node: Option<Node>, ty: Option<Ty>): (r: Outcome<Option<Node>>)
    ensures node.None? || ty.None? ==> r == Returned(None)
    // a non-null result is one of the two links and is assignable to the type
    ensures r.Returned? && r.value.Some? ==>
      ty.Some? && IsAssignableTo(r.value.value.runtimeType, ty.value) &&
      node.Some? && (Some(r.value.value) == node.value.parent || Some(r.value.value) == node.value.owner)
    // the parent wins, even when the owner matches too
    ensures node.Some? && ty.Some? && node.value.parent.Some? &&
            IsAssignableTo(node.value.parent.value.runtimeType, ty.value)
            ==> r == Returned(node.value.parent)
    // the owner is returned only when the parent does not match and the owner does
    ensures r.Returned? && r.value.Some? && node.Some? && Some(r.value.value) != node.value.parent ==>
      node.value.parent.Some? && !IsAssignableTo(node.value.parent.value.runtimeType, ty.value) &&
      r.value == node.value.owner
    // past a non-null parent that does not match, a non-null owner is returned exactly
    // when it matches
    ensures node.Some? && ty.Some? && node.value.parent.Some? &&
            !IsAssignableTo(node.value.parent.value.runtimeType, ty.value) && node.value.owner.Some? ==>
      r == Returned(if IsAssignableTo(node.value.owner.value.runtimeType, ty.value) then node.value.owner else None)
    // the lookup faults exactly when it reaches a null link
    ensures r.NullReference? <==>
      node.Some? && ty.Some? &&
      (node.value.parent.None? ||
       (!IsAssignableTo(node.value.parent.value.runtimeType, ty.value) && node.value.owner.None?))
  {
    if node.None? || ty.None? then Returned(None)
    else
      var n, t := node.value, ty.value;
      if n.parent.None? then NullReference
      else if IsAssignableTo(n.parent.value.runtimeType, t) then Returned(n.parent)
      else if n.owner.None? then NullReference
      else if IsAssignableTo(n.owner.value.runtimeType, t) then Returned(n.owner)
      else Returned(None)
  }

  /** GetNodeFromParentOrOwnerType: the same lookup through NodeIs, so a null parent or
      owner is "no match"; only the node itself is dereferenced unchecked. */
  function GetNodeFromParentOrOwnerType(node: Option<Node>, ty: Option<Ty>): (r: Outcome<Option<Node>>)
    ensures r.NullReference? <==> node.None?
    ensures r.Returned? && r.value.Some? ==> NodeIs(r.value, ty)
    ensures r.Returned? && r.value.Some? ==> r.value == node.value.parent || r.value == node.value.owner
    // a matching parent wins; a null or non-matching parent falls through to the owner
    ensures node.Some? && NodeIs(node.value.parent, ty) ==> r == Returned(node.value.parent)
    ensures node.Some? && !NodeIs(node.value.parent, ty) ==>
      r == Returned(if NodeIs(node.value.owner, ty) then node.value.owner else None)
    // wherever the unchecked lookup does not fault on a node, both lookups agree
    ensures node.Some? && GetParentOrOwnerOfType(node, ty).Returned? ==>
      r == GetParentOrOwnerOfType(node, ty)
  {
    if node.None? then NullReference
    else if NodeIs(node.value.parent, ty) then Returned(node.value.parent)
    else if NodeIs(node.value.owner, ty) then Returned(node.value.owner)
    else Returned(None)
  }

  /** When the node, the type and both links are non-null, the two lookups agree. */
  lemma LookupsAgreeOnCompleteNodes(node: Node, ty: Ty)
    requires node.parent.Some? && node.owner.Some?
    ensures GetNodeFromParentOrOwnerType(Some(node), Some(ty)) == GetParentOrOwnerOfType(Some(node), Some(ty))
  {
  }
}
