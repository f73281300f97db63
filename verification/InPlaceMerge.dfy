/**
 deep_merge_dicts as the program runs it: dictionaries are mutable objects, the destination is updated in
 place at every level, and missing sub-dictionaries are created on the way. The method is proved against the
 pure `Merge` of DeepMerge.dfy; its frame says that no dictionary of the source is touched or shared.
 */
module InPlaceMerge {
  import opened Outcomes
  import opened DeepMerge

  datatype Cell = Unit(value: Value) | Child(node: DictNode)

  class DictNode {
    var entries: map<string, Cell>
    ghost var tree: Tree          // the value this dictionary stands for
    ghost var Repr: set<DictNode> // this dictionary and every dictionary below it

    ghost predicate Valid()
      reads this, Repr
      ensures Valid() ==> this in Repr
      decreases Repr
    {
      && this in Repr
      && tree.entries.Keys == entries.Keys
      && (forall k :: k in entries ==>
            match entries[k]
            case Unit(v) => !v.Dict? && tree.entries[k] == v
            case Child(n) =>
              n in Repr && n.Repr < Repr && this !in n.Repr && n.Valid() && tree.entries[k] == n.tree)
      && (forall k, l :: k in entries && l in entries && k != l && entries[k].Child? && entries[l].Child? ==>
            entries[k].node.Repr !! entries[l].node.Repr)
    }

    constructor ()
      ensures Valid() && fresh(Repr) && tree == EmptyTree
    {
      entries := map[];
      tree := EmptyTree;
      Repr := {this};
    }

    method Put(k: string, v: Value)
      requires Valid() && !v.Dict?
      modifies this
      ensures Valid() && Repr == old(Repr)
      ensures tree == Dict(old(tree).entries[k := v])
    {
      entries := entries[k := Unit(v)];
      tree := Dict(tree.entries[k := v]);
    }

    // setdefault(k, {}) on a key that is not there.
    method Adopt(k: string, n: DictNode)
      requires Valid() && n.Valid() && n.Repr !! Repr && k !in entries
      modifies this
      ensures Valid() && Repr == old(Repr) + n.Repr
      ensures entries == old(entries)[k := Child(n)] && tree == Dict(old(tree).entries[k := n.tree])
    {
      entries := entries[k := Child(n)];
      tree := Dict(tree.entries[k := n.tree]);
      Repr := Repr + n.Repr;
    }

    // Merging this dictionary into something that is no dictionary would be an error.
    method Writes(allowNull: bool) returns (writes: bool)
      requires Valid()
      ensures writes <==> !Inert(tree, allowNull)
    {
      writes := exists k :: k in entries && (entries[k] != Unit(Null) || allowNull);
      assert forall k :: k in entries ==> (entries[k] == Unit(Null) <==> tree.entries[k] == Null);
    }

    // Valid, but for a child whose subtree has just been changed.
    ghost predicate ValidAround(k: string)
      requires k in entries && entries[k].Child?
      reads this, Repr, entries[k].node, entries[k].node.Repr
    {
      && this in Repr
      && tree.entries.Keys == entries.Keys
      && entries[k].node.Valid() && this !in entries[k].node.Repr
      && (forall l :: l in entries && l != k ==>
            match entries[l]
            case Unit(v) => !v.Dict? && tree.entries[l] == v
            case Child(n) =>
              n in Repr && n.Repr < Repr && this !in n.Repr && n.Valid() && tree.entries[l] == n.tree &&
              n.Repr !! entries[k].node.Repr)
      && (forall l, m :: l in entries && m in entries && l != m && l != k && m != k
                         && entries[l].Child? && entries[m].Child? ==>
            entries[l].node.Repr !! entries[m].node.Repr)
    }

    ghost method Absorb(k: string)
      requires k in entries && entries[k].Child? && ValidAround(k)
      modifies this`tree, this`Repr
      ensures Valid() && Repr == old(Repr) + entries[k].node.Repr
      ensures tree == Dict(old(tree).entries[k := entries[k].node.tree])
    {
      tree := Dict(tree.entries[k := entries[k].node.tree]);
      Repr := Repr + entries[k].node.Repr;
    }
  }

  // One key of the loop whose source value is a dictionary: get or create the destination node and merge into it.
  method MergeBelow(below: DictNode, destination: DictNode, k: string, allowNull: bool) returns (raised: bool)
    requires below.Valid() && destination.Valid() && below.Repr !! destination.Repr
    modifies destination.Repr
    ensures raised <==> !Fits(below.tree, old(Get(destination.tree.entries, k)), allowNull)
    ensures destination.Valid() && fresh(destination.Repr - old(destination.Repr))
    ensures !raised ==> Stored(destination.tree, old(destination.tree), k,
                               Lay(below.tree, old(Get(destination.tree.entries, k)), allowNull).value)
    decreases below.tree, 3
  {
    if k !in destination.entries {
      CreateAndMerge(below, destination, k, allowNull);
      raised := false;
    } else if destination.entries[k].Unit? {
      raised := below.Writes(allowNull);
    } else {
      raised := MergeIntoChild(below, destination, k, allowNull);
    }
  }

  ghost predicate Stored(now: Tree, before: Tree, k: string, v: Value) {
    forall l :: Get(now.entries, l) == if l == k then Some(v) else Get(before.entries, l)
  }

  method CreateAndMerge(below: DictNode, destination: DictNode, k: string, allowNull: bool)
    requires below.Valid() && destination.Valid() && below.Repr !! destination.Repr
    requires k !in destination.entries
    modifies destination.Repr
    ensures destination.Valid() && fresh(destination.Repr - old(destination.Repr))
    ensures Stored(destination.tree, old(destination.tree), k, Merge(below.tree, EmptyTree, allowNull))
    decreases below.tree, 2
  {
    var node := new DictNode();
    destination.Adopt(k, node);
    assert Mergeable(below.tree, EmptyTree, allowNull);
    var raised := MergeIntoChild(below, destination, k, allowNull);
  }

  method MergeIntoChild(below: DictNode, destination: DictNode, k: string, allowNull: bool) returns (raised: bool)
    requires below.Valid() && destination.Valid() && below.Repr !! destination.Repr
    requires k in destination.entries && destination.entries[k].Child?
    modifies destination.Repr
    ensures raised <==> !Mergeable(below.tree, old(destination.tree).entries[k], allowNull)
    ensures destination.Valid() && fresh(destination.Repr - old(destination.Repr))
    ensures !raised ==> Stored(destination.tree, old(destination.tree), k,
                               Merge(below.tree, old(destination.tree).entries[k], allowNull))
    decreases below.tree, 1
  {
    var node := destination.entries[k].node;
    raised := DeepMergeDicts(below, node, allowNull);
    destination.Absorb(k);
  }

  method DeepMergeDicts(source: DictNode, destination: DictNode, allowNull: bool) returns (raised: bool)
    requires source.Valid() && destination.Valid() && source.Repr !! destination.Repr
    modifies destination.Repr
    ensures raised <==> !Mergeable(source.tree, old(destination.tree), allowNull)
    ensures destination.Valid() && fresh(destination.Repr - old(destination.Repr))
    ensures !raised ==> destination.tree == Merge(source.tree, old(destination.tree), allowNull)
    decreases source.tree, 0, 1
  {
    ghost var before := destination.tree;
    var todo := source.entries.Keys;
    while todo != {}
      invariant todo <= source.entries.Keys
      invariant destination.Valid() && fresh(destination.Repr - old(destination.Repr))
      invariant Progress(source.tree, before, destination.tree, todo, allowNull)
      decreases todo
    {
      var k :| k in todo;
      ghost var now := destination.tree;
      raised := MergeKey(source, destination, k, allowNull);
      if raised {
        return;
      }
      ProgressStep(source.tree, before, now, destination.tree, todo, k, allowNull);
      todo := todo - {k};
    }
    Finished(source.tree, before, destination.tree, allowNull);
    raised := false;
  }

  // The body of the loop.
  method MergeKey(source: DictNode, destination: DictNode, k: string, allowNull: bool) returns (raised: bool)
    requires source.Valid() && destination.Valid() && source.Repr !! destination.Repr && k in source.entries
    modifies destination.Repr
    ensures raised <==> !Fits(source.tree.entries[k], old(Get(destination.tree.entries, k)), allowNull)
    ensures destination.Valid() && fresh(destination.Repr - old(destination.Repr))
    ensures !raised ==> Laid(source.tree, old(destination.tree), destination.tree, k, allowNull)
    decreases source.tree, 0, 0
  {
    match source.entries[k] {
      case Child(below) =>
        raised := MergeBelow(below, destination, k, allowNull);
      case Unit(v) =>
        raised := false;
        if v != Null || allowNull {
          destination.Put(k, v);
        }
    }
  }

  // Key `k` has been laid down and every other key is as it was.
  ghost predicate Laid(s: Tree, before: Tree, now: Tree, k: string, allowNull: bool)
    requires k in s.entries
  {
    forall l :: Get(now.entries, l) ==
                if l == k then Lay(s.entries[k], Get(before.entries, k), allowNull) else Get(before.entries, l)
  }

  // The keys outside `todo` have been merged, the others are as they were.
  ghost predicate Progress(s: Tree, before: Tree, now: Tree, todo: set<string>, allowNull: bool) {
    && (forall k :: Get(now.entries, k) ==
                    if k in s.entries && k !in todo then Lay(s.entries[k], Get(before.entries, k), allowNull)
                    else Get(before.entries, k))
    && forall k :: k in s.entries && k !in todo ==> Fits(s.entries[k], Get(before.entries, k), allowNull)
  }

  lemma ProgressStep(s: Tree, before: Tree, now: Tree, next: Tree, todo: set<string>, k: string, allowNull: bool)
    requires Progress(s, before, now, todo, allowNull) && k in todo && k in s.entries
    requires Fits(s.entries[k], Get(now.entries, k), allowNull) && Laid(s, now, next, k, allowNull)
    ensures Progress(s, before, next, todo - {k}, allowNull)
  {
  }

  lemma Finished(s: Tree, before: Tree, now: Tree, allowNull: bool)
    requires Progress(s, before, now, {}, allowNull)
    ensures Mergeable(s, before, allowNull) && now == Merge(s, before, allowNull)
  {
    forall k ensures Get(now.entries, k) == Get(Merge(s, before, allowNull).entries, k) {
      MergeGet(s, before, k, allowNull);
    }
    SameTrees(now, Merge(s, before, allowNull));
  }
}
