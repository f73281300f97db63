/**
 The layered-configuration operator of freqtrade/misc.py: a source tree laid over a destination tree.
 `Merge` is the mathematical meaning of the operator and `Mergeable` says when the program runs it without
 raising; the in-place program itself is in InPlaceMerge.dfy.
 */
module DeepMerge {
  import opened Outcomes

  // A JSON value. Scalars and lists are units: the operator never looks inside them.
  datatype Value =
    | Null
    | Scalar(text: string)
    | Names(items: seq<string>)
    | Dict(entries: map<string, Value>)

  type Tree = v: Value | v.Dict? witness Dict(map[])

  const EmptyTree: Tree := Dict(map[])

  // A value that is not a dictionary replaces whatever it meets, except that None may be told not to.
  predicate Rules(v: Value, allowNull: bool) {
    !v.Dict? && (v != Null || allowNull)
  }

  // Lay a source value over what the destination holds, if anything. A dictionary that meets something that
  // is not a dictionary leaves it alone; unless the dictionary is inert the program raises there.
  function Lay(s: Value, d: Option<Value>, allowNull: bool): Option<Value>
    decreases s, 2
  {
    if s.Dict? then
      if d.None? then Some(Merge(s, EmptyTree, allowNull))
      else if d.value.Dict? then Some(Merge(s, d.value, allowNull))
      else d
    else if Rules(s, allowNull) then Some(s)
    else d
  }

  function Slot(s: Tree, d: Tree, k: string, allowNull: bool): Option<Value>
    decreases s, 0
  {
    if k in s.entries then Lay(s.entries[k], Get(d.entries, k), allowNull) else Get(d.entries, k)
  }

  function Merge(s: Tree, d: Tree, allowNull: bool): Tree
    decreases s, 1
  {
    Dict(map k | k in s.entries.Keys + d.entries.Keys && Slot(s, d, k, allowNull).Some?
           :: Slot(s, d, k, allowNull).value)
  }

  // The same, when the source may have nothing to lay.
  function Overlay(s: Option<Value>, d: Option<Value>, allowNull: bool): Option<Value> {
    if s.None? then d else Lay(s.value, d, allowNull)
  }

  // Nothing in this dictionary would be written: only skipped None values.
  predicate Inert(s: Tree, allowNull: bool) {
    forall k :: k in s.entries ==> s.entries[k] == Null && !allowNull
  }

  // The program raises exactly when a dictionary that writes something meets a non-dictionary.
  predicate Fits(s: Value, d: Option<Value>, allowNull: bool)
    decreases s, 1
  {
    s.Dict? && d.Some? ==>
      if d.value.Dict? then Mergeable(s, d.value, allowNull) else Inert(s, allowNull)
  }

  predicate Mergeable(s: Tree, d: Tree, allowNull: bool)
    decreases s, 0
  {
    forall k :: k in s.entries ==> Fits(s.entries[k], Get(d.entries, k), allowNull)
  }

  // ---- one key at a time ----

  lemma MergeGet(s: Tree, d: Tree, k: string, allowNull: bool)
    ensures Get(Merge(s, d, allowNull).entries, k) == Overlay(Get(s.entries, k), Get(d.entries, k), allowNull)
  {
    var m := Merge(s, d, allowNull).entries;
    assert k in m <==> k in s.entries.Keys + d.entries.Keys && Slot(s, d, k, allowNull).Some?;
    assert k in m ==> m[k] == Slot(s, d, k, allowNull).value;
  }

  lemma SameTrees(t: Tree, u: Tree)
    requires forall k :: Get(t.entries, k) == Get(u.entries, k)
    ensures t == u
  {
    SameLookups(t.entries, u.entries);
  }

  lemma MergeEmptyDestination(t: Tree)
    ensures Merge(t, EmptyTree, true) == t
  {
    forall k ensures Get(Merge(t, EmptyTree, true).entries, k) == Get(t.entries, k) {
      MergeGet(t, EmptyTree, k, true);
      if k in t.entries && t.entries[k].Dict? {
        MergeEmptyDestination(t.entries[k]);
      }
    }
    SameTrees(Merge(t, EmptyTree, true), t);
  }

  lemma MergeEmptySource(t: Tree, allowNull: bool)
    ensures Merge(EmptyTree, t, allowNull) == t
  {
    forall k ensures Get(Merge(EmptyTree, t, allowNull).entries, k) == Get(t.entries, k) {
      MergeGet(EmptyTree, t, k, allowNull);
    }
    SameTrees(Merge(EmptyTree, t, allowNull), t);
  }

  // ---- associativity ----

  // A dictionary never sits over an explicit None: the one shape on which skipping None breaks associativity.
  predicate ClearOfNull(c: Value, b: Option<Value>)
    decreases c
  {
    c.Dict? && b.Some? ==>
      b.value != Null &&
      (b.value.Dict? ==> forall k :: k in c.entries ==> ClearOfNull(c.entries[k], Get(b.value.entries, k)))
  }

  lemma {:induction false} LayAssociative(c: Value, b: Option<Value>, a: Option<Value>, allowNull: bool)
    requires allowNull || ClearOfNull(c, b)
    ensures Lay(c, Overlay(b, a, allowNull), allowNull) == Overlay(Lay(c, b, allowNull), a, allowNull)
    decreases c, 1
  {
    if c.Dict? && (b.None? || b.value.Dict?) && (a.None? || a.value.Dict?) {
      var below := if a.Some? then a.value else EmptyTree;
      if b.Some? {
        MergeAssociative(c, b.value, below, allowNull);
      } else {
        MergeIntoEmptyTwice(c, below, allowNull);
      }
    }
  }

  // Building a fresh copy of the source first and laying that copy down changes nothing.
  lemma {:induction false} MergeIntoEmptyTwice(s: Tree, d: Tree, allowNull: bool)
    ensures Merge(Merge(s, EmptyTree, allowNull), d, allowNull) == Merge(s, d, allowNull)
  {
    var copy := Merge(s, EmptyTree, allowNull);
    forall k ensures Get(Merge(copy, d, allowNull).entries, k) == Get(Merge(s, d, allowNull).entries, k) {
      MergeGet(copy, d, k, allowNull);
      MergeGet(s, d, k, allowNull);
      MergeGet(s, EmptyTree, k, allowNull);
      if k in s.entries && s.entries[k].Dict? {
        MergeIntoEmptyTwice(s.entries[k], EmptyTree, allowNull);
        if k in d.entries && d.entries[k].Dict? {
          MergeIntoEmptyTwice(s.entries[k], d.entries[k], allowNull);
        }
      }
    }
    SameTrees(Merge(copy, d, allowNull), Merge(s, d, allowNull));
  }

  lemma {:induction false} MergeAssociative(c: Tree, b: Tree, a: Tree, allowNull: bool)
    requires allowNull || ClearOfNull(c, Some(b))
    ensures Merge(c, Merge(b, a, allowNull), allowNull) == Merge(Merge(c, b, allowNull), a, allowNull)
    decreases c, 0
  {
    var left := Merge(c, Merge(b, a, allowNull), allowNull);
    var right := Merge(Merge(c, b, allowNull), a, allowNull);
    forall k ensures Get(left.entries, k) == Get(right.entries, k) {
      MergeGet(b, a, k, allowNull);
      MergeGet(c, Merge(b, a, allowNull), k, allowNull);
      MergeGet(c, b, k, allowNull);
      MergeGet(Merge(c, b, allowNull), a, k, allowNull);
      if k in c.entries {
        LayAssociative(c.entries[k], Get(b.entries, k), Get(a.entries, k), allowNull);
      }
    }
    SameTrees(left, right);
  }

  // The order of raising: whenever the nested application goes through, so does the flattened one.
  lemma {:induction false} FitsAssociative(c: Value, b: Option<Value>, a: Option<Value>)
    requires b.Some? ==> Fits(b.value, a, true)
    requires Fits(c, Overlay(b, a, true), true)
    ensures Fits(c, b, true) && Fits(Lay(c, b, true).value, a, true)
    decreases c, 1
  {
    if c.Dict? && (b.None? || b.value.Dict?) && (a.None? || a.value.Dict?) {
      var below := if a.Some? then a.value else EmptyTree;
      var middle := if b.Some? then b.value else EmptyTree;
      MergeEmptySource(below, true);
      assert Mergeable(EmptyTree, below, true);
      MergeableAssociative(c, middle, below);
    } else if c.Dict? && b.Some? && b.value.Dict? {
      MergeInertSource(c, b.value);
    } else if c.Dict? && b.None? {
      MergeEmptyDestination(c);
    }
  }

  lemma MergeInertSource(s: Tree, d: Tree)
    requires Inert(s, true)
    ensures Merge(s, d, true) == d && Mergeable(s, d, true)
  {
    assert s.entries == map[] by {
      assert forall k :: k in s.entries ==> false;
    }
    assert s == EmptyTree;
    MergeEmptySource(d, true);
  }

  lemma {:induction false} MergeableAssociative(c: Tree, b: Tree, a: Tree)
    requires Mergeable(b, a, true) && Mergeable(c, Merge(b, a, true), true)
    ensures Mergeable(c, b, true) && Mergeable(Merge(c, b, true), a, true)
    decreases c, 0
  {
    forall k | k in c.entries
      ensures Fits(c.entries[k], Get(b.entries, k), true)
      ensures Fits(Lay(c.entries[k], Get(b.entries, k), true).value, Get(a.entries, k), true)
    {
      MergeGet(b, a, k, true);
      FitsAssociative(c.entries[k], Get(b.entries, k), Get(a.entries, k));
    }
    var cb := Merge(c, b, true);
    forall k | k in cb.entries ensures Fits(cb.entries[k], Get(a.entries, k), true) {
      MergeGet(c, b, k, true);
    }
  }

  // Outside that shape associativity does fail when None is skipped: the None in the middle layer keeps the
  // dictionary of the top layer out, and is then dropped itself. So it holds over every bottom layer exactly
  // on that shape.
  lemma SkippedNullAssociativeExactly(c: Tree, b: Tree)
    ensures ClearOfNull(c, Some(b)) <==>
            forall a: Tree :: Merge(c, Merge(b, a, false), false) == Merge(Merge(c, b, false), a, false)
  {
    if ClearOfNull(c, Some(b)) {
      forall a: Tree ensures Merge(c, Merge(b, a, false), false) == Merge(Merge(c, b, false), a, false) {
        MergeAssociative(c, b, a, false);
      }
    } else {
      SkippedNullBreaksAssociativity(c, b);
    }
  }

  lemma {:induction false} SkippedNullBreaksAssociativity(c: Tree, b: Tree)
    requires !ClearOfNull(c, Some(b))
    ensures Merge(c, Merge(b, EmptyTree, false), false) != Merge(Merge(c, b, false), EmptyTree, false)
    decreases c
  {
    var k :| k in c.entries && !ClearOfNull(c.entries[k], Get(b.entries, k));
    MergeGet(b, EmptyTree, k, false);
    MergeGet(c, Merge(b, EmptyTree, false), k, false);
    MergeGet(c, b, k, false);
    MergeGet(Merge(c, b, false), EmptyTree, k, false);
    if b.entries[k].Dict? {
      SkippedNullBreaksAssociativity(c.entries[k], b.entries[k]);
    }
  }

  // ---- idempotence ----

  lemma {:induction false} MergeIdempotent(s: Tree, d: Tree, allowNull: bool)
    ensures Merge(s, Merge(s, d, allowNull), allowNull) == Merge(s, d, allowNull)
    ensures Mergeable(s, d, allowNull) ==> Mergeable(s, Merge(s, d, allowNull), allowNull)
  {
    var once := Merge(s, d, allowNull);
    forall k
      ensures Get(Merge(s, once, allowNull).entries, k) == Get(once.entries, k)
      ensures Mergeable(s, d, allowNull) && k in s.entries ==> Fits(s.entries[k], Get(once.entries, k), allowNull)
    {
      MergeGet(s, d, k, allowNull);
      MergeGet(s, once, k, allowNull);
      if k in s.entries && s.entries[k].Dict? {
        assert Mergeable(s, d, allowNull) ==> Fits(s.entries[k], Get(d.entries, k), allowNull);
        if k !in d.entries {
          assert Mergeable(s.entries[k], EmptyTree, allowNull);
          MergeIdempotent(s.entries[k], EmptyTree, allowNull);
        } else if d.entries[k].Dict? {
          MergeIdempotent(s.entries[k], d.entries[k], allowNull);
        }
      }
    }
    SameTrees(Merge(s, once, allowNull), once);
  }

  // ---- skipping None ----

  // The tree without its None leaves.
  function DropNulls(t: Tree): Tree {
    Dict(map k | k in t.entries && t.entries[k] != Null
           :: if t.entries[k].Dict? then DropNulls(t.entries[k]) else t.entries[k])
  }

  // With None overrides off, laying a tree down is laying down the tree without its None leaves.
  lemma {:induction false} NullsNeverOverride(s: Tree, d: Tree)
    ensures Merge(s, d, false) == Merge(DropNulls(s), d, true)
    ensures Mergeable(s, d, false) <==> Mergeable(DropNulls(s), d, true)
  {
    var t := DropNulls(s);
    forall k
      ensures Get(Merge(s, d, false).entries, k) == Get(Merge(t, d, true).entries, k)
      ensures k in t.entries ==>
                Fits(s.entries[k], Get(d.entries, k), false) == Fits(t.entries[k], Get(d.entries, k), true)
      ensures k in s.entries && k !in t.entries ==> Fits(s.entries[k], Get(d.entries, k), false)
    {
      MergeGet(s, d, k, false);
      MergeGet(t, d, k, true);
      if k in s.entries && s.entries[k].Dict? {
        NullsNeverOverride(s.entries[k], if k in d.entries && d.entries[k].Dict? then d.entries[k] else EmptyTree);
        DropNullsEmpty(s.entries[k]);
      }
    }
    SameTrees(Merge(s, d, false), Merge(t, d, true));
  }

  lemma DropNullsEmpty(t: Tree)
    ensures Inert(t, false) <==> Inert(DropNulls(t), true)
  {
    assert forall k :: k in DropNulls(t).entries <==> k in t.entries && t.entries[k] != Null;
  }

  // ---- the path law ----

  function Lookup(v: Value, path: seq<string>): Option<Value>
    decreases path
  {
    if path == [] then Some(v)
    else if v.Dict? && path[0] in v.entries then Lookup(v.entries[path[0]], path[1..])
    else None
  }

  // A value of the source that replaces everything below it sits on the path, strictly above its end.
  predicate Covered(s: Value, path: seq<string>, allowNull: bool)
    decreases path
  {
    path != [] &&
    if s.Dict? then path[0] in s.entries && Covered(s.entries[path[0]], path[1..], allowNull)
    else Rules(s, allowNull)
  }

  // What a merged tree holds at any path: the source's value where it rules, the destination's where the
  // source is silent, and the merge of the two subtrees where both are dictionaries.
  lemma {:induction false} PathLaw(s: Tree, d: Tree, path: seq<string>, allowNull: bool)
    requires Mergeable(s, d, allowNull)
    ensures Lookup(Merge(s, d, allowNull), path) ==
              if Covered(s, path, allowNull) then None
              else Overlay(Lookup(s, path), Lookup(d, path), allowNull)
    decreases path
  {
    if path != [] {
      var k, rest := path[0], path[1..];
      var m := Merge(s, d, allowNull);
      MergeGet(s, d, k, allowNull);
      if k in s.entries && s.entries[k].Dict? {
        if k !in d.entries {
          assert Mergeable(s.entries[k], EmptyTree, allowNull);
          PathLaw(s.entries[k], EmptyTree, rest, allowNull);
        } else if d.entries[k].Dict? {
          PathLaw(s.entries[k], d.entries[k], rest, allowNull);
        } else if rest != [] {
          InertPath(s.entries[k], rest, allowNull);
        }
      }
    }
  }

  lemma InertPath(s: Tree, path: seq<string>, allowNull: bool)
    requires Inert(s, allowNull) && path != []
    ensures !Covered(s, path, allowNull)
    ensures Overlay(Lookup(s, path), None, allowNull) == None
  {
    if path[0] in s.entries {
      assert s.entries[path[0]] == Null;
    }
  }

  // ---- who wins ----

  // A leaf that the source may write: anything but a dictionary, and but None where None is skipped.
  ghost predicate LeafAt(s: Value, path: seq<string>, allowNull: bool) {
    Lookup(s, path).Some? && !Lookup(s, path).value.Dict? && (allowNull || Lookup(s, path).value != Null)
  }

  // There is no such leaf above the path, and nothing to write at it or below.
  ghost predicate SaysNothing(s: Value, path: seq<string>, allowNull: bool) {
    && (Lookup(s, path).None? || (Lookup(s, path).value == Null && !allowNull))
    && forall n :: 0 <= n < |path| ==> !LeafAt(s, path[..n], allowNull)
  }

  lemma {:induction false} FoundIsNotCovered(s: Value, path: seq<string>, allowNull: bool)
    requires Lookup(s, path).Some?
    ensures !Covered(s, path, allowNull)
    decreases path
  {
    if path != [] {
      FoundIsNotCovered(s.entries[path[0]], path[1..], allowNull);
    }
  }

  lemma {:induction false} CoveredByLeaf(s: Value, path: seq<string>, allowNull: bool)
    requires Covered(s, path, allowNull)
    ensures exists n :: 0 <= n < |path| && LeafAt(s, path[..n], allowNull)
    decreases path
  {
    if s.Dict? {
      var k, rest := path[0], path[1..];
      CoveredByLeaf(s.entries[k], rest, allowNull);
      var n :| 0 <= n < |rest| && LeafAt(s.entries[k], rest[..n], allowNull);
      assert path[..n + 1][0] == k && path[..n + 1][1..] == rest[..n];
      assert LeafAt(s, path[..n + 1], allowNull);
    } else {
      assert LeafAt(s, path[..0], allowNull);
    }
  }

  // A leaf of the source is found in the result, whatever the destination held there.
  lemma SourceLeafWins(s: Tree, d: Tree, path: seq<string>, allowNull: bool)
    requires Mergeable(s, d, allowNull) && LeafAt(s, path, allowNull)
    ensures Lookup(Merge(s, d, allowNull), path) == Lookup(s, path)
  {
    PathLaw(s, d, path, allowNull);
    FoundIsNotCovered(s, path, allowNull);
  }

  // Where the source says nothing, the result is what the destination held.
  lemma DestinationStays(s: Tree, d: Tree, path: seq<string>, allowNull: bool)
    requires Mergeable(s, d, allowNull) && SaysNothing(s, path, allowNull)
    ensures Lookup(Merge(s, d, allowNull), path) == Lookup(d, path)
  {
    PathLaw(s, d, path, allowNull);
    if Covered(s, path, allowNull) {
      CoveredByLeaf(s, path, allowNull);
    }
  }

  // The program raises exactly when a dictionary that is not empty, up to skipped None values, meets a value of
  // the destination that is none.
  lemma {:induction false} RaisesExactly(s: Tree, d: Tree, allowNull: bool)
    ensures Mergeable(s, d, allowNull) <==> forall path :: !Clash(s, d, path, allowNull)
    decreases s
  {
    if Mergeable(s, d, allowNull) {
      forall path ensures !Clash(s, d, path, allowNull) {
        NoClash(s, d, path, allowNull);
      }
    }
    if forall path :: !Clash(s, d, path, allowNull) {
      forall k | k in s.entries ensures Fits(s.entries[k], Get(d.entries, k), allowNull) {
        if s.entries[k].Dict? && k in d.entries {
          forall path
            ensures Clash(s, d, [k] + path, allowNull) == Clash(s.entries[k], d.entries[k], path, allowNull)
          {
            LookupBelow(s, k, path);
            LookupBelow(d, k, path);
          }
          if d.entries[k].Dict? {
            forall path ensures !Clash(s.entries[k], d.entries[k], path, allowNull) {
              assert !Clash(s, d, [k] + path, allowNull);
            }
            RaisesExactly(s.entries[k], d.entries[k], allowNull);
          } else {
            assert !Clash(s, d, [k] + [], allowNull);
            NoClashHere(s.entries[k], d.entries[k], allowNull);
          }
        }
      }
    }
  }

  lemma NoClashHere(s: Value, d: Value, allowNull: bool)
    requires s.Dict? && !d.Dict? && !Clash(s, d, [], allowNull)
    ensures Inert(s, allowNull)
  {
    assert Lookup(s, []) == Some(s) && Lookup(d, []) == Some(d);
    forall k | k in s.entries ensures s.entries[k] == Null && !allowNull {
    }
  }

  lemma LookupBelow(v: Value, k: string, path: seq<string>)
    requires v.Dict? && k in v.entries
    ensures Lookup(v, [k] + path) == Lookup(v.entries[k], path)
  {
    assert ([k] + path)[1..] == path;
  }

  ghost predicate Clash(s: Value, d: Value, path: seq<string>, allowNull: bool) {
    && Lookup(s, path).Some? && Lookup(s, path).value.Dict?
    && Lookup(d, path).Some? && !Lookup(d, path).value.Dict?
    && exists k :: k in Lookup(s, path).value.entries && (allowNull || Lookup(s, path).value.entries[k] != Null)
  }

  lemma {:induction false} NoClash(s: Tree, d: Tree, path: seq<string>, allowNull: bool)
    requires Mergeable(s, d, allowNull)
    ensures !Clash(s, d, path, allowNull)
    decreases path
  {
    if path != [] && path[0] in s.entries && path[0] in d.entries {
      var k := path[0];
      assert Fits(s.entries[k], Get(d.entries, k), allowNull);
      assert Lookup(s, path) == Lookup(s.entries[k], path[1..]) && Lookup(d, path) == Lookup(d.entries[k], path[1..]);
      if s.entries[k].Dict? && d.entries[k].Dict? {
        NoClash(s.entries[k], d.entries[k], path[1..], allowNull);
      } else if path[1..] != [] {
        assert Lookup(s.entries[k], path[1..]).None? || Lookup(d.entries[k], path[1..]).None?;
      }
    }
  }

  // A clash that is none, with nothing to write, leaves the value of the destination.
  lemma EmptyDictionaryYields(s: Tree, d: Tree, path: seq<string>, allowNull: bool)
    requires Mergeable(s, d, allowNull)
    requires Lookup(s, path).Some? && Lookup(s, path).value.Dict?
    requires Lookup(d, path).Some? && !Lookup(d, path).value.Dict?
    ensures Lookup(Merge(s, d, allowNull), path) == Lookup(d, path)
  {
    PathLaw(s, d, path, allowNull);
    FoundIsNotCovered(s, path, allowNull);
  }

  // ---- trees of one shape ----

  // A shape says of every path whether a dictionary belongs there.
  type Shape = seq<string> -> bool

  predicate Conforms(t: Tree, shape: Shape, at: seq<string>)
    decreases t
  {
    forall k :: k in t.entries ==>
      t.entries[k].Dict? == shape(at + [k]) && (t.entries[k].Dict? ==> Conforms(t.entries[k], shape, at + [k]))
  }

  // Trees of one shape always merge, and the result keeps the shape.
  lemma {:induction false} SameShapeMerges(s: Tree, d: Tree, shape: Shape, at: seq<string>, allowNull: bool)
    requires Conforms(s, shape, at) && Conforms(d, shape, at)
    ensures Mergeable(s, d, allowNull) && Conforms(Merge(s, d, allowNull), shape, at)
  {
    var m := Merge(s, d, allowNull);
    forall k
      ensures k in s.entries ==> Fits(s.entries[k], Get(d.entries, k), allowNull)
      ensures k in m.entries ==>
                m.entries[k].Dict? == shape(at + [k]) &&
                (m.entries[k].Dict? ==> Conforms(m.entries[k], shape, at + [k]))
    {
      MergeGet(s, d, k, allowNull);
      if k in s.entries && s.entries[k].Dict? {
        var below := if k in d.entries then d.entries[k] else EmptyTree;
        SameShapeMerges(s.entries[k], below, shape, at + [k], allowNull);
      }
    }
  }

  // ---- leaving one key out ----

  function Without(t: Tree, key: string): Tree {
    Dict(t.entries - {key})
  }

  lemma MergeWithout(s: Tree, d: Tree, key: string, allowNull: bool)
    ensures Without(Merge(s, d, allowNull), key) == Merge(Without(s, key), Without(d, key), allowNull)
  {
    var left, right := Without(Merge(s, d, allowNull), key), Merge(Without(s, key), Without(d, key), allowNull);
    forall k ensures Get(left.entries, k) == Get(right.entries, k) {
      MergeGet(s, d, k, allowNull);
      MergeGet(Without(s, key), Without(d, key), k, allowNull);
    }
    SameTrees(left, right);
  }
}
