/**
 freqtrade/configuration/environment_vars.py: flat FREQTRADE__section__key variables become one nested tree,
 built by merging one single-branch tree after another.
 */
module EnvVars {
  import opened Outcomes
  import opened DeepMerge

  type Leaf = v: Value | !v.Dict? witness Null

  // ---- names ----

  predicate StartsWith(s: string, p: string) {
    |p| <= |s| && s[..|p|] == p
  }

  // str.replace(p, "")
  function Removed(s: string, p: string): string {
    if p == "" || |s| < |p| then s
    else if s[..|p|] == p then Removed(s[|p|..], p)
    else [s[0]] + Removed(s[1..], p)
  }

  // str.split("__")
  function Split(s: string): (parts: seq<string>)
    ensures parts != []
  {
    if s == "" then [""]
    else if StartsWith(s, "__") then [""] + Split(s[2..])
    else var rest := Split(s[1..]); [[s[0]] + rest[0]] + rest[1..]
  }

  function Lower(s: string): string {
    seq(|s|, i requires 0 <= i < |s| => if 'A' <= s[i] <= 'Z' then s[i] - 'A' + 'a' else s[i])
  }

  const NO_CONVERT := ["CHAT_ID", "PASSWORD"]
  const CCXT_KEYS := ["ccxt_config", "ccxt_sync_config", "ccxt_async_config"]

  predicate PreserveCase(parts: seq<string>)
    requires parts != []
  {
    Lower(parts[0]) == "exchange" && exists i :: 0 <= i < |parts| && Lower(parts[i]) in CCXT_KEYS
  }

  function KeyName(parts: seq<string>, i: nat): string
    requires i < |parts|
  {
    if PreserveCase(parts) && i == |parts| - 1 then parts[i] else Lower(parts[i])
  }

  // ---- one variable ----

  // Where a variable goes and what it says there.
  datatype Entry = Entry(path: seq<string>, value: Leaf)

  ghost function EntryOf(name: string, val: string, prefix: string, typed: string -> Leaf): Entry {
    var parts := Split(Removed(name, prefix));
    Entry(seq(|parts|, i requires 0 <= i < |parts| => KeyName(parts, i)),
          if parts[|parts| - 1] in NO_CONVERT then Scalar(val) else typed(val))
  }

  ghost function Nest(path: seq<string>, v: Leaf): Tree
    requires path != []
  {
    Dict(map[path[0] := if |path| == 1 then v else Nest(path[1..], v)])
  }

  // ---- all of them ----

  ghost function Relevant(vars: seq<(string, string)>, prefix: string, typed: string -> Leaf): seq<Entry> {
    if vars == [] then []
    else
      var (name, val) := vars[|vars| - 1];
      Relevant(vars[..|vars| - 1], prefix, typed)
      + if StartsWith(name, prefix) then [EntryOf(name, val, prefix, typed)] else []
  }

  ghost predicate Paths(es: seq<Entry>) {
    forall i :: 0 <= i < |es| ==> es[i].path != []
  }

  ghost function NestAll(es: seq<Entry>): Tree
    requires Paths(es)
  {
    if es == [] then EmptyTree
    else
      var last := es[|es| - 1];
      Merge(Nest(last.path, last.value), NestAll(es[..|es| - 1]), true)
  }

  // The merges go through without raising.
  ghost predicate Builds(es: seq<Entry>)
    requires Paths(es)
  {
    es != [] ==>
      var last := es[|es| - 1];
      Builds(es[..|es| - 1]) && Mergeable(Nest(last.path, last.value), NestAll(es[..|es| - 1]), true)
  }

  lemma RelevantPaths(vars: seq<(string, string)>, prefix: string, typed: string -> Leaf)
    ensures Paths(Relevant(vars, prefix, typed))
  {
  }

  method FlatVarsToNestedDict(vars: seq<(string, string)>, prefix: string, typed: string -> Leaf)
    returns (r: Result<Tree, ()>)
    ensures Paths(Relevant(vars, prefix, typed))
    ensures r == if Builds(Relevant(vars, prefix, typed)) then Ok(NestAll(Relevant(vars, prefix, typed))) else Err(())
  {
    RelevantPaths(vars, prefix, typed);
    var relevantVars := EmptyTree;
    for n := 0 to |vars|
      invariant Paths(Relevant(vars[..n], prefix, typed)) && Builds(Relevant(vars[..n], prefix, typed))
      invariant relevantVars == NestAll(Relevant(vars[..n], prefix, typed))
    {
      var (name, val) := vars[n];
      NextVariable(vars, n, prefix, typed);
      if StartsWith(name, prefix) {
        var tree := Wrap(name, val, prefix, typed);
        if !Mergeable(tree, relevantVars, true) {
          BuildsPrefix(Relevant(vars[..n + 1], prefix, typed), vars, n + 1, prefix, typed);
          return Err(());
        }
        relevantVars := Merge(tree, relevantVars, true);
      }
    }
    assert vars[..|vars|] == vars;
    return Ok(relevantVars);
  }

  // What one more variable adds, if it has the prefix.
  lemma NextVariable(vars: seq<(string, string)>, n: nat, prefix: string, typed: string -> Leaf)
    requires n < |vars|
    ensures var soFar, next := Relevant(vars[..n], prefix, typed), Relevant(vars[..n + 1], prefix, typed);
            && Paths(soFar) && Paths(next)
            && (if StartsWith(vars[n].0, prefix) then
                  var e := EntryOf(vars[n].0, vars[n].1, prefix, typed);
                  && NestAll(next) == Merge(Nest(e.path, e.value), NestAll(soFar), true)
                  && (Builds(next) <==> Builds(soFar) && Mergeable(Nest(e.path, e.value), NestAll(soFar), true))
                else next == soFar)
  {
    RelevantPaths(vars[..n], prefix, typed);
    RelevantPaths(vars[..n + 1], prefix, typed);
    assert vars[..n + 1][..n] == vars[..n];
    var soFar, e := Relevant(vars[..n], prefix, typed), EntryOf(vars[n].0, vars[n].1, prefix, typed);
    assert (soFar + [e])[..|soFar|] == soFar;
    assert soFar + [] == soFar;
  }

  // A build that fails early fails as a whole.
  lemma BuildsPrefix(es: seq<Entry>, vars: seq<(string, string)>, n: nat, prefix: string, typed: string -> Leaf)
    requires n <= |vars| && es == Relevant(vars[..n], prefix, typed) && Paths(es) && !Builds(es)
    ensures Paths(Relevant(vars, prefix, typed)) && !Builds(Relevant(vars, prefix, typed))
    decreases |vars| - n
  {
    if n == |vars| {
      assert vars[..n] == vars;
    } else {
      assert vars[..n + 1][..n] == vars[..n];
      RelevantPaths(vars[..n + 1], prefix, typed);
      var next := Relevant(vars[..n + 1], prefix, typed);
      assert next == es || next[..|next| - 1] == es;
      BuildsPrefix(next, vars, n + 1, prefix, typed);
    }
  }

  // The inner loop: wrap the value from the last part of the key outwards.
  method Wrap(name: string, val: string, prefix: string, typed: string -> Leaf) returns (tree: Tree)
    ensures var e := EntryOf(name, val, prefix, typed); tree == Nest(e.path, e.value)
  {
    var keyParts := Split(Removed(name, prefix));
    var last := |keyParts| - 1;
    ghost var e := EntryOf(name, val, prefix, typed);
    var current: Value := if keyParts[last] in NO_CONVERT then Scalar(val) else typed(val);
    var i := last;
    current := Dict(map[KeyName(keyParts, last) := current]);
    assert e.path[last..] == [KeyName(keyParts, last)];
    while i > 0
      invariant 0 <= i <= last && current == Nest(e.path[i..], e.value)
    {
      i := i - 1;
      current := Dict(map[KeyName(keyParts, i) := current]);
      assert e.path[i..][1..] == e.path[i + 1..];
    }
    assert e.path[0..] == e.path;
    tree := current;
  }

  // ---- what a variable name says ----

  function Join(parts: seq<string>): string
    requires parts != []
  {
    if |parts| == 1 then parts[0] else parts[0] + "__" + Join(parts[1..])
  }

  ghost predicate Occurs(p: string, s: string) {
    exists i :: 0 <= i <= |s| && StartsWith(s[i..], p)
  }

  // Names that can be told apart again: without the separator inside, and, but for the last, without an underscore
  // that would run into it.
  ghost predicate Separable(parts: seq<string>) {
    && parts != []
    && (forall i :: 0 <= i < |parts| ==> !Occurs("__", parts[i]))
    && forall i :: 0 <= i < |parts| - 1 ==> parts[i] == "" || parts[i][|parts[i]| - 1] != '_'
  }

  lemma OccursLater(p: string, s: string)
    requires s != "" && Occurs(p, s[1..])
    ensures Occurs(p, s)
  {
    var i :| 0 <= i <= |s[1..]| && StartsWith(s[1..][i..], p);
    assert s[1..][i..] == s[i + 1..];
  }

  lemma {:induction false} SplitWhole(part: string)
    requires !Occurs("__", part)
    ensures Split(part) == [part]
  {
    if part != "" {
      assert part[0..] == part;
      if Occurs("__", part[1..]) {
        OccursLater("__", part);
      }
      SplitWhole(part[1..]);
      assert [part[0]] + part[1..] == part;
    }
  }

  lemma {:induction false} SplitFirst(part: string, rest: string)
    requires !Occurs("__", part) && (part == "" || part[|part| - 1] != '_')
    ensures Split(part + "__" + rest) == [part] + Split(rest)
  {
    var all := part + "__" + rest;
    if part == "" {
      assert all[2..] == rest && all[..2] == "__";
    } else {
      assert part[0..] == part;
      if Occurs("__", part[1..]) {
        OccursLater("__", part);
      }
      assert all[1..] == part[1..] + "__" + rest;
      assert |part| > 1 ==> all[..2] == part[..2];
      assert all[0] == part[0] && (|part| == 1 ==> part[0] != '_');
      assert !StartsWith(all, "__");
      SplitFirst(part[1..], rest);
      assert [part[0]] + part[1..] == part;
    }
  }

  lemma {:induction false} SplitJoin(parts: seq<string>)
    requires Separable(parts)
    ensures Split(Join(parts)) == parts
  {
    if |parts| == 1 {
      SplitWhole(parts[0]);
    } else {
      var rest := parts[1..];
      assert forall i :: 0 <= i < |rest| ==> rest[i] == parts[i + 1];
      SplitJoin(rest);
      SplitFirst(parts[0], Join(rest));
    }
  }

  lemma {:induction false} NothingRemoved(s: string, prefix: string)
    requires !Occurs(prefix, s)
    ensures Removed(s, prefix) == s
  {
    assert s[0..] == s;
    if prefix != "" && |s| >= |prefix| {
      if Occurs(prefix, s[1..]) {
        OccursLater(prefix, s);
      }
      NothingRemoved(s[1..], prefix);
      assert [s[0]] + s[1..] == s;
    }
  }

  // A variable named by a prefix and its parts goes to the path of these parts, in lower case; only the last part
  // keeps its case, below `exchange` where one of the ccxt sections is named. Its value is typed, but for chat ids
  // and passwords.
  lemma VariableGoesToItsPath(prefix: string, parts: seq<string>, val: string, typed: string -> Leaf)
    requires prefix != "" && Separable(parts) && !Occurs(prefix, Join(parts))
    ensures var e, last := EntryOf(prefix + Join(parts), val, prefix, typed), |parts| - 1;
            var ccxt := exists j :: 0 <= j < |parts| &&
                          Lower(parts[j]) in ["ccxt_config", "ccxt_sync_config", "ccxt_async_config"];
            && |e.path| == |parts|
            && (forall i :: 0 <= i < last ==> e.path[i] == Lower(parts[i]))
            && e.path[last] == (if Lower(parts[0]) == "exchange" && ccxt then parts[last] else Lower(parts[last]))
            && e.value == (if parts[last] in ["CHAT_ID", "PASSWORD"] then Scalar(val) else typed(val))
  {
    PartsOfName(prefix, parts);
    assert |EntryOf(prefix + Join(parts), val, prefix, typed).path| == |parts|;
  }

  lemma PartsOfName(prefix: string, parts: seq<string>)
    requires prefix != "" && Separable(parts) && !Occurs(prefix, Join(parts))
    ensures Split(Removed(prefix + Join(parts), prefix)) == parts
  {
    var name := prefix + Join(parts);
    assert name[..|prefix|] == prefix && name[|prefix|..] == Join(parts);
    NothingRemoved(Join(parts), prefix);
    SplitJoin(parts);
  }

  // All variables with the prefix count, and no others.
  lemma {:induction false} OnlyPrefixedCount(vars: seq<(string, string)>, prefix: string, typed: string -> Leaf)
    ensures forall e :: e in Relevant(vars, prefix, typed) <==>
              exists i :: 0 <= i < |vars| && prefix <= vars[i].0 && EntryOf(vars[i].0, vars[i].1, prefix, typed) == e
  {
    if vars != [] {
      var rest, last := vars[..|vars| - 1], vars[|vars| - 1];
      OnlyPrefixedCount(rest, prefix, typed);
      forall e
        ensures e in Relevant(vars, prefix, typed) <==>
          exists i :: 0 <= i < |vars| && prefix <= vars[i].0 && EntryOf(vars[i].0, vars[i].1, prefix, typed) == e
      {
        if i :| 0 <= i < |rest| && prefix <= rest[i].0 && EntryOf(rest[i].0, rest[i].1, prefix, typed) == e {
          assert vars[i] == rest[i];
        }
        if i :| 0 <= i < |vars| && prefix <= vars[i].0 && EntryOf(vars[i].0, vars[i].1, prefix, typed) == e {
          assert i < |rest| ==> rest[i] == vars[i];
        }
        assert vars[|vars| - 1] == last;
      }
    }
  }

  lemma LowerCase(s: string)
    ensures |Lower(s)| == |s|
    ensures forall i :: 0 <= i < |s| ==>
              Lower(s)[i] as int == s[i] as int + if 65 <= s[i] as int <= 90 then 32 else 0
  {
  }

  // ---- what the tree says ----

  ghost predicate Apart(p: seq<string>, q: seq<string>) {
    !(p <= q) && !(q <= p)
  }

  // No path leads through another.
  ghost predicate Antichain(es: seq<Entry>) {
    Paths(es) && forall i, j :: 0 <= i < j < |es| ==> Apart(es[i].path, es[j].path)
  }

  ghost function LeafAt(t: Tree, path: seq<string>): Option<Value> {
    var v := Lookup(t, path);
    if v.Some? && !v.value.Dict? then v else None
  }

  lemma {:induction false} NestLookup(p: seq<string>, v: Leaf, q: seq<string>)
    requires p != []
    ensures Covered(Nest(p, v), q, true) <==> p < q
    ensures q == p ==> Lookup(Nest(p, v), q) == Some(v)
    ensures q < p ==> Lookup(Nest(p, v), q).Some? && Lookup(Nest(p, v), q).value.Dict?
    ensures !(q <= p) ==> Lookup(Nest(p, v), q).None?
    decreases |p|
  {
    if q != [] && q[0] == p[0] {
      assert p < q <==> p[1..] < q[1..];
      assert q <= p <==> q[1..] <= p[1..];
      assert q == p <==> q[1..] == p[1..];
      if |p| > 1 {
        NestLookup(p[1..], v, q[1..]);
      }
    }
  }

  lemma {:induction false} NestMergeable(p: seq<string>, v: Leaf, t: Tree)
    requires p != [] && forall n :: 0 < n < |p| ==> LeafAt(t, p[..n]).None?
    ensures Mergeable(Nest(p, v), t, true)
    decreases |p|
  {
    if |p| > 1 && p[0] in t.entries {
      assert LeafAt(t, p[..1]).None?;
      assert Lookup(t, p[..1]) == Some(t.entries[p[0]]);
      forall n | 0 < n < |p[1..]| ensures LeafAt(t.entries[p[0]], p[1..][..n]).None? {
        assert LeafAt(t, p[..n + 1]).None?;
        assert p[..n + 1][1..] == p[1..][..n];
      }
      NestMergeable(p[1..], v, t.entries[p[0]]);
    }
  }

  // The leaves of the tree are exactly the entries.
  ghost predicate Holds(es: seq<Entry>)
    requires Paths(es)
  {
    forall q: seq<string>, v: Leaf :: LeafAt(NestAll(es), q) == Some(v) <==> Entry(q, v) in es
  }

  lemma LeavesAreApart(es: seq<Entry>, q: seq<string>)
    requires es != [] && Antichain(es) && Holds(es[..|es| - 1])
    ensures LeafAt(NestAll(es[..|es| - 1]), q).Some? ==> Apart(q, es[|es| - 1].path)
  {
    var rest := es[..|es| - 1];
    if LeafAt(NestAll(rest), q).Some? {
      var i :| 0 <= i < |rest| && rest[i] == Entry(q, LeafAt(NestAll(rest), q).value);
      assert Apart(es[i].path, es[|es| - 1].path);
    }
  }

  // For variables none of which leads through another: nothing raises, every variable is found at its path
  // with its typed value, and the tree has no other leaf.
  lemma {:induction false} LeavesExactly(es: seq<Entry>)
    requires Antichain(es)
    ensures Builds(es) && Holds(es)
  {
    if es != [] {
      var rest, last := es[..|es| - 1], es[|es| - 1];
      LeavesExactly(rest);
      forall n | 0 < n < |last.path| ensures LeafAt(NestAll(rest), last.path[..n]).None? {
        LeavesAreApart(es, last.path[..n]);
      }
      NestMergeable(last.path, last.value, NestAll(rest));
      forall q: seq<string>, v: Leaf ensures LeafAt(NestAll(es), q) == Some(v) <==> Entry(q, v) in es {
        LeafStep(es, q, v);
      }
    }
  }

  lemma LeafStep(es: seq<Entry>, q: seq<string>, v: Leaf)
    requires es != [] && Antichain(es) && Holds(es[..|es| - 1])
    requires Mergeable(Nest(es[|es| - 1].path, es[|es| - 1].value), NestAll(es[..|es| - 1]), true)
    ensures LeafAt(NestAll(es), q) == Some(v) <==> Entry(q, v) in es
  {
    var rest, last := es[..|es| - 1], es[|es| - 1];
    assert es == rest + [last];
    LeavesAreApart(es, q);
    LeafOfLayer(last, NestAll(rest), q);
    assert Entry(q, v) in rest ==> LeafAt(NestAll(rest), q) == Some(v);
  }

  // One more layer adds its own leaf and leaves the others alone.
  lemma LeafOfLayer(e: Entry, t: Tree, q: seq<string>)
    requires e.path != [] && Mergeable(Nest(e.path, e.value), t, true)
    requires LeafAt(t, q).Some? ==> Apart(q, e.path)
    ensures LeafAt(Merge(Nest(e.path, e.value), t, true), q) == if q == e.path then Some(e.value) else LeafAt(t, q)
  {
    PathLaw(Nest(e.path, e.value), t, q, true);
    NestLookup(e.path, e.value, q);
  }

  // ---- the order of the variables does not matter ----

  lemma {:induction false} NestsCommute(p: seq<string>, v: Leaf, q: seq<string>, w: Leaf)
    requires p != [] && q != [] && Apart(p, q)
    ensures Merge(Nest(p, v), Nest(q, w), true) == Merge(Nest(q, w), Nest(p, v), true)
    decreases |p|
  {
    var pq, qp := Merge(Nest(p, v), Nest(q, w), true), Merge(Nest(q, w), Nest(p, v), true);
    if p[0] == q[0] {
      assert |p| > 1 && |q| > 1 && Apart(p[1..], q[1..]) by {
        assert p == [p[0]] + p[1..] && q == [q[0]] + q[1..];
      }
      NestsCommute(p[1..], v, q[1..], w);
    }
    forall k ensures Get(pq.entries, k) == Get(qp.entries, k) {
      MergeGet(Nest(p, v), Nest(q, w), k, true);
      MergeGet(Nest(q, w), Nest(p, v), k, true);
      if k == p[0] && p[0] != q[0] && |p| > 1 {
        MergeEmptyDestination(Nest(p[1..], v));
      }
      if k == q[0] && p[0] != q[0] && |q| > 1 {
        MergeEmptyDestination(Nest(q[1..], w));
      }
    }
    SameTrees(pq, qp);
  }

  lemma {:induction false} MoveToEnd(a: seq<Entry>, e: Entry, b: seq<Entry>)
    requires Antichain(a + [e] + b)
    ensures Antichain(a + b + [e]) && NestAll(a + [e] + b) == NestAll(a + b + [e])
    decreases |b|
  {
    if b == [] {
      assert a + [e] + b == a + b + [e];
    } else {
      var last, rest := b[|b| - 1], b[..|b| - 1];
      assert a + [e] + b == (a + [e] + rest) + [last] && a + b == (a + rest) + [last];
      assert (a + [e] + b)[|a|] == e;
      AntichainPrefix(a + [e] + rest, last);
      MoveToEnd(a, e, rest);
      AntichainMoved(a, e, b);
      NestAllLast(a + [e] + rest, last);
      NestAllLast(a + rest, e);
      NestAllLast(a + rest, last);
      NestAllLast(a + b, e);
      SwapLayers(e, last, NestAll(a + rest));
    }
  }

  lemma NestAllLast(es: seq<Entry>, e: Entry)
    requires Antichain(es + [e]) || (Paths(es) && e.path != [])
    ensures Paths(es) && e.path != []
    ensures Paths(es + [e]) && NestAll(es + [e]) == Merge(Nest(e.path, e.value), NestAll(es), true)
  {
    assert (es + [e])[..|es|] == es && (es + [e])[|es|] == e;
  }

  lemma AntichainPrefix(es: seq<Entry>, e: Entry)
    requires Antichain(es + [e])
    ensures Antichain(es) && forall i :: 0 <= i < |es| ==> Apart(es[i].path, e.path)
  {
    var all := es + [e];
    assert all[|es|] == e;
    assert forall i :: 0 <= i < |es| ==> all[i] == es[i];
    assert forall i :: 0 <= i < |es| ==> Apart(all[i].path, all[|es|].path);
  }

  lemma SwapLayers(e: Entry, f: Entry, t: Tree)
    requires e.path != [] && f.path != [] && Apart(e.path, f.path)
    ensures Merge(Nest(f.path, f.value), Merge(Nest(e.path, e.value), t, true), true) ==
            Merge(Nest(e.path, e.value), Merge(Nest(f.path, f.value), t, true), true)
  {
    var eTree, fTree := Nest(e.path, e.value), Nest(f.path, f.value);
    NestsCommute(e.path, e.value, f.path, f.value);
    MergeAssociative(fTree, eTree, t, true);
    MergeAssociative(eTree, fTree, t, true);
  }

  lemma AntichainMoved(a: seq<Entry>, e: Entry, b: seq<Entry>)
    requires Antichain(a + [e] + b)
    ensures Antichain(a + b + [e])
  {
    var es, moved := a + [e] + b, a + b + [e];
    forall i, j | 0 <= i < j < |moved| ensures Apart(moved[i].path, moved[j].path) {
      var i' := if i < |a| then i else if i < |moved| - 1 then i + 1 else |a|;
      var j' := if j < |a| then j else if j < |moved| - 1 then j + 1 else |a|;
      assert moved[i] == es[i'] && moved[j] == es[j'];
      assert i' < j' ==> Apart(es[i'].path, es[j'].path);
      assert j' < i' ==> Apart(es[j'].path, es[i'].path);
    }
    forall i | 0 <= i < |moved| ensures moved[i].path != [] {
      assert moved[i] == es[if i < |a| then i else if i < |moved| - 1 then i + 1 else |a|];
    }
  }

  lemma {:induction false} OrderDoesNotMatter(es: seq<Entry>, fs: seq<Entry>)
    requires Antichain(es) && multiset(es) == multiset(fs)
    ensures Antichain(fs) && NestAll(es) == NestAll(fs)
    decreases |es|
  {
    if es == [] {
      assert |multiset(fs)| == 0;
    } else {
      var last, rest := es[|es| - 1], es[..|es| - 1];
      var i := Find(es, fs);
      var a, b := fs[..i], fs[i + 1..];
      OrderDoesNotMatter(rest, a + b);
      AntichainExtended(es, a + b);
      AntichainInserted(a, last, b);
      MoveToEnd(a, last, b);
      assert (a + b + [last])[..|a + b|] == a + b;
    }
  }

  // Where the last entry of one list stands in a reordering of it.
  lemma Find(es: seq<Entry>, fs: seq<Entry>) returns (i: nat)
    requires es != [] && multiset(es) == multiset(fs)
    ensures i < |fs| && fs == fs[..i] + [es[|es| - 1]] + fs[i + 1..]
    ensures multiset(es[..|es| - 1]) == multiset(fs[..i] + fs[i + 1..])
  {
    var last, rest := es[|es| - 1], es[..|es| - 1];
    assert last in multiset(fs);
    i :| 0 <= i < |fs| && fs[i] == last;
    assert es == rest + [last];
    assert fs == fs[..i] + [last] + fs[i + 1..];
    assert multiset(fs) == multiset(fs[..i]) + multiset([last]) + multiset(fs[i + 1..]);
    assert multiset(es) == multiset(rest) + multiset([last]);
    assert multiset(rest) == multiset(fs) - multiset([last]);
    assert multiset(fs[..i] + fs[i + 1..]) == multiset(fs) - multiset([last]);
  }

  lemma AntichainExtended(es: seq<Entry>, gs: seq<Entry>)
    requires es != [] && Antichain(es) && Antichain(gs) && multiset(es[..|es| - 1]) == multiset(gs)
    ensures Antichain(gs + [es[|es| - 1]])
  {
    var rest, last := es[..|es| - 1], es[|es| - 1];
    forall k | 0 <= k < |gs| ensures Apart(gs[k].path, last.path) {
      assert gs[k] in multiset(rest);
      var m :| 0 <= m < |rest| && rest[m] == gs[k];
      assert Apart(es[m].path, es[|es| - 1].path);
    }
  }

  lemma AntichainInserted(a: seq<Entry>, e: Entry, b: seq<Entry>)
    requires Antichain(a + b + [e])
    ensures Antichain(a + [e] + b)
  {
    var es, moved := a + [e] + b, a + b + [e];
    forall i, j | 0 <= i < j < |es| ensures Apart(es[i].path, es[j].path) {
      var i' := if i < |a| then i else if i > |a| then i - 1 else |moved| - 1;
      var j' := if j < |a| then j else if j > |a| then j - 1 else |moved| - 1;
      assert es[i] == moved[i'] && es[j] == moved[j'];
      assert i' < j' ==> Apart(moved[i'].path, moved[j'].path);
      assert j' < i' ==> Apart(moved[j'].path, moved[i'].path);
    }
    forall i | 0 <= i < |es| ensures es[i].path != [] {
      assert es[i] == moved[if i < |a| then i else if i > |a| then i - 1 else |moved| - 1];
    }
  }
}
