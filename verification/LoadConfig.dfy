/**
 load_from_files of freqtrade/configuration/load_config.py: a recursive include loader whose meaning is one
 flat, right-biased fold of the merge operator over the files in post-order.
 */
module LoadConfig {
  import opened Outcomes
  import opened DeepMerge

  const INCLUDES := "add_config_files"
  const LOADED := "config_files"
  const STDIN := "-"
  const MAX_LEVEL := 5

  // What reading a path yields.
  datatype Source = Missing | Malformed | Doc(tree: Tree)

  // The surroundings of the loader: file contents, standard input, the built-in minimal configuration, and
  // the two path operations it uses.
  datatype Files = Files(
    read: string -> Source,
    stdin: Source,
    minimal: Tree,
    join: (string, string) -> string,
    parent: string -> string)

  datatype Error = LoopDetected | NotFound(path: string) | SyntaxError(path: string) | BadIncludes | CannotMerge

  function Locate(fs: Files, base: Option<string>, name: string): string {
    if base.Some? then fs.join(base.value, name) else name
  }

  function ReadFile(source: Source, path: string): Result<Tree, Error> {
    match source
    case Missing => Err(NotFound(path))
    case Malformed => Err(SyntaxError(path))
    case Doc(tree) => Ok(tree)
  }

  // The names listed under a key: nothing when the key is absent or null.
  function NamesAt(t: Tree, key: string): Result<seq<string>, Error> {
    if key !in t.entries || t.entries[key] == Null then Ok([])
    else if t.entries[key].Names? then Ok(t.entries[key].items)
    else Err(BadIncludes)
  }

  // ---- the loader as a recursive function ----

  function LoadFrom(fs: Files, files: seq<string>, base: Option<string>, level: nat): Result<Tree, Error>
    decreases MAX_LEVEL + 1 - level, |files| + 1
  {
    if level > MAX_LEVEL then Err(LoopDetected)
    else if files == [] then Ok(fs.minimal)
    else LoadRest(fs, files, base, level, EmptyTree, [])
  }

  function LoadRest(fs: Files, files: seq<string>, base: Option<string>, level: nat, config: Tree,
                    loaded: seq<string>): Result<Tree, Error>
    requires level <= MAX_LEVEL
    decreases MAX_LEVEL + 1 - level, |files|
  {
    if files == [] then Ok(Dict(config.entries[LOADED := Names(loaded)]))
    else if files[0] == STDIN then ReadFile(fs.stdin, STDIN)
    else
      var path := Locate(fs, base, files[0]);
      match LoadOne(fs, path, level)
      case Err(e) => Err(e)
      case Ok((tree, below)) =>
        if !Mergeable(tree, config, true) then Err(CannotMerge)
        else LoadRest(fs, files[1..], base, level, Merge(tree, config, true), [path] + loaded + below)
  }

  // One file with everything it includes, and the names of the files included.
  function LoadOne(fs: Files, path: string, level: nat): Result<(Tree, seq<string>), Error>
    requires level <= MAX_LEVEL
    decreases MAX_LEVEL + 1 - level, 0
  {
    match ReadFile(fs.read(path), path)
    case Err(e) => Err(e)
    case Ok(doc) =>
      if INCLUDES !in doc.entries then Ok((doc, []))
      else match NamesAt(doc, INCLUDES)
        case Err(e) => Err(e)
        case Ok(names) =>
          match LoadFrom(fs, names, Some(fs.parent(path)), level + 1)
          case Err(e) => Err(e)
          case Ok(sub) =>
            match NamesAt(sub, LOADED)
            case Err(e) => Err(e)
            case Ok(below) =>
              if Mergeable(doc, sub, true) then Ok((Merge(doc, sub, true), below)) else Err(CannotMerge)
  }

  // ---- the loader as the program runs it ----

  method LoadFromFiles(fs: Files, files: seq<string>, base: Option<string>, level: nat)
    returns (r: Result<Tree, Error>)
    ensures r == LoadFrom(fs, files, base, level)
    decreases MAX_LEVEL + 1 - level
  {
    var config := EmptyTree;
    if level > MAX_LEVEL {
      return Err(LoopDetected);
    }
    if files == [] {
      return Ok(fs.minimal);
    }
    var filesLoaded: seq<string> := [];
    for i := 0 to |files|
      invariant LoadFrom(fs, files, base, level) == LoadRest(fs, files[i..], base, level, config, filesLoaded)
    {
      assert files[i..][1..] == files[i + 1..];
      ghost var soFar, included := filesLoaded, [];
      if files[i] == STDIN {
        return ReadFile(fs.stdin, STDIN);
      }
      var file := Locate(fs, base, files[i]);
      var read := ReadFile(fs.read(file), file);
      if read.Err? {
        return Err(read.error);
      }
      var configTmp := read.value;
      if INCLUDES in configTmp.entries {
        var names := NamesAt(configTmp, INCLUDES);
        if names.Err? {
          return Err(names.error);
        }
        var configSub := LoadFromFiles(fs, names.value, Some(fs.parent(file)), level + 1);
        if configSub.Err? {
          return Err(configSub.error);
        }
        var below := NamesAt(configSub.value, LOADED);
        if below.Err? {
          return Err(below.error);
        }
        filesLoaded := filesLoaded + below.value;
        included := below.value;
        if !Mergeable(configTmp, configSub.value, true) {
          return Err(CannotMerge);
        }
        configTmp := Merge(configTmp, configSub.value, true);
      }
      filesLoaded := [file] + filesLoaded;
      assert filesLoaded == [file] + soFar + included;
      if !Mergeable(configTmp, config, true) {
        return Err(CannotMerge);
      }
      config := Merge(configTmp, config, true);
    }
    return Ok(Dict(config.entries[LOADED := Names(filesLoaded)]));
  }

  // ---- the meaning: one flat fold ----

  // The documents in the order in which they take effect: what a file includes before the file itself,
  // earlier files before later ones. Standard input stands alone in its list, and an empty list of includes
  // stands for the minimal configuration.
  ghost function Layers(fs: Files, files: seq<string>, base: Option<string>, level: nat): seq<Tree>
    decreases MAX_LEVEL + 1 - level, |files| + 1
  {
    if level > MAX_LEVEL then []
    else if files == [] then [fs.minimal]
    else if STDIN in files then TreeOf(fs.stdin)
    else LayersOfAll(fs, files, base, level)
  }

  ghost function LayersOfAll(fs: Files, files: seq<string>, base: Option<string>, level: nat): seq<Tree>
    requires level <= MAX_LEVEL
    decreases MAX_LEVEL + 1 - level, |files|
  {
    if files == [] then []
    else LayersOfOne(fs, Locate(fs, base, files[0]), level) + LayersOfAll(fs, files[1..], base, level)
  }

  ghost function LayersOfOne(fs: Files, path: string, level: nat): seq<Tree>
    requires level <= MAX_LEVEL
    decreases MAX_LEVEL + 1 - level, 0
  {
    (if Includes(fs, path).Some? then Layers(fs, Includes(fs, path).value, Some(fs.parent(path)), level + 1) else [])
    + TreeOf(fs.read(path))
  }

  ghost function TreeOf(source: Source): seq<Tree> {
    if source.Doc? then [source.tree] else []
  }

  // The include list of a file, if it has a usable one.
  ghost function Includes(fs: Files, path: string): Option<seq<string>> {
    if fs.read(path).Doc? && INCLUDES in fs.read(path).tree.entries && NamesAt(fs.read(path).tree, INCLUDES).Ok?
    then Some(NamesAt(fs.read(path).tree, INCLUDES).value)
    else None
  }

  // Every layer overrides the layers before it.
  ghost function Fold(layers: seq<Tree>): Tree {
    if layers == [] then EmptyTree else Merge(layers[|layers| - 1], Fold(layers[..|layers| - 1]), true)
  }

  lemma {:induction false} FoldConcat(a: seq<Tree>, b: seq<Tree>)
    ensures Fold(a + b) == Merge(Fold(b), Fold(a), true)
  {
    if b == [] {
      assert a + b == a;
      MergeEmptySource(Fold(a), true);
    } else {
      var top, rest := b[|b| - 1], b[..|b| - 1];
      assert (a + b)[..|a + b| - 1] == a + rest;
      FoldConcat(a, rest);
      MergeAssociative(top, Fold(rest), Fold(a), true);
    }
  }

  lemma FoldOne(t: Tree)
    ensures Fold([t]) == t
  {
    MergeEmptyDestination(t);
    assert [t][..0] == [];
  }

  ghost predicate SameSettings(t: Tree, u: Tree) {
    Without(t, LOADED) == Without(u, LOADED)
  }

  lemma MergeSameSettings(s: Tree, s': Tree, d: Tree, d': Tree)
    requires SameSettings(s, s') && SameSettings(d, d')
    ensures SameSettings(Merge(s, d, true), Merge(s', d', true))
  {
    MergeWithout(s, d, LOADED, true);
    MergeWithout(s', d', LOADED, true);
  }

  // Whenever the loader returns, it returns the flat fold of the layers, on every key except the list of
  // loaded files that it adds itself.
  lemma {:induction false} LoadIsFlatFold(fs: Files, files: seq<string>, base: Option<string>, level: nat)
    requires LoadFrom(fs, files, base, level).Ok?
    ensures SameSettings(LoadFrom(fs, files, base, level).value, Fold(Layers(fs, files, base, level)))
    decreases MAX_LEVEL + 1 - level, |files| + 1
  {
    if files == [] {
      FoldOne(fs.minimal);
    } else {
      LoadRestIsFold(fs, files, base, level, EmptyTree, []);
      if STDIN in files {
        FoldOne(fs.stdin.tree);
      } else {
        MergeEmptyDestination(Fold(LayersOfAll(fs, files, base, level)));
      }
    }
  }

  lemma {:induction false} LoadRestIsFold(fs: Files, files: seq<string>, base: Option<string>, level: nat,
                                          config: Tree, loaded: seq<string>)
    requires level <= MAX_LEVEL && LoadRest(fs, files, base, level, config, loaded).Ok?
    ensures STDIN in files ==>
              fs.stdin.Doc? && LoadRest(fs, files, base, level, config, loaded).value == fs.stdin.tree
    ensures STDIN !in files ==>
              SameSettings(LoadRest(fs, files, base, level, config, loaded).value,
                           Merge(Fold(LayersOfAll(fs, files, base, level)), config, true))
    decreases MAX_LEVEL + 1 - level, |files|
  {
    if files == [] {
      MergeEmptySource(config, true);
    } else if files[0] != STDIN {
      var path := Locate(fs, base, files[0]);
      var (tree, below) := LoadOne(fs, path, level).value;
      LoadRestIsFold(fs, files[1..], base, level, Merge(tree, config, true), [path] + loaded + below);
      if STDIN !in files {
        LoadOneIsFold(fs, path, level);
        var one, rest := LayersOfOne(fs, path, level), LayersOfAll(fs, files[1..], base, level);
        FoldConcat(one, rest);
        MergeAssociative(Fold(rest), Fold(one), config, true);
        MergeSameSettings(tree, Fold(one), config, config);
        MergeSameSettings(Fold(rest), Fold(rest), Merge(tree, config, true), Merge(Fold(one), config, true));
      }
    }
  }

  lemma {:induction false} LoadOneIsFold(fs: Files, path: string, level: nat)
    requires level <= MAX_LEVEL && LoadOne(fs, path, level).Ok?
    ensures SameSettings(LoadOne(fs, path, level).value.0, Fold(LayersOfOne(fs, path, level)))
    decreases MAX_LEVEL + 1 - level, 0
  {
    var doc := fs.read(path).tree;
    FoldOne(doc);
    if INCLUDES in doc.entries {
      var names := NamesAt(doc, INCLUDES).value;
      LoadIsFlatFold(fs, names, Some(fs.parent(path)), level + 1);
      var layers := Layers(fs, names, Some(fs.parent(path)), level + 1);
      FoldConcat(layers, [doc]);
      MergeSameSettings(doc, doc, LoadFrom(fs, names, Some(fs.parent(path)), level + 1).value, Fold(layers));
    } else {
      assert [] + [doc] == [doc];
    }
  }

  // ---- exactly when the loader gives up ----

  // A chain of include directives: each path names a file that is really visited (nothing after standard
  // input is) and that includes the next list.
  ghost predicate IncludeChain(fs: Files, files: seq<string>, base: Option<string>, chain: seq<string>)
    decreases |chain|
  {
    chain != [] ==>
      && Visited(files, chain[0])
      && var path := Locate(fs, base, chain[0]);
         Includes(fs, path).Some? && IncludeChain(fs, Includes(fs, path).value, Some(fs.parent(path)), chain[1..])
  }

  ghost predicate Visited(files: seq<string>, name: string) {
    exists i :: 0 <= i < |files| && files[i] == name && STDIN !in files[..i + 1]
  }

  // The files in reach can be read and are closed under inclusion, include lists are lists, and all documents
  // have one shape in which neither of the two list keys is a dictionary.
  ghost predicate Clean(fs: Files, reach: iset<string>, shape: Shape) {
    && !shape([INCLUDES]) && !shape([LOADED]) && CleanTree(fs.minimal, shape)
    && forall path :: path in reach ==>
         && fs.read(path).Doc? && CleanTree(fs.read(path).tree, shape)
         && Within(fs, NamesAt(fs.read(path).tree, INCLUDES).value, Some(fs.parent(path)), reach, shape)
  }

  ghost predicate Within(fs: Files, files: seq<string>, base: Option<string>, reach: iset<string>, shape: Shape) {
    forall name :: name in files ==>
      if name == STDIN then fs.stdin.Doc? && CleanTree(fs.stdin.tree, shape) else Locate(fs, base, name) in reach
  }

  ghost predicate CleanTree(t: Tree, shape: Shape) {
    Conforms(t, shape, []) && NamesAt(t, INCLUDES).Ok? && NamesAt(t, LOADED).Ok?
  }

  lemma CleanMerge(s: Tree, d: Tree, shape: Shape)
    requires !shape([INCLUDES]) && !shape([LOADED]) && CleanTree(s, shape) && CleanTree(d, shape)
    ensures Mergeable(s, d, true) && CleanTree(Merge(s, d, true), shape)
  {
    SameShapeMerges(s, d, shape, [], true);
    MergeGet(s, d, INCLUDES, true);
    MergeGet(s, d, LOADED, true);
    assert [] + [INCLUDES] == [INCLUDES] && [] + [LOADED] == [LOADED];
  }

  lemma CleanWithLoaded(t: Tree, loaded: seq<string>, shape: Shape)
    requires !shape([LOADED]) && CleanTree(t, shape)
    ensures CleanTree(Dict(t.entries[LOADED := Names(loaded)]), shape)
  {
    assert [] + [LOADED] == [LOADED];
  }

  // On clean input the loader either returns or reports a loop, and it reports a loop exactly when some
  // chain of includes is long enough to pass the last level.
  lemma {:induction false} LoopExactly(fs: Files, files: seq<string>, base: Option<string>, level: nat,
                                       reach: iset<string>, shape: Shape)
    requires Clean(fs, reach, shape) && Within(fs, files, base, reach, shape) && level <= MAX_LEVEL + 1
    ensures LoadFrom(fs, files, base, level).Ok? || LoadFrom(fs, files, base, level) == Err(LoopDetected)
    ensures LoadFrom(fs, files, base, level).Ok? ==> CleanTree(LoadFrom(fs, files, base, level).value, shape)
    ensures LoadFrom(fs, files, base, level) == Err(LoopDetected) <==>
            exists chain :: |chain| == MAX_LEVEL + 1 - level && IncludeChain(fs, files, base, chain)
    decreases MAX_LEVEL + 1 - level, |files| + 1
  {
    if level > MAX_LEVEL {
      assert IncludeChain(fs, files, base, []);
    } else if files != [] {
      LoopExactlyRest(fs, files, base, level, EmptyTree, [], reach, shape);
    }
  }

  lemma {:induction false} LoopExactlyRest(fs: Files, files: seq<string>, base: Option<string>, level: nat,
                                           config: Tree, loaded: seq<string>, reach: iset<string>, shape: Shape)
    requires Clean(fs, reach, shape) && Within(fs, files, base, reach, shape)
    requires level <= MAX_LEVEL && CleanTree(config, shape)
    ensures var r := LoadRest(fs, files, base, level, config, loaded);
            && (r.Ok? || r == Err(LoopDetected))
            && (r.Ok? ==> CleanTree(r.value, shape))
            && (r == Err(LoopDetected) <==>
                exists chain :: |chain| == MAX_LEVEL + 1 - level && IncludeChain(fs, files, base, chain))
    decreases MAX_LEVEL + 1 - level, |files|
  {
    var r := LoadRest(fs, files, base, level, config, loaded);
    if files == [] {
      forall chain | |chain| == MAX_LEVEL + 1 - level ensures !IncludeChain(fs, files, base, chain) {
      }
      CleanWithLoaded(config, loaded, shape);
    } else if files[0] == STDIN {
      forall chain | |chain| == MAX_LEVEL + 1 - level ensures !IncludeChain(fs, files, base, chain) {
      }
    } else {
      var path := Locate(fs, base, files[0]);
      LoopExactlyOne(fs, path, level, reach, shape);
      VisitedRest(files);
      if LoadOne(fs, path, level).Ok? {
        var (tree, below) := LoadOne(fs, path, level).value;
        CleanMerge(tree, config, shape);
        LoopExactlyRest(fs, files[1..], base, level, Merge(tree, config, true), [path] + loaded + below, reach, shape);
      }
      ChainsSplit(fs, files, base, MAX_LEVEL + 1 - level);
    }
  }

  lemma VisitedRest(files: seq<string>)
    requires files != [] && files[0] != STDIN
    ensures forall name :: Visited(files, name) <==> name == files[0] || Visited(files[1..], name)
  {
    forall name ensures Visited(files, name) <==> name == files[0] || Visited(files[1..], name) {
      if Visited(files, name) {
        var i :| 0 <= i < |files| && files[i] == name && STDIN !in files[..i + 1];
        if i > 0 {
          assert files[1..][..i] == files[..i + 1][1..];
          assert files[1..][i - 1] == name;
        }
      }
      if Visited(files[1..], name) {
        var i :| 0 <= i < |files[1..]| && files[1..][i] == name && STDIN !in files[1..][..i + 1];
        assert files[..i + 2] == [files[0]] + files[1..][..i + 1];
        assert files[i + 1] == name;
      }
      if name == files[0] {
        assert files[..1] == [files[0]];
      }
    }
  }

  // A chain from a list starts at its first file or from the rest of the list.
  lemma ChainsSplit(fs: Files, files: seq<string>, base: Option<string>, n: nat)
    requires files != [] && files[0] != STDIN && n > 0
    ensures (exists chain :: |chain| == n && IncludeChain(fs, files, base, chain)) <==>
            || ChainFrom(fs, Locate(fs, base, files[0]), n - 1)
            || exists chain :: |chain| == n && IncludeChain(fs, files[1..], base, chain)
  {
    VisitedRest(files);
    var path := Locate(fs, base, files[0]);
    if ChainFrom(fs, path, n - 1) {
      var rest :| |rest| == n - 1 && IncludeChain(fs, Includes(fs, path).value, Some(fs.parent(path)), rest);
      assert ([files[0]] + rest)[1..] == rest;
      assert IncludeChain(fs, files, base, [files[0]] + rest);
    }
    forall chain | |chain| == n && IncludeChain(fs, files, base, chain)
      ensures ChainFrom(fs, path, n - 1) || IncludeChain(fs, files[1..], base, chain)
    {
      if chain[0] == files[0] {
        assert |chain[1..]| == n - 1;
      }
    }
    forall chain | |chain| == n && IncludeChain(fs, files[1..], base, chain)
      ensures IncludeChain(fs, files, base, chain)
    {
    }
  }

  ghost predicate ChainFrom(fs: Files, path: string, n: nat) {
    Includes(fs, path).Some? &&
    exists chain :: |chain| == n && IncludeChain(fs, Includes(fs, path).value, Some(fs.parent(path)), chain)
  }

  lemma {:induction false} LoopExactlyOne(fs: Files, path: string, level: nat, reach: iset<string>,
                                          shape: Shape)
    requires Clean(fs, reach, shape) && path in reach && level <= MAX_LEVEL
    ensures var r := LoadOne(fs, path, level);
            && (r.Ok? || r == Err(LoopDetected))
            && (r.Ok? ==> CleanTree(r.value.0, shape))
            && (r == Err(LoopDetected) <==> ChainFrom(fs, path, MAX_LEVEL - level))
    decreases MAX_LEVEL + 1 - level, 0
  {
    var doc := fs.read(path).tree;
    assert CleanTree(doc, shape);
    if INCLUDES in doc.entries {
      var names := NamesAt(doc, INCLUDES).value;
      LoopExactly(fs, names, Some(fs.parent(path)), level + 1, reach, shape);
      var sub := LoadFrom(fs, names, Some(fs.parent(path)), level + 1);
      if sub.Ok? {
        CleanMerge(doc, sub.value, shape);
      }
    }
  }

  // The two halves for the call the program makes: six nested includes are a loop, anything less is the fold.
  lemma LoaderMeaning(fs: Files, files: seq<string>, reach: iset<string>, shape: Shape)
    requires Clean(fs, reach, shape) && Within(fs, files, None, reach, shape)
    ensures var r := LoadFrom(fs, files, None, 0);
            if exists chain :: |chain| == 6 && IncludeChain(fs, files, None, chain)
            then r == Err(LoopDetected)
            else r.Ok? && SameSettings(r.value, Fold(Layers(fs, files, None, 0)))
  {
    LoopExactly(fs, files, None, 0, reach, shape);
    if LoadFrom(fs, files, None, 0).Ok? {
      LoadIsFlatFold(fs, files, None, 0);
    }
  }

  // ---- who wins ----

  // No layer clashes with the layers below it.
  ghost predicate Stacks(layers: seq<Tree>) {
    layers == [] ||
    (Stacks(layers[..|layers| - 1]) && Mergeable(layers[|layers| - 1], Fold(layers[..|layers| - 1]), true))
  }

  // At every path the last layer that says something there has its way.
  lemma {:induction false} LastWordWins(layers: seq<Tree>, i: nat, path: seq<string>)
    requires Stacks(layers) && i < |layers| && LeafAt(layers[i], path, true)
    requires forall j :: i < j < |layers| ==> SaysNothing(layers[j], path, true)
    ensures Lookup(Fold(layers), path) == Lookup(layers[i], path)
  {
    var rest, top := layers[..|layers| - 1], layers[|layers| - 1];
    if i == |rest| {
      SourceLeafWins(top, Fold(rest), path, true);
    } else {
      LastWordWins(rest, i, path);
      DestinationStays(top, Fold(rest), path, true);
    }
  }

  // So a setting of the last file is the one that is loaded, whatever its includes and the files before it say.
  lemma LastFileWins(fs: Files, files: seq<string>, base: Option<string>, level: nat, path: seq<string>)
    requires LoadFrom(fs, files, base, level).Ok? && files != [] && STDIN !in files
    requires path != [] && path[0] != LOADED
    ensures var source := fs.read(Locate(fs, base, files[|files| - 1]));
            && source.Doc?
            && (LeafAt(source.tree, path, true) ==>
                  Lookup(LoadFrom(fs, files, base, level).value, path) == Lookup(source.tree, path))
  {
    LastFileWinsRest(fs, files, base, level, EmptyTree, [], path);
  }

  lemma {:induction false} LastFileWinsRest(fs: Files, files: seq<string>, base: Option<string>, level: nat,
                                            config: Tree, loaded: seq<string>, path: seq<string>)
    requires level <= MAX_LEVEL && LoadRest(fs, files, base, level, config, loaded).Ok?
    requires files != [] && STDIN !in files && path != [] && path[0] != LOADED
    ensures var source := fs.read(Locate(fs, base, files[|files| - 1]));
            && source.Doc?
            && (LeafAt(source.tree, path, true) ==>
                  Lookup(LoadRest(fs, files, base, level, config, loaded).value, path) == Lookup(source.tree, path))
  {
    var file := Locate(fs, base, files[0]);
    var (tree, below) := LoadOne(fs, file, level).value;
    var next := Merge(tree, config, true);
    if |files| == 1 {
      if LeafAt(fs.read(file).tree, path, true) {
        FileBeatsIncludes(fs, file, level, path);
        SourceLeafWins(tree, config, path, true);
        assert files[1..] == [];
      }
    } else {
      LastFileWinsRest(fs, files[1..], base, level, next, [file] + loaded + below, path);
    }
  }

  lemma FileBeatsIncludes(fs: Files, file: string, level: nat, path: seq<string>)
    requires level <= MAX_LEVEL && LoadOne(fs, file, level).Ok? && LeafAt(fs.read(file).tree, path, true)
    ensures Lookup(LoadOne(fs, file, level).value.0, path) == Lookup(fs.read(file).tree, path)
  {
    var doc := fs.read(file).tree;
    if INCLUDES in doc.entries {
      var sub := LoadFrom(fs, NamesAt(doc, INCLUDES).value, Some(fs.parent(file)), level + 1).value;
      SourceLeafWins(doc, sub, path, true);
    }
  }

  // ---- files that cannot be read ----

  ghost predicate CannotBeRead(fs: Files, e: Error) {
    match e
    case NotFound(path) => fs.read(path) == Missing || (path == STDIN && fs.stdin == Missing)
    case SyntaxError(path) => fs.read(path) == Malformed || (path == STDIN && fs.stdin == Malformed)
    case _ => true
  }

  // The loader reports a file as missing or malformed only if it is.
  lemma {:induction false} ErrorsAreTrue(fs: Files, files: seq<string>, base: Option<string>, level: nat)
    ensures LoadFrom(fs, files, base, level).Err? ==> CannotBeRead(fs, LoadFrom(fs, files, base, level).error)
    decreases MAX_LEVEL + 1 - level, |files| + 1
  {
    if level <= MAX_LEVEL && files != [] {
      ErrorsAreTrueRest(fs, files, base, level, EmptyTree, []);
    }
  }

  lemma {:induction false} ErrorsAreTrueRest(fs: Files, files: seq<string>, base: Option<string>, level: nat,
                                             config: Tree, loaded: seq<string>)
    requires level <= MAX_LEVEL
    ensures var r := LoadRest(fs, files, base, level, config, loaded); r.Err? ==> CannotBeRead(fs, r.error)
    decreases MAX_LEVEL + 1 - level, |files|
  {
    if files != [] && files[0] != STDIN {
      var path := Locate(fs, base, files[0]);
      ErrorsAreTrueOne(fs, path, level);
      var one := LoadOne(fs, path, level);
      if one.Ok? && Mergeable(one.value.0, config, true) {
        ErrorsAreTrueRest(fs, files[1..], base, level, Merge(one.value.0, config, true),
                          [path] + loaded + one.value.1);
      }
    }
  }

  lemma {:induction false} ErrorsAreTrueOne(fs: Files, path: string, level: nat)
    requires level <= MAX_LEVEL
    ensures LoadOne(fs, path, level).Err? ==> CannotBeRead(fs, LoadOne(fs, path, level).error)
    decreases MAX_LEVEL + 1 - level, 0
  {
    if Includes(fs, path).Some? {
      ErrorsAreTrue(fs, Includes(fs, path).value, Some(fs.parent(path)), level + 1);
    }
  }

  // A document that names the files to include, if it says anything about them.
  predicate WellFormed(source: Source) {
    source.Doc? &&
    ("add_config_files" in source.tree.entries ==>
       var includes := source.tree.entries["add_config_files"]; includes == Null || includes.Names?)
  }

  // And it reports every such file: when it returns, all files on the way were read and well-formed, and so were
  // their includes.
  lemma {:induction false} AllFilesWereRead(fs: Files, files: seq<string>, base: Option<string>, level: nat)
    requires NoStdin(fs) && STDIN !in files && LoadFrom(fs, files, base, level).Ok?
    ensures forall path :: path in Paths(fs, files, base, level) ==> WellFormed(fs.read(path))
    decreases MAX_LEVEL + 1 - level, |files| + 1
  {
    if files != [] {
      AllFilesWereReadRest(fs, files, base, level, EmptyTree, []);
    }
  }

  lemma {:induction false} AllFilesWereReadRest(fs: Files, files: seq<string>, base: Option<string>, level: nat,
                                                config: Tree, loaded: seq<string>)
    requires NoStdin(fs) && STDIN !in files && level <= MAX_LEVEL
    requires LoadRest(fs, files, base, level, config, loaded).Ok?
    ensures forall path :: path in PathsOfAll(fs, files, base, level) ==> WellFormed(fs.read(path))
    decreases MAX_LEVEL + 1 - level, |files|
  {
    if files != [] {
      var path := Locate(fs, base, files[0]);
      var (tree, below) := LoadOne(fs, path, level).value;
      if Includes(fs, path).Some? {
        AllFilesWereRead(fs, Includes(fs, path).value, Some(fs.parent(path)), level + 1);
      }
      AllFilesWereReadRest(fs, files[1..], base, level, Merge(tree, config, true), [path] + loaded + below);
    }
  }

  // The names of a list are those of files beside the file that includes them, or as given at the top.
  lemma {:induction false} NamesAreRelative(fs: Files, files: seq<string>, base: Option<string>, level: nat,
                                            config: Tree, loaded: seq<string>)
    requires level <= MAX_LEVEL && STDIN !in files && LoadRest(fs, files, base, level, config, loaded).Ok?
    ensures base.Some? ==> forall name :: name in files ==> fs.read(fs.join(base.value, name)).Doc?
    ensures base.None? ==> forall name :: name in files ==> fs.read(name).Doc?
    decreases |files|
  {
    if files != [] {
      var path := Locate(fs, base, files[0]);
      var (tree, below) := LoadOne(fs, path, level).value;
      NamesAreRelative(fs, files[1..], base, level, Merge(tree, config, true), [path] + loaded + below);
    }
  }

  lemma IncludesAreBesideTheirFile(fs: Files, path: string, level: nat)
    requires level <= MAX_LEVEL && LoadOne(fs, path, level).Ok? && Includes(fs, path).Some?
    requires STDIN !in Includes(fs, path).value
    ensures forall name :: name in Includes(fs, path).value ==> fs.read(fs.join(fs.parent(path), name)).Doc?
  {
    var names := Includes(fs, path).value;
    if names != [] {
      NamesAreRelative(fs, names, Some(fs.parent(path)), level + 1, EmptyTree, []);
    }
  }

  // ---- the list of loaded files ----

  // What stands under `config_files` in the end: the files of the list, the last one first, and then, file by
  // file in the order of the list, what the includes of each have left there.
  ghost function Listed(fs: Files, files: seq<string>, base: Option<string>, level: nat): seq<string>
    decreases MAX_LEVEL + 1 - level, |files| + 1
  {
    if level > MAX_LEVEL then []
    else if files == [] then OwnList(Doc(fs.minimal))
    else if STDIN in files then OwnList(fs.stdin)
    else LastFirst(fs, files, base) + ListedBelow(fs, files, base, level)
  }

  // A document that is returned as it stands keeps its own list.
  ghost function OwnList(source: Source): seq<string> {
    if source.Doc? && NamesAt(source.tree, LOADED).Ok? then NamesAt(source.tree, LOADED).value else []
  }

  function LastFirst(fs: Files, files: seq<string>, base: Option<string>): seq<string> {
    if files == [] then [] else LastFirst(fs, files[1..], base) + [Locate(fs, base, files[0])]
  }

  ghost function ListedBelow(fs: Files, files: seq<string>, base: Option<string>, level: nat): seq<string>
    requires level <= MAX_LEVEL
    decreases MAX_LEVEL + 1 - level, |files|
  {
    if files == [] then []
    else ListedIncludes(fs, Locate(fs, base, files[0]), level) + ListedBelow(fs, files[1..], base, level)
  }

  ghost function ListedIncludes(fs: Files, path: string, level: nat): seq<string>
    requires level <= MAX_LEVEL
    decreases MAX_LEVEL + 1 - level, 0
  {
    if Includes(fs, path).Some? then Listed(fs, Includes(fs, path).value, Some(fs.parent(path)), level + 1) else []
  }

  // The loader leaves exactly that list, in exactly that order.
  lemma {:induction false} LoadedExactly(fs: Files, files: seq<string>, base: Option<string>, level: nat)
    requires LoadFrom(fs, files, base, level).Ok?
    ensures var names := NamesAt(LoadFrom(fs, files, base, level).value, LOADED);
            && (names.Ok? ==> names.value == Listed(fs, files, base, level))
            && (files != [] && STDIN !in files ==> names.Ok?)
    decreases MAX_LEVEL + 1 - level, |files| + 1
  {
    if STDIN in files {
      LoadRestIsFold(fs, files, base, level, EmptyTree, []);
    } else if files != [] {
      LoadedExactlyRest(fs, files, base, level, EmptyTree, []);
      assert LastFirst(fs, files, base) + [] == LastFirst(fs, files, base);
    }
  }

  lemma {:induction false} LoadedExactlyRest(fs: Files, files: seq<string>, base: Option<string>, level: nat,
                                             config: Tree, loaded: seq<string>)
    requires STDIN !in files && level <= MAX_LEVEL && LoadRest(fs, files, base, level, config, loaded).Ok?
    ensures NamesAt(LoadRest(fs, files, base, level, config, loaded).value, LOADED) ==
            Ok(LastFirst(fs, files, base) + loaded + ListedBelow(fs, files, base, level))
    decreases MAX_LEVEL + 1 - level, |files|
  {
    if files != [] {
      var path := Locate(fs, base, files[0]);
      var (tree, below) := LoadOne(fs, path, level).value;
      LoadedExactlyOne(fs, path, level);
      LoadedExactlyRest(fs, files[1..], base, level, Merge(tree, config, true), [path] + loaded + below);
      Regrouped(LastFirst(fs, files[1..], base), [path], loaded, below, ListedBelow(fs, files[1..], base, level));
    } else {
      assert [] + loaded + [] == loaded;
    }
  }

  lemma Regrouped(a: seq<string>, b: seq<string>, c: seq<string>, d: seq<string>, e: seq<string>)
    ensures a + (b + c + d) + e == (a + b) + c + (d + e)
  {
  }

  lemma {:induction false} LoadedExactlyOne(fs: Files, path: string, level: nat)
    requires level <= MAX_LEVEL && LoadOne(fs, path, level).Ok?
    ensures LoadOne(fs, path, level).value.1 == ListedIncludes(fs, path, level)
    decreases MAX_LEVEL + 1 - level, 0
  {
    if INCLUDES in fs.read(path).tree.entries {
      LoadedExactly(fs, Includes(fs, path).value, Some(fs.parent(path)), level + 1);
    }
  }

  // The paths read, in post-order.
  ghost function Paths(fs: Files, files: seq<string>, base: Option<string>, level: nat): seq<string>
    decreases MAX_LEVEL + 1 - level, |files| + 1
  {
    if level > MAX_LEVEL then [] else PathsOfAll(fs, files, base, level)
  }

  ghost function PathsOfAll(fs: Files, files: seq<string>, base: Option<string>, level: nat): seq<string>
    requires level <= MAX_LEVEL
    decreases MAX_LEVEL + 1 - level, |files|
  {
    if files == [] then []
    else
      var path := Locate(fs, base, files[0]);
      PathsOfIncludes(fs, path, level) + [path] + PathsOfAll(fs, files[1..], base, level)
  }

  ghost function PathsOfIncludes(fs: Files, path: string, level: nat): seq<string>
    requires level <= MAX_LEVEL
    decreases MAX_LEVEL + 1 - level, 0
  {
    if Includes(fs, path).Some? then Paths(fs, Includes(fs, path).value, Some(fs.parent(path)), level + 1) else []
  }

  // Only files add to the list: standard input is not used, and the minimal configuration has no list.
  ghost predicate NoStdin(fs: Files) {
    && LOADED !in fs.minimal.entries
    && forall path :: Includes(fs, path).Some? ==> STDIN !in Includes(fs, path).value
  }

  // So every file is listed exactly as often as it is read.
  lemma {:induction false} ListedAsOftenAsRead(fs: Files, files: seq<string>, base: Option<string>, level: nat)
    requires NoStdin(fs) && STDIN !in files
    ensures multiset(Listed(fs, files, base, level)) == multiset(Paths(fs, files, base, level))
    decreases MAX_LEVEL + 1 - level, |files| + 1
  {
    if level <= MAX_LEVEL && files != [] {
      ListedAsOftenRest(fs, files, base, level);
    }
  }

  lemma {:induction false} ListedAsOftenRest(fs: Files, files: seq<string>, base: Option<string>, level: nat)
    requires NoStdin(fs) && level <= MAX_LEVEL
    ensures multiset(LastFirst(fs, files, base) + ListedBelow(fs, files, base, level)) ==
            multiset(PathsOfAll(fs, files, base, level))
    decreases MAX_LEVEL + 1 - level, |files|
  {
    if files != [] {
      var path := Locate(fs, base, files[0]);
      if Includes(fs, path).Some? {
        ListedAsOftenAsRead(fs, Includes(fs, path).value, Some(fs.parent(path)), level + 1);
      }
      ListedAsOftenRest(fs, files[1..], base, level);
      SameCounts(LastFirst(fs, files[1..], base), ListedBelow(fs, files[1..], base, level),
                 PathsOfAll(fs, files[1..], base, level),
                 ListedIncludes(fs, path, level), PathsOfIncludes(fs, path, level), path);
    }
  }

  lemma SameCounts(files: seq<string>, below: seq<string>, rest: seq<string>, listed: seq<string>,
                   included: seq<string>, path: string)
    requires multiset(files + below) == multiset(rest) && multiset(listed) == multiset(included)
    ensures multiset(files + [path] + (listed + below)) == multiset(included + [path] + rest)
  {
  }
}
