/** Path aliases of a tsconfig: the `extends` chain, read from a graph of files that may have cycles. */
module TsPaths {

  datatype Option<+T> = None | Some(value: T)

  /** One compiler option as parsed: a text, a record of path mappings, or anything else. */
  datatype Value = Text(text: string) | Record(entries: map<string, seq<string>>) | Other

  /** The `extends` of a config: nothing usable, one specifier, or a list in which only the texts count. */
  datatype Extends = Nothing | One(specifier: string) | Many(entries: seq<Option<string>>)

  /** What a file holds: no JSON, or a config in the folder `dir`. */
  datatype Source = Broken | Parsed(dir: string, options: map<string, Value>, chain: Extends)

  /** The files, and what each specifier named from each folder resolves to. */
  datatype Disk = Disk(files: map<string, Source>, found: map<(string, string), string>)

  datatype Node = Node(dir: string, options: map<string, Value>, bases: seq<Node>)

  datatype Result<+T> = Ok(value: T) | Failed

  datatype Declared = Declared(value: Value, dir: string)

  function Texts(entries: seq<Option<string>>): seq<string> {
    if entries == [] then [] else (if entries[0].Some? then [entries[0].value] else []) + Texts(entries[1..])
  }

  function Specifiers(e: Extends): seq<string> {
    match e
    case Nothing => []
    case One(specifier) => [specifier]
    case Many(entries) => Texts(entries)
  }

  /** The files that specifiers resolve to from a folder, the unresolved ones dropped. */
  function Resolved(disk: Disk, dir: string, specifiers: seq<string>): seq<string> {
    if specifiers == [] then []
    else
      (if (dir, specifiers[0]) in disk.found then [disk.found[(dir, specifiers[0])]] else [])
      + Resolved(disk, dir, specifiers[1..])
  }

  /** The files a config extends, whether or not they were read before. */
  function Targets(disk: Disk, source: Source): seq<string> {
    if source.Broken? then [] else Resolved(disk, source.dir, Specifiers(source.chain))
  }

  function Unseen(files: seq<string>, chain: set<string>): (r: seq<string>)
    ensures forall f :: f in r <==> f in files && f !in chain
  {
    if files == [] then [] else (if files[0] in chain then [] else [files[0]]) + Unseen(files[1..], chain)
  }

  predicate Readable(disk: Disk, file: string) {
    file in disk.files && disk.files[file].Parsed?
  }

  /** Reads a config and all it extends, depth first; a config already on the path to here is not read again. */
  function ReadConfig(disk: Disk, file: string, seen: set<string>): Result<Node>
    requires file !in seen
    decreases |disk.files.Keys - seen|, 0
  {
    if !Readable(disk, file) then Failed
    else
      var source, chain := disk.files[file], seen + {file};
      FewerLeft(disk, file, seen);
      var bases := ReadAll(disk, Unseen(Targets(disk, source), chain), chain);
      if bases.Failed? then Failed else Ok(Node(source.dir, source.options, bases.value))
  }

  function ReadAll(disk: Disk, files: seq<string>, chain: set<string>): (r: Result<seq<Node>>)
    requires forall f <- files :: f !in chain
    decreases |disk.files.Keys - chain|, |files|
  {
    if files == [] then Ok([])
    else
      var first := ReadConfig(disk, files[0], chain);
      var rest := ReadAll(disk, files[1..], chain);
      if first.Failed? || rest.Failed? then Failed else Ok([first.value] + rest.value)
  }

  /** Why reading ends on a cyclic graph too: each step down leaves one file fewer to read. */
  lemma FewerLeft(disk: Disk, file: string, seen: set<string>)
    requires file in disk.files && file !in seen
    ensures |disk.files.Keys - (seen + {file})| < |disk.files.Keys - seen|
  {
    assert disk.files.Keys - (seen + {file}) == (disk.files.Keys - seen) - {file};
  }

  function Own(node: Node, key: string, accept: Value -> bool): Option<Declared> {
    if key in node.options && accept(node.options[key]) then Some(Declared(node.options[key], node.dir)) else None
  }

  /** The nearest declaration: the config's own, else its bases from the last to the first. */
  function Nearest(node: Node, key: string, accept: Value -> bool): (r: Option<Declared>)
    ensures r.Some? ==> accept(r.value.value)
    decreases node, 0
  {
    if Own(node, key, accept).Some? then Own(node, key, accept) else NearestOf(node.bases, key, accept)
  }

  function NearestOf(bases: seq<Node>, key: string, accept: Value -> bool): (r: Option<Declared>)
    ensures r.Some? ==> accept(r.value.value)
    decreases bases, 1
  {
    if bases == [] then None
    else
      var last := Nearest(bases[|bases| - 1], key, accept);
      if last.Some? then last else NearestOf(bases[..|bases| - 1], key, accept)
  }

  // ---- Against plain merging ----

  /** All options of a config by plain merging: the bases from left to right, then what the config itself declares acceptably. */
  function Merged(node: Node, accept: Value -> bool): (r: map<string, Declared>)
    ensures forall key <- r :: accept(r[key].value)
    decreases node, 0
  {
    MergedAll(map[], node.bases, accept)
      + map key | key in node.options && accept(node.options[key]) :: Declared(node.options[key], node.dir)
  }

  function MergedAll(start: map<string, Declared>, bases: seq<Node>, accept: Value -> bool): (r: map<string, Declared>)
    requires forall key <- start :: accept(start[key].value)
    ensures forall key <- r :: accept(r[key].value)
    decreases bases, 1
  {
    if bases == [] then start else MergedAll(start + Merged(bases[0], accept), bases[1..], accept)
  }

  function Lookup(options: map<string, Declared>, key: string): Option<Declared> {
    if key in options then Some(options[key]) else None
  }

  lemma {:induction false} MergedLast(start: map<string, Declared>, bases: seq<Node>, accept: Value -> bool)
    requires bases != [] && forall key <- start :: accept(start[key].value)
    ensures MergedAll(start, bases, accept)
         == MergedAll(start, bases[..|bases| - 1], accept) + Merged(bases[|bases| - 1], accept)
    decreases |bases|
  {
    var n := |bases| - 1;
    if n > 0 {
      MergedLast(start + Merged(bases[0], accept), bases[1..], accept);
      assert bases[..n][1..] == bases[1..][..n - 1];
    }
  }

  /** The search from the nearest config finds exactly what merging the whole tree leaves, value and folder. */
  lemma {:induction false} NearestIsMerged(node: Node, key: string, accept: Value -> bool)
    ensures Nearest(node, key, accept) == Lookup(Merged(node, accept), key)
    decreases node, 0
  {
    NearestOfIsMerged(node.bases, key, accept);
  }

  lemma {:induction false} NearestOfIsMerged(bases: seq<Node>, key: string, accept: Value -> bool)
    ensures NearestOf(bases, key, accept) == Lookup(MergedAll(map[], bases, accept), key)
    decreases bases, 1
  {
    if bases != [] {
      MergedLast(map[], bases, accept);
      NearestIsMerged(bases[|bases| - 1], key, accept);
      NearestOfIsMerged(bases[..|bases| - 1], key, accept);
    }
  }

  // ---- What a config extends ----

  lemma {:induction false} TextsConcat(a: seq<Option<string>>, b: seq<Option<string>>)
    ensures Texts(a + b) == Texts(a) + Texts(b)
    decreases |a|
  {
    if a == [] {
      assert a + b == b && Texts(a) + Texts(b) == Texts(b);
    } else {
      assert (a + b)[1..] == a[1..] + b && (a + b)[0] == a[0];
      TextsConcat(a[1..], b);
    }
  }

  lemma {:induction false} ResolvedConcat(disk: Disk, dir: string, a: seq<string>, b: seq<string>)
    ensures Resolved(disk, dir, a + b) == Resolved(disk, dir, a) + Resolved(disk, dir, b)
    decreases |a|
  {
    if a == [] {
      assert a + b == b && Resolved(disk, dir, a) + Resolved(disk, dir, b) == Resolved(disk, dir, b);
    } else {
      assert (a + b)[1..] == a[1..] + b && (a + b)[0] == a[0];
      ResolvedConcat(disk, dir, a[1..], b);
    }
  }

  /** A single specifier extends the file it resolves to from the config's own folder, if it resolves at all. */
  lemma OneSpecifier(disk: Disk, dir: string, options: map<string, Value>, s: string)
    ensures Targets(disk, Parsed(dir, options, One(s))) == if (dir, s) in disk.found then [disk.found[(dir, s)]] else []
    ensures Targets(disk, Parsed(dir, options, Nothing)) == [] && Targets(disk, Broken) == []
  {
    assert [s][1..] == [] && Resolved(disk, dir, []) == [];
    var first := if (dir, s) in disk.found then [disk.found[(dir, s)]] else [];
    assert Resolved(disk, dir, [s]) == first + [] && first + [] == first;
  }

  /** A list extends what its entries extend, one after the other; an entry that is no text extends nothing. */
  lemma ManySpecifiers(disk: Disk, dir: string, options: map<string, Value>, a: seq<Option<string>>, entry: Option<string>, b: seq<Option<string>>)
    ensures Targets(disk, Parsed(dir, options, Many(a + [entry] + b)))
         == Targets(disk, Parsed(dir, options, Many(a)))
            + (if entry.Some? then Targets(disk, Parsed(dir, options, One(entry.value))) else [])
            + Targets(disk, Parsed(dir, options, Many(b)))
  {
    TextsConcat(a + [entry], b);
    TextsConcat(a, [entry]);
    assert [entry][1..] == [] && Texts([entry]) == if entry.Some? then [entry.value] else [];
    ResolvedConcat(disk, dir, Texts(a) + Texts([entry]), Texts(b));
    ResolvedConcat(disk, dir, Texts(a), Texts([entry]));
    assert Resolved(disk, dir, []) == [];
  }

  lemma UnseenStep(files: seq<string>, chain: set<string>)
    requires files != []
    ensures Unseen(files, chain) == (if files[0] in chain then [] else [files[0]]) + Unseen(files[1..], chain)
  {
  }

  lemma TailOfConcat(a: seq<string>, b: seq<string>)
    requires a != []
    ensures (a + b)[1..] == a[1..] + b && (a + b)[0] == a[0] && a + b != []
  {
  }

  lemma Regroup(a: seq<string>, b: seq<string>, c: seq<string>)
    ensures a + (b + c) == a + b + c && [] + b == b
  {
  }

  lemma UnseenNone(chain: set<string>)
    ensures Unseen([], chain) == []
  {
  }

  lemma {:induction false} UnseenConcat(a: seq<string>, b: seq<string>, chain: set<string>)
    ensures Unseen(a + b, chain) == Unseen(a, chain) + Unseen(b, chain)
    decreases |a|
  {
    hide *;
    if a == [] {
      UnseenNone(chain);
      Regroup(a, b, []);
      Regroup(a, Unseen(b, chain), []);
    } else {
      UnseenConcat(a[1..], b, chain);
      TailOfConcat(a, b);
      UnseenStep(a, chain);
      UnseenStep(a + b, chain);
      Regroup(if a[0] in chain then [] else [a[0]], Unseen(a[1..], chain), Unseen(b, chain));
    }
  }

  /** Of the files to read next those on the path to here are left out, and the others stay in order. */
  lemma UnseenPieces(a: seq<string>, f: string, b: seq<string>, chain: set<string>)
    ensures Unseen(a + [f] + b, chain) == Unseen(a, chain) + (if f in chain then [] else [f]) + Unseen(b, chain)
  {
    UnseenConcat(a + [f], b, chain);
    UnseenConcat(a, [f], chain);
    UnseenStep([f], chain);
    assert [f][1..] == [] && Unseen([], chain) == [];
  }

  /** A config has exactly one base for each file it extends that is not on the path to it, in that order. */
  lemma {:induction false} BasesAreRead(disk: Disk, files: seq<string>, chain: set<string>, k: nat)
    requires (forall f <- files :: f !in chain) && ReadAll(disk, files, chain).Ok? && k < |files|
    ensures |ReadAll(disk, files, chain).value| == |files|
    ensures ReadConfig(disk, files[k], chain) == Ok(ReadAll(disk, files, chain).value[k])
    decreases |files|
  {
    if k > 0 {
      BasesAreRead(disk, files[1..], chain, k - 1);
    } else if |files| > 1 {
      BasesAreRead(disk, files[1..], chain, 0);
    } else {
      assert files[1..] == [];
    }
  }

  /** One config extends a file in the graph exactly when one of its specifiers resolves to that file from its own folder. */
  lemma EdgesBySpecifiers(disk: Disk, from: string, to: string)
    requires from in disk.files && disk.files[from].Parsed?
    ensures var source := disk.files[from];
            Edge(disk, from, to) <==>
              exists s :: (source.dir, s) in disk.found && disk.found[(source.dir, s)] == to
                          && (source.chain == One(s) || (source.chain.Many? && Some(s) in source.chain.entries))
  {
    var source := disk.files[from];
    InTexts(if source.chain.Many? then source.chain.entries else []);
    InResolved(disk, source.dir, Specifiers(source.chain));
  }

  lemma {:induction false} InTexts(entries: seq<Option<string>>)
    ensures forall s :: s in Texts(entries) <==> Some(s) in entries
  {
    if entries != [] { InTexts(entries[1..]); }
  }

  lemma {:induction false} InResolved(disk: Disk, dir: string, specifiers: seq<string>)
    ensures forall f :: f in Resolved(disk, dir, specifiers) <==>
              exists s :: s in specifiers && (dir, s) in disk.found && disk.found[(dir, s)] == f
  {
    if specifiers != [] {
      InResolved(disk, dir, specifiers[1..]);
      forall f ensures f in Resolved(disk, dir, specifiers) <==>
        exists s :: s in specifiers && (dir, s) in disk.found && disk.found[(dir, s)] == f
      {
        assert forall s :: s in specifiers <==> s == specifiers[0] || s in specifiers[1..];
      }
    }
  }

  // ---- Against the graph of files ----

  predicate Edge(disk: Disk, from: string, to: string) {
    from in disk.files && to in Targets(disk, disk.files[from])
  }

  /** A walk along `extends`, which may come back to a file, outside the files `seen`. */
  predicate Walk(disk: Disk, path: seq<string>, seen: set<string>) {
    && path != []
    && (forall k :: 0 <= k < |path| ==> path[k] !in seen)
    && forall k :: 0 < k < |path| ==> Edge(disk, path[k - 1], path[k])
  }

  ghost predicate Reaches(disk: Disk, seen: set<string>, file: string, target: string) {
    exists path :: Walk(disk, path, seen) && path[0] == file && path[|path| - 1] == target
  }

  /** The last place of a file on a path that starts with it. */
  function LastPlace(path: seq<string>, file: string): (k: nat)
    requires path != [] && path[0] == file
    ensures k < |path| && path[k] == file && forall j :: k < j < |path| ==> path[j] != file
  {
    if path[|path| - 1] == file then |path| - 1 else LastPlace(path[..|path| - 1], file)
  }

  lemma StepIn(disk: Disk, seen: set<string>, file: string, next: string, target: string)
    requires file !in seen && Edge(disk, file, next) && Reaches(disk, seen + {file}, next, target)
    ensures Reaches(disk, seen, file, target)
  {
    hide Edge;
    var path :| Walk(disk, path, seen + {file}) && path[0] == next && path[|path| - 1] == target;
    var whole := [file] + path;
    assert forall k :: 0 < k < |whole| ==> Edge(disk, whole[k - 1], whole[k]) by {
      forall k | 0 < k < |whole| ensures Edge(disk, whole[k - 1], whole[k]) {
        assert whole[k] == path[k - 1] && (k > 1 ==> whole[k - 1] == path[k - 2]);
      }
    }
    assert Walk(disk, whole, seen);
  }

  /** A file reached by any walk is reached by one that does not come back to where it starts. */
  lemma StepOut(disk: Disk, seen: set<string>, file: string, target: string) returns (next: string)
    requires file !in seen && target != file && Reaches(disk, seen, file, target)
    ensures Edge(disk, file, next) && next !in seen + {file} && Reaches(disk, seen + {file}, next, target)
  {
    hide Edge, LastPlace;
    var path :| Walk(disk, path, seen) && path[0] == file && path[|path| - 1] == target;
    var k := LastPlace(path, file);
    var rest := path[k + 1..];
    next := rest[0];
    assert Edge(disk, path[k], path[k + 1]);
    forall j | 0 < j < |rest| ensures Edge(disk, rest[j - 1], rest[j]) {
      assert Edge(disk, path[k + j], path[k + 1 + j]);
    }
    assert Walk(disk, rest, seen + {file});
  }

  ghost predicate AllReadable(disk: Disk, seen: set<string>, file: string) {
    forall t :: Reaches(disk, seen, file, t) ==> Readable(disk, t)
  }

  lemma ReachesItself(disk: Disk, seen: set<string>, file: string)
    requires file !in seen
    ensures Reaches(disk, seen, file, file)
  {
    assert Walk(disk, [file], seen);
  }

  /** Reading succeeds exactly when every file that can be reached holds a config. */
  lemma {:induction false} ReadsAllReachable(disk: Disk, file: string, seen: set<string>)
    requires file !in seen
    ensures ReadConfig(disk, file, seen).Ok? <==> AllReadable(disk, seen, file)
    decreases |disk.files.Keys - seen|, 0
  {
    ReachesItself(disk, seen, file);
    if Readable(disk, file) {
      var chain := seen + {file};
      var bases := Unseen(Targets(disk, disk.files[file]), chain);
      FewerLeft(disk, file, seen);
      ReadAllReachable(disk, bases, chain);
      if forall f <- bases :: AllReadable(disk, chain, f) {
        forall t | Reaches(disk, seen, file, t) && t != file ensures Readable(disk, t) {
          var next := StepOut(disk, seen, file, t);
          assert next in bases;
        }
      } else {
        var f :| f in bases && !AllReadable(disk, chain, f);
        var t :| Reaches(disk, chain, f, t) && !Readable(disk, t);
        StepIn(disk, seen, file, f, t);
      }
    }
  }

  lemma {:induction false} ReadAllReachable(disk: Disk, files: seq<string>, chain: set<string>)
    requires forall f <- files :: f !in chain
    ensures ReadAll(disk, files, chain).Ok? <==> forall f <- files :: AllReadable(disk, chain, f)
    decreases |disk.files.Keys - chain|, |files|
  {
    if files != [] {
      ReadsAllReachable(disk, files[0], chain);
      ReadAllReachable(disk, files[1..], chain);
      assert forall f <- files :: f == files[0] || f in files[1..];
    }
  }

  /** What one file itself declares. */
  function DeclaredBy(disk: Disk, file: string, key: string, accept: Value -> bool): Option<Declared> {
    if Readable(disk, file) then Own(Node(disk.files[file].dir, disk.files[file].options, []), key, accept) else None
  }

  /** Some file reached from here declares exactly this. */
  ghost predicate DeclaredWithin(disk: Disk, seen: set<string>, file: string, key: string, accept: Value -> bool, d: Declared) {
    exists t :: Reaches(disk, seen, file, t) && DeclaredBy(disk, t, key, accept) == Some(d)
  }

  /** What the search finds, some reachable file declares; and it finds something as soon as one does. */
  ghost predicate FindsWithin(disk: Disk, seen: set<string>, file: string, key: string, accept: Value -> bool, found: Option<Declared>) {
    && (found.Some? ==> DeclaredWithin(disk, seen, file, key, accept, found.value))
    && (found.None? ==> forall d :: !DeclaredWithin(disk, seen, file, key, accept, d))
  }

  lemma {:induction false} NearestIsComplete(disk: Disk, file: string, seen: set<string>, key: string, accept: Value -> bool)
    requires file !in seen && ReadConfig(disk, file, seen).Ok?
    ensures FindsWithin(disk, seen, file, key, accept, Nearest(ReadConfig(disk, file, seen).value, key, accept))
    decreases |disk.files.Keys - seen|, 0
  {
    ReachesItself(disk, seen, file);
    var chain := seen + {file};
    var bases := Unseen(Targets(disk, disk.files[file]), chain);
    var node := ReadConfig(disk, file, seen).value;
    assert Own(node, key, accept) == DeclaredBy(disk, file, key, accept);
    FewerLeft(disk, file, seen);
    NearestOfIsComplete(disk, bases, chain, key, accept);
    if Own(node, key, accept).None? {
      var found := NearestOf(node.bases, key, accept);
      if found.Some? {
        var f :| f in bases && DeclaredWithin(disk, chain, f, key, accept, found.value);
        var t :| Reaches(disk, chain, f, t) && DeclaredBy(disk, t, key, accept) == Some(found.value);
        StepIn(disk, seen, file, f, t);
      } else {
        forall d | DeclaredWithin(disk, seen, file, key, accept, d) ensures false {
          var t :| Reaches(disk, seen, file, t) && DeclaredBy(disk, t, key, accept) == Some(d);
          var next := StepOut(disk, seen, file, t);
          assert next in bases && DeclaredWithin(disk, chain, next, key, accept, d);
        }
      }
    }
  }

  lemma {:induction false} NearestOfIsComplete(disk: Disk, files: seq<string>, chain: set<string>, key: string, accept: Value -> bool)
    requires forall f <- files :: f !in chain
    requires ReadAll(disk, files, chain).Ok?
    ensures var found := NearestOf(ReadAll(disk, files, chain).value, key, accept);
            && (found.Some? ==> exists f :: f in files && DeclaredWithin(disk, chain, f, key, accept, found.value))
            && (found.None? ==> forall f, d :: f in files ==> !DeclaredWithin(disk, chain, f, key, accept, d))
    decreases |disk.files.Keys - chain|, |files|
  {
    if files != [] {
      NearestIsComplete(disk, files[0], chain, key, accept);
      NearestOfIsComplete(disk, files[1..], chain, key, accept);
      var first := ReadConfig(disk, files[0], chain).value;
      var rest := ReadAll(disk, files[1..], chain).value;
      FirstIsLast(first, rest, key, accept);
      assert forall f <- files :: f == files[0] || f in files[1..];
    }
  }

  /** Of a list of bases, the first one is asked last. */
  lemma {:induction false} FirstIsLast(first: Node, rest: seq<Node>, key: string, accept: Value -> bool)
    ensures NearestOf([first] + rest, key, accept)
         == if NearestOf(rest, key, accept).Some? then NearestOf(rest, key, accept) else Nearest(first, key, accept)
    decreases |rest|
  {
    var all := [first] + rest;
    if rest == [] {
      assert all[..0] == [];
    } else {
      assert all[|all| - 1] == rest[|rest| - 1] && all[..|all| - 1] == [first] + rest[..|rest| - 1];
      FirstIsLast(first, rest[..|rest| - 1], key, accept);
    }
  }

  // ---- The aliases ----

  datatype Aliases = Aliases(baseUrl: string, paths: map<string, seq<string>>)

  const isText: Value -> bool := (v: Value) => v.Text?
  const isPaths: Value -> bool := (v: Value) => v.Record?

  /** The aliases of a tsconfig; `resolve` joins a folder and a path. */
  function ResolveTsPaths(disk: Disk, file: string, resolve: (string, string) -> string): Result<Option<Aliases>> {
    var root := ReadConfig(disk, file, {});
    if root.Failed? then Failed
    else
      var paths := Nearest(root.value, "paths", isPaths);
      if paths.None? then Ok(None)
      else
        var baseUrl := Nearest(root.value, "baseUrl", isText);
        Ok(Some(Aliases(
          if baseUrl.None? then paths.value.dir else resolve(baseUrl.value.dir, baseUrl.value.value.text),
          paths.value.value.entries)))
  }

  /**
   The aliases fail exactly when some file of the chain holds no config, are absent exactly when no file of the chain declares
   `paths`, and otherwise are what plain merging leaves, relative to the merged `baseUrl` or else to where `paths` came from.
  */
  lemma AliasesAreMerged(disk: Disk, file: string, resolve: (string, string) -> string)
    ensures var r := ResolveTsPaths(disk, file, resolve);
            && (r.Failed? <==> exists t :: Reaches(disk, {}, file, t) && !Readable(disk, t))
            && (r.Ok? ==>
                  && (r.value.None? <==> forall d :: !DeclaredWithin(disk, {}, file, "paths", isPaths, d))
                  && (r.value.Some? ==>
                        var root := ReadConfig(disk, file, {}).value;
                        var paths, bases := Merged(root, isPaths), Merged(root, isText);
                        && "paths" in paths
                        && paths["paths"].value == Record(r.value.value.paths)
                        && r.value.value.baseUrl == if "baseUrl" !in bases then paths["paths"].dir
                                                    else resolve(bases["baseUrl"].dir, bases["baseUrl"].value.text)))
    ensures forall v :: (isPaths(v) <==> v.Record?) && (isText(v) <==> v.Text?)
  {
    ReadsAllReachable(disk, file, {});
    if ReadConfig(disk, file, {}).Ok? {
      var root := ReadConfig(disk, file, {}).value;
      NearestIsComplete(disk, file, {}, "paths", isPaths);
      NearestIsMerged(root, "paths", isPaths);
      NearestIsMerged(root, "baseUrl", isText);
    }
  }
}
