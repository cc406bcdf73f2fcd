/** Assembling a configuration from a file and everything it includes. */
module ConfigAssembly {
  import opened Prelude
  import opened Sequences
  import opened ConfigMerge

  type Path = string

  /** A readable configuration file: its object, and the paths its references resolve to, in order. */
  datatype File = File(content: Object, refs: seq<Path>)

  type Files = map<Path, File>

  const CYCLE := "config include cycle detected"
  const UNREADABLE := "config file cannot be read"

  const STRIPPED := {"config_refs", "include_configs", "schema", "role", "description", "kind"}
  const CONFIG_PATH := "__config_path"
  const CONFIG_FRAGMENTS := "__config_fragments"

  /** `_runtime_payload`. */
  function RuntimePayload(o: Object): Object {
    o - STRIPPED
  }

  function PathList(paths: seq<Path>): Value {
    List(seq(|paths|, i requires 0 <= i < |paths| => Plain(paths[i])))
  }

  function Tagged(o: Object, path: Path, fragments: seq<Path>): Object {
    var located := o[CONFIG_PATH := Plain(path)];
    if fragments != [] then located[CONFIG_FRAGMENTS := PathList(fragments)] else located
  }

  /** Only the root profile's references come from the router manifest, if that lists any. */
  function RefsOf(files: Files, manifest: seq<Path>, path: Path, root: bool): seq<Path>
    requires path in files
  {
    if root && manifest != [] then manifest else files[path].refs
  }

  // ----- loading -----------------------------------------------------------------------------------------------------

  /** `load_assembled_config`. It terminates on every include graph: what shrinks is the set of files not on the current
      include path. */
  function Load(files: Files, manifest: seq<Path>, path: Path, seen: set<Path>, root: bool): Result<Object, string>
    decreases files.Keys - seen, 0
  {
    if path in seen then Err(CYCLE)
    else if path !in files then Err(UNREADABLE)
    else
      assert path in files.Keys - seen && path !in files.Keys - (seen + {path});
      var refs := RefsOf(files, manifest, path, root);
      var assembled := LoadRefs(files, manifest, refs, seen + {path}, map[]);
      if assembled.Err? then assembled
      else Ok(Tagged(DeepMerge(assembled.value, RuntimePayload(files[path].content)), path, refs))
  }

  /** The loop over the references: each assembled fragment is merged over what came before. */
  function LoadRefs(files: Files, manifest: seq<Path>, refs: seq<Path>, seen: set<Path>, assembled: Object): Result<Object, string>
    decreases files.Keys - seen, 1 + |refs|
  {
    if refs == [] then Ok(assembled)
    else
      var fragment := Load(files, manifest, refs[0], seen, false);
      if fragment.Err? then fragment
      else LoadRefs(files, manifest, refs[1..], seen, DeepMerge(assembled, RuntimePayload(fragment.value)))
  }

  method LoadAssembledConfig(files: Files, manifest: seq<Path>, path: Path, seen: set<Path>, root: bool) returns (r: Result<Object, string>)
    ensures r == Load(files, manifest, path, seen, root)
    decreases files.Keys - seen
  {
    hide DeepMerge, Tagged;
    if path in seen {
      return Err(CYCLE);
    }
    if path !in files {
      return Err(UNREADABLE);
    }
    var onPath := seen + {path};
    assert path in files.Keys - seen && path !in files.Keys - onPath;
    var refs := RefsOf(files, manifest, path, root);
    var assembled: Object := map[];
    var fragments: seq<Path> := [];
    while |fragments| < |refs|
      invariant |fragments| <= |refs| && fragments == refs[..|fragments|]
      invariant LoadRefs(files, manifest, refs, onPath, map[]) == LoadRefs(files, manifest, refs[|fragments|..], onPath, assembled)
    {
      var next := refs[|fragments|];
      assert refs[|fragments|..][1..] == refs[|fragments| + 1..];
      var fragment := LoadAssembledConfig(files, manifest, next, onPath, false);
      if fragment.Err? {
        return fragment;
      }
      fragments := fragments + [next];
      assembled := DeepMerge(assembled, RuntimePayload(fragment.value));
    }
    assert refs[|fragments|..] == [] && fragments == refs;
    return Ok(Tagged(DeepMerge(assembled, RuntimePayload(files[path].content)), path, fragments));
  }

  // ----- what is loaded -----------------------------------------------------------------------------------------------------

  /** The references of a file: for the root, those of the router manifest if it lists any. */
  ghost predicate References(files: Files, manifest: seq<Path>, path: Path, root: bool, refs: seq<Path>) {
    && path in files
    && (root && manifest != [] ==> refs == manifest)
    && (!root || manifest == [] ==> refs == files[path].refs)
  }

  /** A loaded configuration names its path and, if there are any, its fragments, in order; of the file's own object it drops the
      six keys that describe a file, and what is left of it wins over the fragments, except where both have an object. */
  lemma LoadedConfig(files: Files, manifest: seq<Path>, path: Path, seen: set<Path>, root: bool, refs: seq<Path>)
    requires Load(files, manifest, path, seen, root).Ok? && References(files, manifest, path, root, refs)
    ensures var loaded, own := Load(files, manifest, path, seen, root).value, files[path].content;
            && "__config_path" in loaded && loaded["__config_path"] == Text(path, None)
            && (refs != [] ==>
                  && "__config_fragments" in loaded && loaded["__config_fragments"].List?
                  && |loaded["__config_fragments"].items| == |refs|
                  && forall i :: 0 <= i < |refs| ==> loaded["__config_fragments"].items[i] == Text(refs[i], None))
            && (forall k :: k in own && k !in {"config_refs", "include_configs", "schema", "role", "description", "kind"}
                            && k !in {"__config_path", "__config_fragments"} ==>
                  k in loaded && (!own[k].Record? ==> loaded[k] == own[k]))
            && (refs == [] ==>
                  && (forall k :: k in loaded <==>
                        k == "__config_path" || (k in own && k !in {"config_refs", "include_configs", "schema", "role", "description", "kind"}))
                  && (forall k :: k in loaded && k != "__config_path" ==> loaded[k] == own[k]))
  {
    var assembled := LoadRefs(files, manifest, refs, seen + {path}, map[]);
    assert RefsOf(files, manifest, path, root) == refs;
    OwnWins(assembled.value, files[path].content);
  }

  lemma OwnWins(assembled: Object, own: Object)
    ensures var merged := DeepMerge(assembled, RuntimePayload(own));
            forall k :: k in own && k !in STRIPPED ==> k in merged && (!own[k].Record? ==> merged[k] == own[k])
  {
  }

  // ----- cycles -----------------------------------------------------------------------------------------------------------

  /** An include chain from a file: each next one is referenced by the one before. */
  ghost predicate Chain(files: Files, manifest: seq<Path>, chain: seq<Path>, root: bool) {
    && chain != []
    && forall i :: 0 <= i < |chain| - 1 ==>
         chain[i] in files && chain[i + 1] in RefsOf(files, manifest, chain[i], root && i == 0)
  }

  /** A chain that ends in a readable file and has come across no file twice, nor one that was there before it. */
  ghost predicate Sound(files: Files, seen: set<Path>, chain: seq<Path>)
    requires chain != []
  {
    && chain[|chain| - 1] in files && NoDup(chain) && forall p :: p in chain ==> p !in seen
  }

  ghost predicate AllSound(files: Files, manifest: seq<Path>, path: Path, seen: set<Path>, root: bool) {
    forall chain :: Chain(files, manifest, chain, root) && chain[0] == path ==> Sound(files, seen, chain)
  }

  lemma ChainTail(files: Files, manifest: seq<Path>, chain: seq<Path>, root: bool)
    requires Chain(files, manifest, chain, root) && |chain| > 1
    ensures Chain(files, manifest, chain[1..], false)
    ensures chain[0] in files && chain[1] in RefsOf(files, manifest, chain[0], root)
  {
  }

  lemma ChainExtend(files: Files, manifest: seq<Path>, path: Path, chain: seq<Path>, root: bool)
    requires Chain(files, manifest, chain, false) && path in files && chain[0] in RefsOf(files, manifest, path, root)
    ensures Chain(files, manifest, [path] + chain, root)
  {
    var longer := [path] + chain;
    forall i | 0 <= i < |longer| - 1
      ensures longer[i] in files && longer[i + 1] in RefsOf(files, manifest, longer[i], root && i == 0)
    {
      if i > 0 {
        assert longer[i] == chain[i - 1] && longer[i + 1] == chain[i];
      }
    }
  }

  /** Loading succeeds exactly when every include chain from the file leads to readable files and repeats none: a file that is
      included on two different chains is no obstacle. */
  lemma {:induction false} LoadsIff(files: Files, manifest: seq<Path>, path: Path, seen: set<Path>, root: bool)
    ensures Load(files, manifest, path, seen, root).Ok? <==> AllSound(files, manifest, path, seen, root)
    decreases files.Keys - seen, 0
  {
    hide DeepMerge, Tagged, RefsOf, NoDup;
    if path in seen || path !in files {
      SingleChain(files, manifest, path, seen, root);
    } else {
      assert path in files.Keys - seen && path !in files.Keys - (seen + {path});
      var refs := RefsOf(files, manifest, path, root);
      RefsLoadIff(files, manifest, refs, seen + {path}, map[]);
      if forall r :: r in refs ==> AllSound(files, manifest, r, seen + {path}, false) {
        TailsSound(files, manifest, path, seen, root);
      } else {
        var r :| r in refs && !AllSound(files, manifest, r, seen + {path}, false);
        TailUnsound(files, manifest, path, r, seen, root);
      }
    }
  }

  lemma SingleChain(files: Files, manifest: seq<Path>, path: Path, seen: set<Path>, root: bool)
    requires path in seen || path !in files
    ensures !AllSound(files, manifest, path, seen, root)
  {
    assert Chain(files, manifest, [path], root);
    assert path in [path];
  }

  lemma TailsSound(files: Files, manifest: seq<Path>, path: Path, seen: set<Path>, root: bool)
    requires path in files && path !in seen
    requires forall r :: r in RefsOf(files, manifest, path, root) ==> AllSound(files, manifest, r, seen + {path}, false)
    ensures AllSound(files, manifest, path, seen, root)
  {
    forall chain | Chain(files, manifest, chain, root) && chain[0] == path ensures Sound(files, seen, chain) {
      if |chain| > 1 {
        ChainTail(files, manifest, chain, root);
        var tail := chain[1..];
        assert AllSound(files, manifest, tail[0], seen + {path}, false);
        assert Sound(files, seen + {path}, tail);
        assert chain == [path] + tail;
        assert path !in tail;
      }
    }
  }

  lemma SoundTail(files: Files, path: Path, tail: seq<Path>, seen: set<Path>)
    requires tail != [] && Sound(files, seen, [path] + tail)
    ensures Sound(files, seen + {path}, tail)
  {
    var chain := [path] + tail;
    assert forall i :: 0 <= i < |tail| ==> tail[i] == chain[i + 1];
    assert chain[0] == path && chain[|chain| - 1] == tail[|tail| - 1];
  }

  lemma TailUnsound(files: Files, manifest: seq<Path>, path: Path, r: Path, seen: set<Path>, root: bool)
    requires path in files && r in RefsOf(files, manifest, path, root) && !AllSound(files, manifest, r, seen + {path}, false)
    ensures !AllSound(files, manifest, path, seen, root)
  {
    var tail :| Chain(files, manifest, tail, false) && tail[0] == r && !Sound(files, seen + {path}, tail);
    ChainExtend(files, manifest, path, tail, root);
    assert ([path] + tail)[0] == path;
    TailOf(files, path, tail, seen);
    hide Sound, Chain;
  }

  lemma TailOf(files: Files, path: Path, tail: seq<Path>, seen: set<Path>)
    requires tail != []
    ensures Sound(files, seen, [path] + tail) ==> Sound(files, seen + {path}, tail)
  {
    if Sound(files, seen, [path] + tail) {
      SoundTail(files, path, tail, seen);
    }
  }

  lemma {:induction false} RefsLoadIff(files: Files, manifest: seq<Path>, refs: seq<Path>, seen: set<Path>, assembled: Object)
    ensures LoadRefs(files, manifest, refs, seen, assembled).Ok? <==>
            forall r :: r in refs ==> AllSound(files, manifest, r, seen, false)
    decreases files.Keys - seen, 1 + |refs|
  {
    hide AllSound, DeepMerge;
    if refs != [] {
      LoadsIff(files, manifest, refs[0], seen, false);
      var fragment := Load(files, manifest, refs[0], seen, false);
      if fragment.Ok? {
        RefsLoadIff(files, manifest, refs[1..], seen, DeepMerge(assembled, RuntimePayload(fragment.value)));
      }
    }
  }

  /** Every include chain from the file ends in a file that can be read. What the other files refer to does not matter. */
  ghost predicate Readable(files: Files, manifest: seq<Path>, path: Path, root: bool) {
    forall chain :: Chain(files, manifest, chain, root) && chain[0] == path ==> chain[|chain| - 1] in files
  }

  lemma ReadableRefs(files: Files, manifest: seq<Path>, path: Path, r: Path, root: bool)
    requires Readable(files, manifest, path, root) && path in files && r in RefsOf(files, manifest, path, root)
    ensures Readable(files, manifest, r, false)
  {
    forall chain | Chain(files, manifest, chain, false) && chain[0] == r ensures chain[|chain| - 1] in files {
      ChainExtend(files, manifest, path, chain, root);
      assert ([path] + chain)[0] == path && ([path] + chain)[|chain|] == chain[|chain| - 1];
    }
  }

  lemma ReadableItself(files: Files, manifest: seq<Path>, path: Path, root: bool)
    requires Readable(files, manifest, path, root)
    ensures path in files
  {
    assert Chain(files, manifest, [path], root);
  }

  lemma {:induction false} OnlyCyclesFail(files: Files, manifest: seq<Path>, path: Path, seen: set<Path>, root: bool)
    requires Readable(files, manifest, path, root)
    ensures Load(files, manifest, path, seen, root).Err? ==> Load(files, manifest, path, seen, root) == Err(CYCLE)
    decreases files.Keys - seen, 0
  {
    hide DeepMerge, Tagged, Readable, RefsOf;
    ReadableItself(files, manifest, path, root);
    if path !in seen {
      assert path in files.Keys - seen && path !in files.Keys - (seen + {path});
      forall r | r in RefsOf(files, manifest, path, root) ensures Readable(files, manifest, r, false) {
        ReadableRefs(files, manifest, path, r, root);
      }
      OnlyCyclesFailRefs(files, manifest, RefsOf(files, manifest, path, root), seen + {path}, map[]);
    }
  }

  lemma {:induction false} OnlyCyclesFailRefs(files: Files, manifest: seq<Path>, refs: seq<Path>, seen: set<Path>, assembled: Object)
    requires forall r :: r in refs ==> Readable(files, manifest, r, false)
    ensures LoadRefs(files, manifest, refs, seen, assembled).Err? ==> LoadRefs(files, manifest, refs, seen, assembled) == Err(CYCLE)
    decreases files.Keys - seen, 1 + |refs|
  {
    hide DeepMerge, Readable;
    if refs != [] {
      OnlyCyclesFail(files, manifest, refs[0], seen, false);
      var fragment := Load(files, manifest, refs[0], seen, false);
      if fragment.Ok? {
        OnlyCyclesFailRefs(files, manifest, refs[1..], seen, DeepMerge(assembled, RuntimePayload(fragment.value)));
      }
    }
  }

  /** The cycle error is raised exactly when some include chain from the root repeats a file, if every file an include chain
      reaches can be read. */
  lemma CycleErrorIff(files: Files, manifest: seq<Path>, path: Path)
    requires Readable(files, manifest, path, true)
    ensures Load(files, manifest, path, {}, true) == Err(CYCLE) <==>
            exists chain :: Chain(files, manifest, chain, true) && chain[0] == path && !NoDup(chain)
  {
    LoadsIff(files, manifest, path, {}, true);
    OnlyCyclesFail(files, manifest, path, {}, true);
  }

  /** What every file refers to can be read: enough for every chain, and checked without following any. */
  ghost predicate Closed(files: Files, manifest: seq<Path>) {
    && (forall p, r :: p in files && r in files[p].refs ==> r in files)
    && (forall r :: r in manifest ==> r in files)
  }

  lemma ClosedIsReadable(files: Files, manifest: seq<Path>, path: Path, root: bool)
    requires Closed(files, manifest) && path in files
    ensures Readable(files, manifest, path, root)
  {
    forall chain | Chain(files, manifest, chain, root) && chain[0] == path ensures chain[|chain| - 1] in files {
      if |chain| > 1 {
        var i := |chain| - 2;
        assert chain[i] in files && chain[i + 1] in RefsOf(files, manifest, chain[i], root && i == 0);
      }
    }
  }

  /** The rank falls along every reference an include chain from the root follows. */
  ghost predicate Falls(files: Files, manifest: seq<Path>, path: Path, rank: Path -> int) {
    forall chain :: Chain(files, manifest, chain, true) && chain[0] == path && |chain| > 1 ==>
      rank(chain[|chain| - 1]) < rank(chain[|chain| - 2])
  }

  /** Any include graph whose reachable files can be ranked above what they include loads, diamonds and all. */
  lemma RankedLoads(files: Files, manifest: seq<Path>, path: Path, rank: Path -> int)
    requires Readable(files, manifest, path, true) && Falls(files, manifest, path, rank)
    ensures Load(files, manifest, path, {}, true).Ok?
  {
    LoadsIff(files, manifest, path, {}, true);
    forall chain | Chain(files, manifest, chain, true) && chain[0] == path ensures Sound(files, {}, chain) {
      forall i, j | 0 <= i < j < |chain| ensures chain[i] != chain[j] {
        RanksFall(files, manifest, path, rank, chain, i, j);
      }
    }
  }

  lemma ChainUpTo(files: Files, manifest: seq<Path>, chain: seq<Path>, j: nat)
    requires Chain(files, manifest, chain, true) && j < |chain|
    ensures Chain(files, manifest, chain[..j + 1], true)
  {
    hide RefsOf;
  }

  lemma {:induction false} RanksFall(files: Files, manifest: seq<Path>, path: Path, rank: Path -> int, chain: seq<Path>, i: int, j: int)
    requires Chain(files, manifest, chain, true) && chain[0] == path && 0 <= i < j < |chain|
    requires Falls(files, manifest, path, rank)
    ensures rank(chain[j]) < rank(chain[i])
    decreases j
  {
    var upTo := chain[..j + 1];
    ChainUpTo(files, manifest, chain, j);
    assert upTo[0] == path && upTo[|upTo| - 1] == chain[j] && upTo[|upTo| - 2] == chain[j - 1];
    hide Chain;
    if i < j - 1 {
      RanksFall(files, manifest, path, rank, chain, i, j - 1);
    }
  }

  // ----- nested merging is a flat fold -----------------------------------------------------------------------------------------

  function Untagged(o: Object): Object {
    o - {CONFIG_PATH, CONFIG_FRAGMENTS}
  }

  function Own(files: Files, path: Path): Object
    requires path in files
  {
    Untagged(RuntimePayload(files[path].content))
  }

  /** The own payloads of a file and everything it includes, includes first. */
  function PostOrder(files: Files, manifest: seq<Path>, path: Path, seen: set<Path>, root: bool): seq<Object>
    decreases files.Keys - seen, 0
  {
    if path in seen || path !in files then []
    else
      assert path in files.Keys - seen && path !in files.Keys - (seen + {path});
      PostOrderAll(files, manifest, RefsOf(files, manifest, path, root), seen + {path}) + [Own(files, path)]
  }

  function PostOrderAll(files: Files, manifest: seq<Path>, refs: seq<Path>, seen: set<Path>): seq<Object>
    decreases files.Keys - seen, 1 + |refs|
  {
    if refs == [] then [] else PostOrder(files, manifest, refs[0], seen, false) + PostOrderAll(files, manifest, refs[1..], seen)
  }

  lemma UntaggedMerge(a: Object, b: Object)
    ensures Untagged(DeepMerge(a, b)) == DeepMerge(Untagged(a), Untagged(b))
  {
    var left, right := Untagged(DeepMerge(a, b)), DeepMerge(Untagged(a), Untagged(b));
    assert left.Keys == right.Keys;
    forall k | k in left ensures left[k] == right[k] {
    }
  }

  lemma UntaggedTagged(o: Object, path: Path, fragments: seq<Path>)
    ensures Untagged(Tagged(o, path, fragments)) == Untagged(o)
  {
  }

  ghost predicate Runtime(o: Object) {
    o.Keys !! STRIPPED
  }

  lemma {:induction false} RuntimeFold(objects: seq<Object>)
    requires forall i :: 0 <= i < |objects| ==> Runtime(objects[i])
    ensures Runtime(Fold(map[], objects))
  {
    hide DeepMerge;
    if objects != [] {
      RuntimeFold(objects[..|objects| - 1]);
      var last := |objects| - 1;
      assert Runtime(objects[last]);
      assert Fold(map[], objects).Keys == Fold(map[], objects[..last]).Keys + objects[last].Keys;
    }
  }

  lemma {:induction false} PostOrderRuntime(files: Files, manifest: seq<Path>, path: Path, seen: set<Path>, root: bool)
    ensures forall i :: 0 <= i < |PostOrder(files, manifest, path, seen, root)| ==> Runtime(PostOrder(files, manifest, path, seen, root)[i])
    decreases files.Keys - seen, 0
  {
    if path !in seen && path in files {
      assert path in files.Keys - seen && path !in files.Keys - (seen + {path});
      PostOrderAllRuntime(files, manifest, RefsOf(files, manifest, path, root), seen + {path});
    }
  }

  lemma {:induction false} PostOrderAllRuntime(files: Files, manifest: seq<Path>, refs: seq<Path>, seen: set<Path>)
    ensures forall i :: 0 <= i < |PostOrderAll(files, manifest, refs, seen)| ==> Runtime(PostOrderAll(files, manifest, refs, seen)[i])
    decreases files.Keys - seen, 1 + |refs|
  {
    hide Runtime;
    if refs != [] {
      PostOrderRuntime(files, manifest, refs[0], seen, false);
      PostOrderAllRuntime(files, manifest, refs[1..], seen);
    }
  }

  /** Without shape conflicts, assembling along the include tree is folding the own payloads in post order: includes first,
      each file over what it includes, later files over earlier ones. */
  lemma {:induction false} AssemblyIsFlatFold(files: Files, manifest: seq<Path>, path: Path, seen: set<Path>, root: bool)
    requires Load(files, manifest, path, seen, root).Ok?
    requires NoConflict(PostOrder(files, manifest, path, seen, root))
    ensures Untagged(Load(files, manifest, path, seen, root).value) == Fold(map[], PostOrder(files, manifest, path, seen, root))
    decreases files.Keys - seen, 0
  {
    hide DeepMerge, Tagged, Untagged, SameShape, Own;
    assert path in files.Keys - seen && path !in files.Keys - (seen + {path});
    var refs := RefsOf(files, manifest, path, root);
    var objects := PostOrderAll(files, manifest, refs, seen + {path});
    var assembled := LoadRefs(files, manifest, refs, seen + {path}, map[]).value;
    assert NoConflict([] + objects) by {
      PrefixNoConflict(objects, [Own(files, path)]);
      assert [] + objects == objects;
    }
    EmptyUntagged();
    RefsAreFlatFold(files, manifest, refs, seen + {path}, map[], []);
    assert [] + objects == objects;
    UntaggedTagged(DeepMerge(assembled, RuntimePayload(files[path].content)), path, refs);
    UntaggedMerge(assembled, RuntimePayload(files[path].content));
    FoldLast(objects, Own(files, path));
    OwnIs(files, path);
  }

  lemma OwnIs(files: Files, path: Path)
    requires path in files
    ensures Own(files, path) == Untagged(RuntimePayload(files[path].content))
  {
  }

  lemma EmptyUntagged()
    ensures Untagged(map[]) == map[] && Fold(map[], []) == map[]
  {
  }

  lemma FoldLast(objects: seq<Object>, last: Object)
    ensures Fold(map[], objects + [last]) == DeepMerge(Fold(map[], objects), last)
  {
    hide DeepMerge;
    assert (objects + [last])[..|objects|] == objects;
  }

  lemma PrefixNoConflict(a: seq<Object>, b: seq<Object>)
    requires NoConflict(a + b)
    ensures NoConflict(a) && NoConflict(b)
    ensures forall i, j :: 0 <= i < |a| && 0 <= j < |b| ==> SameShape(a[i], b[j])
  {
    hide SameShape;
    assert forall i :: 0 <= i < |a| ==> (a + b)[i] == a[i];
    assert forall j :: 0 <= j < |b| ==> (a + b)[|a| + j] == b[j];
  }

  lemma {:induction false} RefsAreFlatFold(files: Files, manifest: seq<Path>, refs: seq<Path>, seen: set<Path>, assembled: Object, objects: seq<Object>)
    requires LoadRefs(files, manifest, refs, seen, assembled).Ok? && Untagged(assembled) == Fold(map[], objects)
    requires NoConflict(objects + PostOrderAll(files, manifest, refs, seen))
    ensures Untagged(LoadRefs(files, manifest, refs, seen, assembled).value) ==
            Fold(map[], objects + PostOrderAll(files, manifest, refs, seen))
    decreases files.Keys - seen, 1 + |refs|
  {
    hide DeepMerge, Tagged, Untagged, SameShape, NoConflict, Fold, RuntimePayload;
    if refs == [] {
      assert objects + [] == objects;
    } else {
      var first, rest := PostOrder(files, manifest, refs[0], seen, false), PostOrderAll(files, manifest, refs[1..], seen);
      assert (objects + first) + rest == objects + PostOrderAll(files, manifest, refs, seen);
      PrefixNoConflict(objects + first, rest);
      PrefixNoConflict(objects, first);
      AssemblyIsFlatFold(files, manifest, refs[0], seen, false);
      var fragment := Load(files, manifest, refs[0], seen, false).value;
      PostOrderRuntime(files, manifest, refs[0], seen, false);
      FragmentMerges(assembled, objects, fragment, first);
      RefsAreFlatFold(files, manifest, refs[1..], seen, DeepMerge(assembled, RuntimePayload(fragment)), objects + first);
    }
  }

  /** Merging one assembled fragment is folding its payloads. */
  lemma FragmentMerges(assembled: Object, objects: seq<Object>, fragment: Object, payloads: seq<Object>)
    requires Untagged(assembled) == Fold(map[], objects) && Untagged(fragment) == Fold(map[], payloads)
    requires NoConflict(objects) && NoConflict(payloads)
    requires forall i, j :: 0 <= i < |objects| && 0 <= j < |payloads| ==> SameShape(objects[i], payloads[j])
    requires forall i :: 0 <= i < |payloads| ==> Runtime(payloads[i])
    ensures Untagged(DeepMerge(assembled, RuntimePayload(fragment))) == Fold(map[], objects + payloads)
  {
    hide DeepMerge, SameShape, Fold, NoConflict;
    RuntimeFold(payloads);
    assert Untagged(RuntimePayload(fragment)) == Untagged(fragment);
    UntaggedMerge(assembled, RuntimePayload(fragment));
    forall j | 0 <= j < |payloads| ensures SameShape(Fold(map[], objects), payloads[j]) {
      EmptyShape(payloads[j]);
      forall i | 0 <= i < |objects| ensures SameShape(map[], objects[i]) {
        EmptyShape(objects[i]);
      }
      SameShapeFold(map[], objects, payloads[j]);
    }
    FoldAssociates(Fold(map[], objects), payloads);
    FoldConcat(map[], objects, payloads);
  }
}
