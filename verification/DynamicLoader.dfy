/** The dynamic library loader: the linked list behind dlopen/dlclose and the dependency lists
  * that symbol resolution builds. */
module DynamicLoader {
  import opened LibraryGraph

  const DL_MAX_NAME_LENGTH := 32
  const LIBNAME_SIZE := 32

  /** What the ELF loader finds in a file: the symbols it must resolve, in order, and those it offers. */
  datatype Image = Image(undefinedSymbols: seq<string>, symbols: set<string>)

  /** The part of a name that the library list stores and compares. */
  function Key(name: string): string {
    if |name| < DL_MAX_NAME_LENGTH then name else name[..DL_MAX_NAME_LENGTH - 1]
  }

  /** The file a name is loaded from, cut to the path buffer. */
  function LibPath(name: string): string {
    var path := "/lib/" + name + ".elf";
    if |path| < DL_MAX_NAME_LENGTH + 10 then path else path[..DL_MAX_NAME_LENGTH + 9]
  }

  /** A character of a C string; past its end reads the terminator. */
  function CharAt(s: string, i: nat): char {
    if i < |s| then s[i] else '\0'
  }

  /** Two names mean the same library exactly when `strncmp` finds no difference in 31 characters. */
  lemma KeysAgree(a: string, b: string)
    requires '\0' !in a && '\0' !in b
    ensures Key(a) == Key(b) <==> forall i: nat | i < 31 :: CharAt(a, i) == CharAt(b, i)
  {
    if Key(a) == Key(b) {
      forall i: nat | i < 31
        ensures CharAt(a, i) == CharAt(b, i)
      {
        KeyChar(a, i);
        KeyChar(b, i);
      }
    } else if forall i: nat | i < 31 :: CharAt(a, i) == CharAt(b, i) {
      SameKey(a, b);
    }
  }

  lemma SameKey(a: string, b: string)
    requires '\0' !in a && '\0' !in b && forall i: nat | i < 31 :: CharAt(a, i) == CharAt(b, i)
    ensures Key(a) == Key(b)
  {
    NotShorter(a, b);
    NotShorter(b, a);
    forall i | 0 <= i < |Key(a)|
      ensures Key(a)[i] == Key(b)[i]
    {
      assert CharAt(a, i) == CharAt(b, i);
    }
  }

  lemma NotShorter(a: string, b: string)
    requires '\0' !in b && forall i: nat | i < 31 :: CharAt(a, i) == CharAt(b, i)
    ensures |Key(b)| <= |Key(a)|
  {
    var n := |Key(a)|;
    assert n < 31 ==> CharAt(a, n) == CharAt(b, n) == '\0';
    assert n < |b| ==> b[n] in b;
  }

  lemma KeyChar(a: string, i: nat)
    requires i < 31
    ensures CharAt(Key(a), i) == CharAt(a, i)
  {
  }

  /** A name of up to 32 characters is looked up whole; every path fits its buffer. */
  lemma PathOfName(name: string)
    ensures |LibPath(name)| <= 41
    ensures |name| <= 32 ==> LibPath(name) == "/lib/" + name + ".elf"
    ensures LibPath(name) <= "/lib/" + name + ".elf"
  {
  }

  /** The library a symbol belongs to: what precedes its first underscore, found in 31 characters. */
  ghost predicate IsLibName(symbol: string, libname: string) {
    && 0 < |libname| < LIBNAME_SIZE - 1
    && |libname| < |symbol|
    && symbol[..|libname|] == libname
    && '_' !in libname
    && symbol[|libname|] == '_'
  }

  lemma OneLibName(symbol: string, a: string, b: string)
    requires IsLibName(symbol, a) && IsLibName(symbol, b)
    ensures a == b
  {
    assert forall i | 0 <= i < |a| :: a[i] == symbol[i] && symbol[i] != '_';
    assert forall i | 0 <= i < |b| :: b[i] == symbol[i] && symbol[i] != '_';
  }

  /** Finds the library name of a symbol; `None` when it has none. */
  method LibNameOf(symbol: string) returns (libname: string, found: bool)
    requires |symbol| < LIBNAME_SIZE - 1 || '_' in symbol[..LIBNAME_SIZE - 1]
    ensures found ==> IsLibName(symbol, libname)
    ensures !found ==> forall name :: !IsLibName(symbol, name)
  {
    libname, found := "", false;
    if symbol != "" && symbol[0] == '_' {
      forall name
        ensures !IsLibName(symbol, name)
      {
        if 0 < |name| <= |symbol| && symbol[..|name|] == name {
          assert name[0] == '_';
        }
      }
      return;
    }
    var i := 0;
    while i < LIBNAME_SIZE - 1
      invariant i <= |symbol| && i <= LIBNAME_SIZE - 1
      invariant libname == symbol[..i] && '_' !in libname
    {
      if i == |symbol| {
        forall name
          ensures !IsLibName(symbol, name)
        {
          if |name| < |symbol| {
            assert symbol[|name|] == libname[|name|];
          }
        }
        return;
      }
      if symbol[i] == '_' {
        found := true;
        return;
      }
      libname := libname + [symbol[i]];
      i := i + 1;
    }
    assert false;
  }

  /** The state a close prunes: the list, the dependency lists and the unloads so far. */
  datatype View = View(chain: seq<Library>, deps: map<Library, seq<Library>>, unloaded: multiset<Library>) {
    /** Entry `k` is being unloaded: its dependency list is taken over by `loader_close`. */
    ghost function Detach(k: nat): View
      requires k < |chain|
    {
      View(chain, deps[chain[k] := []], unloaded + multiset{chain[k]})
    }

    /** Entry `k` is unlinked. */
    ghost function Unlink(k: nat): View
      requires k < |chain|
    {
      View(Without(chain, k), deps, unloaded)
    }
  }

  /** Between `v` and `w`, exactly the libraries behind the first `closing` entries that neither
    * `ext` nor a remaining newer library holds were unloaded. */
  ghost predicate Pruned(v: View, w: View, ext: multiset<Library>, closing: nat) {
    && closing <= |v.chain| && closing <= |w.chain|
    && v.chain[..closing] == w.chain[..closing]
    && (forall l | l in v.chain[..closing] :: l in v.deps)
    && (forall l | l in v.chain[closing..] :: l in v.deps)
    && w.chain[closing..] == Live(v.chain[closing..], v.deps, ext + DepRefs(v.chain[..closing], v.deps))
    && (forall l | l in w.chain :: l in w.deps && l in v.deps && w.deps[l] == v.deps[l])
    && w.unloaded + multiset(w.chain) == v.unloaded + multiset(v.chain)
    && |w.chain| <= |v.chain| && (forall l | l in w.chain :: l in v.chain)
  }

  /** Nothing holds entry `k` any more, while everything from `closing` up to it is held. */
  ghost predicate LastHeld(v: View, k: nat, ext: multiset<Library>, closing: nat) {
    && closing <= k < |v.chain|
    && Distinct(v.chain) && DepsBehind(v.chain, v.deps)
    && (forall i | closing <= i < k :: v.chain[i] in ext + DepRefs(v.chain, v.deps) && v.chain[i] !in v.unloaded)
    && v.chain[k] !in ext + DepRefs(v.chain, v.deps) && v.chain[k] !in v.unloaded
  }

  /** Everything in the list is held by `ext` or by a library that is. */
  ghost predicate Settled(v: View, ext: multiset<Library>) {
    && (forall l | l in ext :: l in v.chain)
    && (forall l | l in v.chain :: l in v.deps)
    && Live(v.chain, v.deps, ext) == v.chain
  }

  /** Between `v` and `w`, libraries were only added in front. */
  ghost predicate Grown(v: View, w: View) {
    && IsSuffix(v.chain, w.chain)
    && (forall l | l in v.chain :: l in v.deps && l in w.deps && w.deps[l] == v.deps[l])
  }

  /** The same libraries with the same dependency lists. */
  ghost predicate Restored(v: View, w: View) {
    && v.chain == w.chain
    && (forall l | l in v.chain :: l in v.deps && l in w.deps && w.deps[l] == v.deps[l])
  }

  ghost function DepthOf(files: map<string, Image>, rank: map<string, nat>, path: string): nat {
    if path in files && path in rank then rank[path] + 1 else 0
  }

  /** Libraries do not need each other in a circle, and every symbol that names a library does
    * so within the buffer. */
  ghost predicate AcyclicFiles(exports: set<string>, files: map<string, Image>, rank: map<string, nat>) {
    && files.Keys <= rank.Keys
    && forall path, symbol | path in files && symbol in files[path].undefinedSymbols && symbol !in exports ::
         && (|symbol| < LIBNAME_SIZE - 1 || '_' in symbol[..LIBNAME_SIZE - 1])
         && forall libname | IsLibName(symbol, libname) :: DepthOf(files, rank, LibPath(libname)) <= rank[path]
  }

  class Library {
    var next: Library?
    var refcount: int
    var elfData: set<string>  // the symbols of the loaded image
    const name: string

    constructor (name: string)
      ensures this.name == Key(name) && refcount == 1 && next == null
    {
      this.name := Key(name);
      refcount := 1;
      next := null;
      elfData := {};
    }
  }

  /** The list pointer that leads to entry `i`. */
  ghost function At(chain: seq<Library>, i: nat): Library? {
    if i < |chain| then chain[i] else null
  }

  class Loader {
    var dllibs: Library?
    var deps: map<Library, seq<Library>>  // the dependency list in each loaded library's userdata
    const exports: set<string>
    const files: map<string, Image>
    const givesUp: nat -> bool            // the ELF loader's own decisions to give a load up, in order
    var decisions: nat
    ghost const rank: map<string, nat>

    ghost var repr: set<Library>            // every list node so far
    ghost var chain: seq<Library>           // the list, newest first
    ghost var freed: set<Library>
    ghost var unloaded: multiset<Library>   // unload_elf calls so far

    constructor (exports: set<string>, files: map<string, Image>, givesUp: nat -> bool, ghost rank: map<string, nat>)
      requires AcyclicFiles(exports, files, rank)
      ensures Valid(multiset{}, 0) && Backed() && chain == []
      ensures this.exports == exports && this.files == files && this.givesUp == givesUp
    {
      dllibs, deps, decisions := null, map[], 0;
      this.exports, this.files, this.givesUp, this.rank := exports, files, givesUp, rank;
      repr, chain, freed, unloaded := {}, [], {}, multiset{};
    }

    /** The ELF loader never gives up by itself. */
    ghost predicate Patient() {
      forall n :: !givesUp(n)
    }

    /** A library that is named by the symbol, and whose file has it. */
    ghost predicate Offers(libname: string, symbol: string) {
      IsLibName(symbol, libname) && LibPath(libname) in files && symbol in files[LibPath(libname)].symbols
    }

    /** The symbol is exported, or some library offers it. */
    ghost predicate Resolvable(symbol: string) {
      symbol in exports || exists libname :: Offers(libname, symbol)
    }

    ghost predicate Resolved(env: seq<Library>, symbol: string) {
      symbol in exports || exists d | d in env :: Offers(d.name, symbol)
    }

    /** Of the first `n` symbols that a file needs, all that some library offers are resolved. */
    ghost predicate AllResolved(env: seq<Library>, path: string, n: nat)
      requires path in files && n <= |files[path].undefinedSymbols|
    {
      forall i | 0 <= i < n && Resolvable(files[path].undefinedSymbols[i]) ::
        Resolved(env, files[path].undefinedSymbols[i])
    }

    ghost predicate Needed(env: seq<Library>, path: string)
      requires path in files
    {
      forall d | d in env :: exists symbol | symbol in files[path].undefinedSymbols :: Offers(d.name, symbol)
    }

    /** A dependency list for a file: only libraries that its symbols need, and, unless the loader
      * gives up, all of them. */
    ghost predicate Links(env: seq<Library>, path: string) {
      path in files && Needed(env, path) && (Patient() ==> AllResolved(env, path, |files[path].undefinedSymbols|))
    }

    /** Every library whose name was stored whole has the symbols of its file and holds what these need. */
    ghost predicate Backed()
      reads `repr, `chain, `deps, repr`elfData
    {
      forall l | l in chain && l in repr && l in deps && |l.name| < LIBNAME_SIZE - 1 ::
        Links(deps[l], LibPath(l.name)) && l.elfData == files[LibPath(l.name)].symbols
    }

    /** Bounds the nesting of loads that opening `path` can cause. */
    ghost function Depth(path: string): nat {
      DepthOf(files, rank, path)
    }

    ghost predicate Acyclic() {
      AcyclicFiles(exports, files, rank)
    }

    ghost predicate Deeper(l: Library, bound: int) {
      |l.name| < LIBNAME_SIZE - 1 && Depth(LibPath(l.name)) <= bound
    }

    ghost predicate Shape()
      reads `repr, `chain, `dllibs, repr`next
    {
      && (forall l | l in chain :: l in repr)
      && Distinct(chain)
      && dllibs == At(chain, 0)
      && (forall i {:trigger chain[i].next} | 0 <= i < |chain| :: chain[i].next == At(chain, i + 1))
    }

    /** References to every library: `ext` from outside the dependency lists, the rest from within. */
    ghost predicate Counted(ext: multiset<Library>)
      requires forall l | l in chain :: l in repr
      reads `repr, `chain, `deps, repr`refcount
    {
      && DepsBehind(chain, deps)
      && (forall l | l in ext :: l in chain)
      && (forall i {:trigger chain[i].refcount} | 0 <= i < |chain| ::
            chain[i].refcount == (ext + DepRefs(chain, deps))[chain[i]])
    }

    /** Every library is unloaded once, before it is freed and never while it is in use; only the
      * first `closing` entries of the list may be on their way out. */
    ghost predicate Accounted(closing: nat)
      requires (forall l | l in chain :: l in repr) && closing <= |chain|
      reads `repr, `chain, `unloaded, `freed, repr`refcount
    {
      && (forall l | l in unloaded :: unloaded[l] == 1 && (l in freed || l in chain[..closing]))
      && (forall l | l in freed :: l in unloaded && l !in chain && l in repr)
      && (forall i | closing <= i < |chain| :: chain[i].refcount >= 1 && chain[i] !in unloaded)
    }

    ghost predicate Named()
      reads `chain, `deps
    {
      && (forall i, j | 0 <= i < j < |chain| :: chain[i].name != chain[j].name)
      && (forall l | l in chain && l in deps :: Distinct(deps[l]))
    }

    ghost predicate Valid(ext: multiset<Library>, closing: nat)
      reads `repr, `chain, `dllibs, `deps, `unloaded, `freed, repr`next, repr`refcount
    {
      && Shape() && closing <= |chain|
      && Counted(ext) && Accounted(closing) && Named() && Acyclic()
    }

    ghost function Now(): View
      reads `chain, `deps, `unloaded
    {
      View(chain, deps, unloaded)
    }

    method Dlclose(handle: Library, ghost ext: multiset<Library>, ghost closing: nat)
      requires Valid(ext, closing)
      requires handle in chain ==> handle in ext && handle !in chain[..closing]
      modifies this, repr`next, repr`refcount
      ensures repr == old(repr)
      ensures old(Backed()) ==> Backed()
      ensures handle !in old(chain) ==> Now() == old(Now())
      ensures Valid(if handle in old(chain) then ext - multiset{handle} else ext, closing)
      ensures Pruned(old(Now()), Now(), if handle in old(chain) then ext - multiset{handle} else ext, closing)
      decreases |chain| - closing, 1
    {
      hide DepRefs, DepsBehind, Live, Pruned, Accounted, Counted, Named, Links;
      var dllib := dllibs;
      var prev: Library? := null;
      ghost var k := 0;
      while dllib != null
        invariant k <= |chain|
        invariant dllib == At(chain, k)
        invariant prev == if k > 0 then chain[k - 1] else null
        invariant handle !in chain[..k]
        invariant Valid(ext, closing) && unchanged(this) && unchanged(repr)
        decreases |chain| - k
      {
        if dllib == handle {
          Release(dllib, prev, k, ext, closing);
          PrunedInside(old(Now()), Now(), ext - multiset{handle}, closing);
          return;
        }
        assert chain[k] == dllib;
        prev := dllib;
        dllib := dllib.next;
        k := k + 1;
      }
      assert handle !in chain by {
        assert chain[..k] == chain;
      }
      NothingToPrune(ext, closing);
    }

    /** The branch of `dlclose` for the entry it found, reached with the list pointers `prev` and `dllib`. */
    method Release(dllib: Library, prev: Library?, ghost k: nat, ghost ext: multiset<Library>, ghost closing: nat)
      requires Valid(ext, closing)
      requires closing <= k < |chain| && chain[k] == dllib && dllib in ext
      requires prev == if k > 0 then chain[k - 1] else null
      modifies this, repr`next, repr`refcount
      ensures repr == old(repr)
      ensures Valid(ext - multiset{dllib}, closing)
      ensures Pruned(old(Now()), Now(), ext - multiset{dllib}, closing)
      decreases |chain| - closing, 0
    {
      ghost var ext' := ext - multiset{dllib};
      hide Valid, ValidAs, LastHeld, Pruned;
      BeforeRelease(k, ext, closing);
      Snapshot(ext, closing);
      ghost var counts := Counts();
      dllib.refcount := dllib.refcount - 1;
      CountedDown(counts, k, ext, closing);
      if dllib.refcount == 0 {
        Drop(dllib, prev, k, ext', closing);
      } else {
        NothingToPrune(ext', closing);
      }
    }

    /** The last reference is gone: unload, unlink and free, while the caller holds `prev`. */
    method Drop(dllib: Library, prev: Library?, ghost k: nat, ghost ext: multiset<Library>, ghost closing: nat)
      requires closing <= k < |chain| && Valid(ext, k + 1)
      requires chain[k] == dllib && dllib.refcount == 0
      requires LastHeld(Now(), k, ext, closing)
      requires prev == if k > 0 then chain[k - 1] else null
      modifies this, repr`next, repr`refcount
      ensures repr == old(repr)
      ensures Valid(ext, closing)
      ensures Pruned(old(Now()), Now(), ext, closing)
      decreases |chain| - (k + 1), 4
    {
      hide Valid, LastHeld, Pruned, Removable, Skipping, Acyclic, Distinct;
      ghost var before := Now();
      UnloadElf(dllib, ext, k, closing);
      FrontKept(before, k, ext, closing);
      PrunedOne(before, Now(), k, ext, closing);
      BeforeUnlink(k, ext, closing);
      Unlink(prev, dllib, k);
      Free(dllib, k, ext, closing);
    }

    /** Unlinks an unloaded entry. Both pointers were taken before `unload_elf` ran. */
    method Unlink(prev: Library?, dllib: Library, ghost k: nat)
      requires Shape() && k < |chain| && chain[k] == dllib
      requires prev == if k > 0 then chain[k - 1] else null
      modifies `dllibs, repr`next
      ensures forall l | l in chain :: l in repr
      ensures Skipping(chain, k)
    {
      assert k > 0 ==> chain[k - 1].next == dllib;
      if prev != null {
        prev.next := dllib.next;
      } else {
        dllibs := dllib.next;
      }
    }

    method Free(dllib: Library, ghost k: nat, ghost ext: multiset<Library>, ghost closing: nat)
      requires closing <= k < |chain| && chain[k] == dllib && (forall l | l in chain :: l in repr)
      requires Removable(chain, freed, k, ext, closing) && Acyclic() && Skipping(chain, k)
      modifies `freed, `chain
      ensures Valid(ext, closing)
      ensures Now() == old(Now().Unlink(k))
    {
      hide Valid, Removable, Skipping, Acyclic, Without;
      ghost var chain0, freed0 := chain, freed;
      freed := freed + {dllib};
      chain := Without(chain, k);
      Unlinked(chain0, freed0, k, ext, closing);
    }

    method UnloadElf(lib: Library, ghost ext: multiset<Library>, ghost k: nat, ghost closing: nat)
      requires closing <= k < |chain| && chain[k] == lib
      requires Valid(ext, k + 1) && lib.refcount == 0 && LastHeld(Now(), k, ext, closing)
      modifies this, repr`next, repr`refcount
      ensures repr == old(repr)
      ensures Valid(ext, k + 1)
      ensures Pruned(old(Now().Detach(k)), Now(), ext, k + 1)
      decreases |chain| - (k + 1), 3
    {
      hide Valid, LastHeld, Detachable, DepsBehind, DepRefs, Live, Pruned, Counted, Accounted, Named, Acyclic, Shape;
      BeforeDetach(k, ext, closing);
      ghost var before := Now();
      var env := deps[lib];
      unloaded := unloaded + multiset{lib};
      deps := deps[lib := []];
      Detached(before, k, ext);
      CloseReferencedLibs(env, ext, k + 1);
    }

    method CloseReferencedLibs(env: seq<Library>, ghost ext: multiset<Library>, ghost closing: nat)
      requires Valid(ext + multiset(env), closing)
      requires forall d | d in env :: d !in chain[..closing]
      modifies this, repr`next, repr`refcount
      ensures repr == old(repr)
      ensures Valid(ext, closing)
      ensures Pruned(old(Now()), Now(), ext, closing)
      decreases |chain| - closing, 2
    {
      NothingToPrune(ext + multiset(env), closing);
      var i := 0;
      assert env[0..] == env;
      while i < |env|
        invariant i <= |env|
        invariant Valid(ext + multiset(env[i..]), closing) && repr == old(repr)
        invariant Pruned(old(Now()), Now(), ext + multiset(env[i..]), closing)
      {
        ghost var before, held, rest := Now(), ext + multiset(env[i..]), ext + multiset(env[i + 1..]);
        HeadHeld(env, i, ext);
        assert env[i] in chain;
        Dlclose(env[i], held, closing);
        PrunedTwice(old(Now()), before, Now(), held, rest, closing);
        i := i + 1;
      }
      assert env[i..] == [] && ext + multiset(env[i..]) == ext;
    }

    method Dlopen(name: string, ghost ext: multiset<Library>) returns (handle: Library?)
      requires Valid(ext, 0) && Backed()
      modifies this, repr`next, repr`refcount
      ensures Backed()
      ensures old(repr) <= repr && fresh(repr - old(repr))
      ensures handle == null ==> Valid(ext, 0) && Restored(old(Now()), Now())
      ensures handle != null ==> handle in chain && handle.name == Key(name)
      ensures handle != null ==> Valid(ext + multiset{handle}, 0) && Grown(old(Now()), Now())
      ensures (exists l :: l in old(chain) && l.name == Key(name)) ==>
                handle != null && handle in old(chain) && Now() == old(Now())
      ensures handle != null && handle !in old(chain) ==>
                && LibPath(name) in files && chain[0] == handle && handle.elfData == files[LibPath(name)].symbols
                && handle in deps && Links(deps[handle], LibPath(name))
      ensures Patient() && LibPath(name) in files ==> handle != null
      ensures forall l | l in chain && l !in old(chain) ::
        l.name == Key(name) || Deeper(l, Depth(LibPath(name)) - 1)
      decreases Depth(LibPath(name)), 2
    {
      hide Valid, Grown, Restored, Settled, Deeper, Distinct, Links, Needed, AllResolved;
      GrownRefl(ext);
      ghost var k;
      handle, k := FindLibrary(name, ext);
      if handle != null {
        Acquire(handle, k, ext);
      } else {
        handle := LoadLibrary(name, ext);
      }
    }

    /** The part of `dlopen` for a name that is not in the list. */
    method LoadLibrary(name: string, ghost ext: multiset<Library>) returns (handle: Library?)
      requires Valid(ext, 0) && Backed() && forall l | l in chain :: l.name != Key(name)
      modifies this, repr`next, repr`refcount
      ensures Backed()
      ensures old(repr) <= repr && fresh(repr - old(repr))
      ensures handle == null ==> Valid(ext, 0) && Restored(old(Now()), Now())
      ensures handle != null ==> handle in chain && handle.name == Key(name)
      ensures handle != null ==> Valid(ext + multiset{handle}, 0) && Grown(old(Now()), Now())
      ensures handle != null ==>
                && LibPath(name) in files && chain[0] == handle && handle.elfData == files[LibPath(name)].symbols
                && handle in deps && Links(deps[handle], LibPath(name))
      ensures Patient() && LibPath(name) in files ==> handle != null
      ensures forall l | l in chain && l !in old(chain) ::
        l.name == Key(name) || Deeper(l, Depth(LibPath(name)) - 1)
      decreases Depth(LibPath(name)), 1
    {
      hide Valid, Grown, Restored, Settled, Deeper, Distinct, Links, Backed;
      ghost var before := Now();
      GrownRefl(ext);
      var lib := new Library(name);
      var path := LibPath(name);
      var ok, env, symbols := LoadElf(path, ext);
      if !ok {
        return null;
      }
      NewName(before, name);
      ghost var mid := Now();
      Push(lib, env, symbols, ext);
      GrownByPush(before, mid, Now(), lib, env);
      handle := lib;
    }

    method Acquire(dllib: Library, ghost k: nat, ghost ext: multiset<Library>)
      requires Valid(ext, 0) && k < |chain| && chain[k] == dllib && dllib in repr
      modifies dllib`refcount
      ensures Valid(ext + multiset{dllib}, 0) && dllib.refcount == old(dllib.refcount) + 1
    {
      hide Valid, ValidAs;
      Snapshot(ext, 0);
      ghost var counts := Counts();
      dllib.refcount := dllib.refcount + 1;
      CountedUp(counts, k, ext);
    }

    /** The search of `dlopen`: names agree when their stored parts do. */
    method FindLibrary(name: string, ghost ext: multiset<Library>) returns (dllib: Library?, ghost k: nat)
      requires Valid(ext, 0)
      ensures dllib != null ==> k < |chain| && chain[k] == dllib && dllib in chain && dllib in repr
      ensures dllib != null ==> dllib.name == Key(name)
      ensures dllib == null ==> forall l | l in chain :: l.name != Key(name)
    {
      hide Counted, Accounted, Named, Acyclic, Distinct;
      dllib, k := dllibs, 0;
      while dllib != null
        invariant k <= |chain|
        invariant dllib == At(chain, k)
        invariant forall i | 0 <= i < k :: chain[i].name != Key(name)
        decreases |chain| - k
      {
        assert chain[k] == dllib;
        if dllib.name == Key(name) {
          return;
        }
        dllib := dllib.next;
        k := k + 1;
      }
    }

    /** Puts a loaded library in front of the list, which may have grown since it was allocated. */
    method Push(lib: Library, env: seq<Library>, symbols: set<string>, ghost ext: multiset<Library>)
      requires Valid(ext + multiset(env), 0) && Backed() && Distinct(env)
      requires lib !in repr && lib.refcount == 1 && forall l | l in chain :: l.name != lib.name
      requires |lib.name| < LIBNAME_SIZE - 1 ==>
                 Links(env, LibPath(lib.name)) && symbols == files[LibPath(lib.name)].symbols
      modifies `dllibs, `deps, `repr, `chain, lib
      ensures Valid(ext + multiset{lib}, 0) && Backed()
      ensures repr == old(repr) + {lib} && chain == [lib] + old(chain)
      ensures Now() == View([lib] + old(chain), old(deps)[lib := env], old(unloaded)) && lib.elfData == symbols
    {
      hide Valid, Shape, Counted, Accounted, Named, Pushable, Acyclic, Distinct, DepsBehind, DepRefs, Links;
      BeforePush(lib, env, ext);
      ghost var repr0, chain0, deps0 := repr, chain, deps;
      LinkFront(lib, env, symbols);
      Pushed(repr0, chain0, deps0, lib, env, ext);
    }

    /** The assignments of a push. */
    method LinkFront(lib: Library, env: seq<Library>, symbols: set<string>)
      requires lib !in repr && lib !in chain && forall l | l in chain :: l in repr
      modifies `dllibs, `deps, `repr, `chain, lib
      ensures repr == old(repr) + {lib} && chain == [lib] + old(chain) && deps == old(deps)[lib := env]
      ensures dllibs == lib && lib.next == old(dllibs) && lib.refcount == old(lib.refcount) && lib.elfData == symbols
      ensures forall i {:trigger old(chain)[i].next} | 0 <= i < |old(chain)| :: old(chain)[i].next == old(chain[i].next)
    {
      hide At;
      lib.elfData, lib.next := symbols, dllibs;
      dllibs, deps := lib, deps[lib := env];
      repr, chain := repr + {lib}, [lib] + chain;
    }

    /** Loads an image: resolves its symbols in order. The loader may give up at an unresolved symbol
      * or for reasons of its own; it then closes what it opened. */
    method LoadElf(path: string, ghost ext: multiset<Library>)
      returns (ok: bool, env: seq<Library>, symbols: set<string>)
      requires Valid(ext, 0) && Backed()
      modifies this, repr`next, repr`refcount
      ensures Backed()
      ensures ok ==> Links(env, path)
      ensures ok ==> decisions > 0 && !givesUp(decisions - 1)
      ensures old(repr) <= repr && fresh(repr - old(repr))
      ensures ok ==> path in files && symbols == files[path].symbols
      ensures Patient() ==> (ok <==> path in files)
      ensures ok ==> Valid(ext + multiset(env), 0) && Grown(old(Now()), Now()) && Distinct(env)
      ensures !ok ==> Valid(ext, 0) && Restored(old(Now()), Now())
      ensures forall l | l in chain && l !in old(chain) :: path in files && Deeper(l, Depth(path) - 1)
      decreases Depth(path), 0
    {
      hide Valid, Grown, Restored, Pruned, Settled, Distinct, Live, Depth, Acyclic, DepRefs, DepsBehind;
      hide Resolvable, Resolved, Backed;
      ghost var before := Now();
      GrownRefl(ext);
      RankOf(ext, path);
      env, symbols := [], {};
      assert ext + multiset(env) == ext;
      ok := path in files;
      if !ok {
        return;
      }
      symbols := files[path].symbols;
      var i := 0;
      while ok && i < |files[path].undefinedSymbols|
        invariant 0 <= i <= |files[path].undefinedSymbols|
        invariant Patient() ==> ok && AllResolved(env, path, i)
        invariant Backed() && Needed(env, path)
        invariant Valid(ext + multiset(env), 0) && Grown(before, Now()) && Distinct(env)
        invariant old(repr) <= repr && fresh(repr - old(repr))
        invariant forall d | d in env :: |d.name| < LIBNAME_SIZE - 1
        invariant forall l | l in chain && l !in old(chain) :: Deeper(l, rank[path])
      {
        ghost var (mid, env0) := (Now(), env);
        var symbol := files[path].undefinedSymbols[i];
        var found;
        env, found := GetUndefinedSymbol(env, symbol, ext, path);
        OneMoreSymbol(env0, env, path, i);
        GrownTrans(before, mid, Now());
        if !found {
          ok := !givesUp(decisions);
          decisions := decisions + 1;
        }
        i := i + 1;
      }
      if ok {
        ok := !givesUp(decisions);
        decisions := decisions + 1;
      }
      if !ok {
        GiveUp(env, before, ext);
      }
    }

    /** The end of a load that failed: what it opened is closed. */
    method GiveUp(env: seq<Library>, ghost before: View, ghost ext: multiset<Library>)
      requires Valid(ext + multiset(env), 0) && Distinct(env) && Backed()
      requires Grown(before, Now()) && Settled(before, ext) && Distinct(before.chain)
      modifies this, repr`next, repr`refcount
      ensures repr == old(repr) && Valid(ext, 0) && Backed()
      ensures Restored(before, Now()) && forall l | l in chain :: l in before.chain
    {
      hide Valid, Grown, Restored, Pruned, Settled, Distinct, Live, Links;
      ghost var mid := Now();
      GrownRefl(ext + multiset(env));
      CloseReferencedLibs(env, ext, 0);
      PrunedInside(mid, Now(), ext, 0);
      RolledBack(before, mid, Now(), ext);
      RestoredIsGrown(before, Now());
    }

    lemma OneMoreSymbol(env: seq<Library>, env': seq<Library>, path: string, i: nat)
      requires path in files && i < |files[path].undefinedSymbols| && Needed(env, path)
      requires (forall d | d in env :: d in env') && (Patient() ==> AllResolved(env, path, i))
      requires forall d | d in env' && d !in env :: Offers(d.name, files[path].undefinedSymbols[i])
      requires Patient() && Resolvable(files[path].undefinedSymbols[i]) ==>
                 Resolved(env', files[path].undefinedSymbols[i])
      ensures Needed(env', path) && (Patient() ==> AllResolved(env', path, i + 1))
    {
      hide Offers, Resolvable, Patient;
    }

    lemma PrunedInside(v: View, w: View, ext: multiset<Library>, closing: nat)
      requires Pruned(v, w, ext, closing)
      ensures forall l | l in w.chain :: l in v.chain && l in v.deps && l in w.deps && w.deps[l] == v.deps[l]
    {
    }

    lemma BackedOne(ext: multiset<Library>, l: Library)
      requires Valid(ext, 0) && Backed() && l in chain && |l.name| < LIBNAME_SIZE - 1
      ensures LibPath(l.name) in files && l.elfData == files[LibPath(l.name)].symbols
    {
      hide Valid, Needed, AllResolved;
      ListedCount(ext, l);
    }

    lemma NameFits(symbol: string, libname: string)
      requires IsLibName(symbol, libname)
      ensures |libname| < LIBNAME_SIZE - 1
    {
    }

    lemma Exported(env: seq<Library>, symbol: string)
      requires symbol in exports
      ensures Resolvable(symbol) && Resolved(env, symbol)
    {
    }

    lemma Nameless(symbol: string)
      requires symbol !in exports && forall name :: !IsLibName(symbol, name)
      ensures !Resolvable(symbol)
    {
    }

    lemma ByName(env: seq<Library>, symbol: string, libname: string)
      requires IsLibName(symbol, libname) && symbol !in exports
      ensures Offers(libname, symbol) <==> LibPath(libname) in files && symbol in files[LibPath(libname)].symbols
      ensures Resolvable(symbol) <==> Offers(libname, symbol)
      ensures Offers(libname, symbol) && (exists d | d in env :: d.name == libname) ==> Resolved(env, symbol)
    {
      hide IsLibName;
      forall name | Offers(name, symbol)
        ensures name == libname
      {
        OneLibName(symbol, name, libname);
      }
    }

    method GetUndefinedSymbol(env: seq<Library>, symbol: string, ghost ext: multiset<Library>, ghost path: string)
      returns (env': seq<Library>, found: bool)
      requires Valid(ext + multiset(env), 0) && Backed() && Distinct(env)
      requires forall d | d in env :: |d.name| < LIBNAME_SIZE - 1
      requires path in files && symbol in files[path].undefinedSymbols
      modifies this, repr`next, repr`refcount
      ensures Valid(ext + multiset(env'), 0) && Backed() && Distinct(env')
      ensures old(repr) <= repr && fresh(repr - old(repr)) && Grown(old(Now()), Now())
      ensures forall d | d in env' :: |d.name| < LIBNAME_SIZE - 1
      ensures forall l | l in chain && l !in old(chain) :: Deeper(l, rank[path])
      ensures !found ==> env' == env && Restored(old(Now()), Now())
      ensures forall d | d in env :: d in env'
      ensures forall d | d in env' && d !in env :: Offers(d.name, symbol)
      ensures found ==> Resolved(env', symbol)
      ensures Patient() ==> (found <==> Resolvable(symbol))
      ensures found ==> symbol in exports || exists d | d in env' :: IsLibName(symbol, d.name) && symbol in d.elfData
      ensures symbol in exports ==> found && env' == env && Now() == old(Now())
      ensures forall d | d in env && IsLibName(symbol, d.name) && symbol !in exports ::
                env' == env && Now() == old(Now()) && (found <==> symbol in d.elfData)
      decreases rank[path], 5
    {
      hide Valid, Backed, Distinct, Grown, Restored, Deeper, Depth, Acyclic, IsLibName, Offers, Resolvable, Resolved;
      GrownRefl(ext + multiset(env));
      SymbolDomain(ext + multiset(env), path, symbol);
      env' := env;
      found := symbol in exports;
      if found {
        Exported(env, symbol);
        return;
      }
      var libname;
      libname, found := LibNameOf(symbol);
      if found {
        env', found := GetLibrarySymbol(env, symbol, libname, ext, path);
      } else {
        Nameless(symbol);
      }
    }

    /** The part of `getUndefinedSymbol` for a symbol of a library. */
    method GetLibrarySymbol(env: seq<Library>, symbol: string, libname: string,
                            ghost ext: multiset<Library>, ghost path: string)
      returns (env': seq<Library>, found: bool)
      requires Valid(ext + multiset(env), 0) && Backed() && Distinct(env)
      requires forall d | d in env :: |d.name| < LIBNAME_SIZE - 1
      requires IsLibName(symbol, libname) && symbol !in exports
      requires path in rank && Depth(LibPath(libname)) <= rank[path]
      modifies this, repr`next, repr`refcount
      ensures Valid(ext + multiset(env'), 0) && Backed() && Distinct(env')
      ensures old(repr) <= repr && fresh(repr - old(repr)) && Grown(old(Now()), Now())
      ensures forall d | d in env' :: |d.name| < LIBNAME_SIZE - 1
      ensures forall l | l in chain && l !in old(chain) :: Deeper(l, rank[path])
      ensures !found ==> env' == env && Restored(old(Now()), Now())
      ensures forall d | d in env :: d in env'
      ensures forall d | d in env' && d !in env :: Offers(d.name, symbol)
      ensures found ==> Resolved(env', symbol)
      ensures Patient() ==> (found <==> Resolvable(symbol))
      ensures found ==> exists d | d in env' :: IsLibName(symbol, d.name) && symbol in d.elfData
      ensures forall d | d in env && IsLibName(symbol, d.name) ::
                env' == env && Now() == old(Now()) && (found <==> symbol in d.elfData)
      decreases rank[path], 4
    {
      hide Valid, Backed, Distinct, Grown, Restored, Deeper, Depth, Acyclic, IsLibName, Offers, Resolvable, Resolved;
      GrownRefl(ext + multiset(env));
      NameFits(symbol, libname);
      env' := env;
      var handle := FindReferencedLib(env, libname);
      if handle != null {
        found := symbol in handle.elfData;
        Listed(env, handle, symbol, ext);
      } else {
        NotListed(env, symbol, libname);
        env', found := OpenDependency(env, symbol, libname, ext, path);
        ByName(env', symbol, libname);
      }
    }

    /** A symbol of a library on the dependency list can be resolved only there. */
    lemma Listed(env: seq<Library>, handle: Library, symbol: string, ext: multiset<Library>)
      requires Valid(ext + multiset(env), 0) && Backed() && handle in env && |handle.name| < LIBNAME_SIZE - 1
      requires IsLibName(symbol, handle.name) && symbol !in exports
      ensures forall d | d in env && IsLibName(symbol, d.name) :: d == handle
      ensures symbol in handle.elfData <==> Resolvable(symbol)
      ensures symbol in handle.elfData ==> Resolved(env, symbol)
    {
      hide Valid, Backed, IsLibName, Resolvable, Resolved;
      forall d | d in env && IsLibName(symbol, d.name)
        ensures d.name == handle.name
      {
        OneLibName(symbol, d.name, handle.name);
      }
      NamesInEnv(env, handle, ext);
      InChain(ext + multiset(env), handle);
      BackedOne(ext + multiset(env), handle);
      ByName(env, symbol, handle.name);
    }

    lemma NotListed(env: seq<Library>, symbol: string, libname: string)
      requires IsLibName(symbol, libname) && forall d | d in env :: d.name != libname
      ensures forall d | d in env :: !IsLibName(symbol, d.name)
    {
      hide IsLibName;
      forall d | d in env
        ensures !IsLibName(symbol, d.name)
      {
        if IsLibName(symbol, d.name) {
          OneLibName(symbol, d.name, libname);
          assert false;
        }
      }
    }

    lemma NamesInEnv(env: seq<Library>, handle: Library, ext: multiset<Library>)
      requires Valid(ext + multiset(env), 0) && handle in env
      ensures forall d | d in env && d.name == handle.name :: d == handle
    {
      hide Valid, DepRefs;
      forall d | d in env
        ensures d in chain
      {
        InChain(ext + multiset(env), d);
      }
      CountsHolders(ext + multiset(env), handle);
    }

    lemma InChain(ext: multiset<Library>, l: Library)
      requires Valid(ext, 0) && l in ext
      ensures l in chain
    {
    }

    /** The part of `getUndefinedSymbol` for a library that is not on the dependency list yet. */
    method OpenDependency(env: seq<Library>, symbol: string, libname: string,
                          ghost ext: multiset<Library>, ghost path: string)
      returns (env': seq<Library>, found: bool)
      requires Valid(ext + multiset(env), 0) && Backed() && Distinct(env)
      requires forall d | d in env :: |d.name| < LIBNAME_SIZE - 1 && d.name != libname
      requires |libname| < LIBNAME_SIZE - 1 && path in rank && Depth(LibPath(libname)) <= rank[path]
      modifies this, repr`next, repr`refcount
      ensures old(repr) <= repr && fresh(repr - old(repr))
      ensures Valid(ext + multiset(env'), 0) && Grown(old(Now()), Now()) && Distinct(env')
      ensures forall l | l in chain && l !in old(chain) :: Deeper(l, rank[path])
      ensures !found ==> env' == env && Restored(old(Now()), Now())
      ensures Backed()
      ensures found ==> exists d | d in env' :: d.name == libname && symbol in d.elfData
      ensures found ==> LibPath(libname) in files && symbol in files[LibPath(libname)].symbols
      ensures Patient() && LibPath(libname) in files && symbol in files[LibPath(libname)].symbols ==> found
      ensures (forall d | d in env :: d in env') && (forall d | d in env' :: d in env || d.name == libname)
      decreases rank[path], 3
    {
      hide Valid, Distinct, Live, Settled, Pruned, Grown, Restored, Depth, Backed;
      ghost var before, held := Now(), ext + multiset(env);
      GrownRefl(held);
      env', found := env, false;
      var handle := Dlopen(libname, held);
      if handle == null {
        RestoredIsGrown(before, Now());
        return;
      }
      found := symbol in handle.elfData;
      BackedOne(held + multiset{handle}, handle);
      if found {
        env' := AddReferencedLib(env, handle);
        assert held + multiset{handle} == ext + multiset(env');
      } else {
        CloseAgain(handle, before, held);
      }
    }

    /** Takes an open back that added nothing to the list but what it holds. */
    method CloseAgain(handle: Library, ghost before: View, ghost held: multiset<Library>)
      requires Valid(held + multiset{handle}, 0) && handle in chain
      requires Grown(before, Now()) && Settled(before, held) && Distinct(before.chain) && Backed()
      modifies this, repr`next, repr`refcount
      ensures Backed()
      ensures repr == old(repr) && Valid(held, 0)
      ensures Restored(before, Now()) && Grown(before, Now()) && forall l | l in chain :: l in before.chain
    {
      hide Valid, Distinct, Live, Settled, Pruned, Grown, Depth;
      ghost var mid := Now();
      GrownRefl(held + multiset{handle});
      Dlclose(handle, held + multiset{handle}, 0);
      assert held + multiset{handle} - multiset{handle} == held;
      RolledBack(before, mid, Now(), held);
      RestoredIsGrown(before, Now());
    }

    method FindReferencedLib(env: seq<Library>, libname: string) returns (handle: Library?)
      requires forall d | d in env :: |d.name| < LIBNAME_SIZE - 1  // strcmp finds their terminator
      ensures handle != null ==> handle in env && handle.name == libname
      ensures handle == null ==> forall d | d in env :: d.name != libname
    {
      var i := 0;
      while i < |env|
        invariant i <= |env|
        invariant forall j | 0 <= j < i :: env[j].name != libname
      {
        if env[i].name == libname {
          return env[i];
        }
        i := i + 1;
      }
      return null;
    }

    /** The first dependency fills the list head, later ones go right behind it. */
    method AddReferencedLib(env: seq<Library>, handle: Library) returns (env': seq<Library>)
      requires Distinct(env) && handle !in env
      ensures multiset(env') == multiset(env) + multiset{handle}
      ensures Distinct(env') && handle in env'
      ensures (forall d | d in env' :: d in env || d == handle) && (forall d | d in env :: d in env')
      ensures env != [] ==> env'[0] == env[0] && env'[1] == handle
    {
      if env == [] {
        env' := [handle];
      } else {
        assert env == [env[0]] + env[1..];
        env' := [env[0], handle] + env[1..];
      }
    }

    /** A listed library's count is the number of outstanding opens plus the number of libraries
      * whose dependency list holds it; names tell libraries apart. */
    lemma CountsHolders(ext: multiset<Library>, l: Library)
      requires Valid(ext, 0) && l in chain
      ensures l in repr && l.refcount == ext[l] + |Holders(chain, deps, l)|
      ensures l.refcount >= 1
      ensures forall m | m in chain && m.name == l.name :: m == l
    {
      hide Valid, DepRefs, Distinct;
      ListedCount(ext, l);
      DepRefsCountsHolders(chain, deps, l);
      assert l.refcount == ext[l] + DepRefs(chain, deps)[l];
    }

    lemma ListedCount(ext: multiset<Library>, l: Library)
      requires Valid(ext, 0) && l in chain
      ensures l in repr && Distinct(chain) && (forall m | m in chain :: m in deps && Distinct(deps[m]))
      ensures l.refcount == (ext + DepRefs(chain, deps))[l] && l.refcount >= 1
      ensures forall m | m in chain && m.name == l.name :: m == l
    {
      hide DepRefs, Distinct;
      var i :| 0 <= i < |chain| && chain[i] == l;
      assert chain[i].refcount >= 1;
      forall m | m in chain && m.name == l.name
        ensures m == l
      {
        var j :| 0 <= j < |chain| && chain[j] == m;
        assert i == j;
      }
    }

    /** Every listed library is held by an outstanding open, through a chain of dependencies. */
    lemma ListedHasHolder(ext: multiset<Library>, l: Library) returns (path: seq<Library>)
      requires Valid(ext, 0) && l in chain
      ensures HolderPath(path, deps, ext) && path[|path| - 1] == l
    {
      GrownRefl(ext);
      path := LivePath(chain, deps, ext, l);
    }

    lemma RankOf(ext: multiset<Library>, path: string)
      requires Valid(ext, 0)
      ensures path in files ==> path in rank && Depth(path) == rank[path] + 1
    {
    }

    lemma SymbolDomain(ext: multiset<Library>, path: string, symbol: string)
      requires Valid(ext, 0)
      requires path in files && symbol in files[path].undefinedSymbols
      ensures path in rank
      ensures symbol !in exports ==> |symbol| < LIBNAME_SIZE - 1 || '_' in symbol[..LIBNAME_SIZE - 1]
      ensures forall libname | symbol !in exports && IsLibName(symbol, libname) ::
        && Depth(LibPath(libname)) <= rank[path]
        && |libname| < LIBNAME_SIZE - 1 && Key(libname) == libname
    {
    }

    lemma GrownRefl(ext: multiset<Library>)
      requires Valid(ext, 0)
      ensures Grown(Now(), Now()) && Restored(Now(), Now())
      ensures Settled(Now(), ext) && Distinct(chain) && Distinct<Library>([])
    {
      NothingToPrune(ext, 0);
      assert chain[0..] == chain && chain[..0] == [];
      assert ext + DepRefs(chain[..0], deps) == ext;
    }

    /** `Valid` with the counts taken from a snapshot. */
    ghost predicate ValidAs(counts: map<Library, int>, ext: multiset<Library>, closing: nat)
      reads `repr, `chain, `dllibs, `deps, `unloaded, `freed, repr`next
    {
      && Shape() && closing <= |chain| && Named() && Acyclic() && DepsBehind(chain, deps)
      && (forall l | l in repr :: l in counts)
      && (forall l | l in ext :: l in chain)
      && (forall i {:trigger counts[chain[i]]} | 0 <= i < |chain| ::
            counts[chain[i]] == (ext + DepRefs(chain, deps))[chain[i]])
      && (forall l | l in unloaded :: unloaded[l] == 1 && (l in freed || l in chain[..closing]))
      && (forall l | l in freed :: l in unloaded && l !in chain && l in repr)
      && (forall i {:trigger counts[chain[i]]} | closing <= i < |chain| ::
            counts[chain[i]] >= 1 && chain[i] !in unloaded)
    }

    ghost function Counts(): map<Library, int>
      reads `repr, repr`refcount
    {
      map l | l in repr :: l.refcount
    }

    lemma Snapshot(ext: multiset<Library>, closing: nat)
      requires Valid(ext, closing)
      ensures ValidAs(Counts(), ext, closing)
    {
      hide DepsBehind, DepRefs, Acyclic, Distinct;
    }

    lemma CountedUp(counts: map<Library, int>, k: nat, ext: multiset<Library>)
      requires k < |chain| && forall l | l in repr ::
        l in counts && l.refcount == counts[l] + if l == chain[k] then 1 else 0
      ensures ValidAs(counts, ext, 0) ==> Valid(ext + multiset{chain[k]}, 0)
    {
      if ValidAs(counts, ext, 0) {
        hide DepsBehind, DepRefs, Acyclic;
        assert Counted(ext + multiset{chain[k]});
        assert Accounted(0);
      }
    }

    lemma CountedDown(counts: map<Library, int>, k: nat, ext: multiset<Library>, closing: nat)
      requires closing <= k < |chain| && chain[k] in ext && chain[k] in repr
      requires forall l | l in repr :: l in counts && l.refcount == counts[l] - if l == chain[k] then 1 else 0
      ensures ValidAs(counts, ext, closing) ==>
        Valid(ext - multiset{chain[k]}, if chain[k].refcount == 0 then k + 1 else closing)
    {
      if ValidAs(counts, ext, closing) {
        CountedDownRefs(counts, k, ext, closing);
        CountedDownUnloads(counts, k, ext, closing);
      }
    }

    lemma CountedDownRefs(counts: map<Library, int>, k: nat, ext: multiset<Library>, closing: nat)
      requires k < |chain| && chain[k] in ext && ValidAs(counts, ext, closing)
      requires forall l | l in repr :: l in counts && l.refcount == counts[l] - if l == chain[k] then 1 else 0
      ensures Counted(ext - multiset{chain[k]})
    {
      hide DepsBehind, DepRefs, Acyclic, Named;
    }

    lemma CountedDownUnloads(counts: map<Library, int>, k: nat, ext: multiset<Library>, closing: nat)
      requires closing <= k < |chain| && ValidAs(counts, ext, closing)
      requires forall l | l in repr :: l in counts && l.refcount == counts[l] - if l == chain[k] then 1 else 0
      ensures Accounted(if chain[k].refcount == 0 then k + 1 else closing)
    {
      hide DepsBehind, DepRefs, Acyclic, Named;
      assert chain[..closing] == chain[..k + 1][..closing];
    }

    /** No library that a load brought in can have the name being opened. */
    lemma NewName(before: View, name: string)
      requires forall l | l in before.chain :: l.name != Key(name)
      requires forall l | l in chain && l !in before.chain :: Deeper(l, Depth(LibPath(name)) - 1)
      ensures forall l | l in chain :: l.name != Key(name)
    {
      hide Acyclic, Depth;
      assert |Key(name)| < LIBNAME_SIZE - 1 ==> Key(name) == name;
      forall l | l in chain
        ensures l.name != Key(name)
      {
        if l in before.chain {
          var i :| 0 <= i < |before.chain| && before.chain[i] == l;
        }
      }
    }

    /** `lib` can be pushed on the list with the dependency list `env`. */
    ghost predicate Pushable(repr0: set<Library>, chain0: seq<Library>, deps0: map<Library, seq<Library>>,
                             lib: Library, env: seq<Library>, ext: multiset<Library>)
      reads `unloaded, `freed, chain0`refcount
    {
      && (forall l | l in chain0 :: l in deps0)
      && lib !in chain0 && lib !in unloaded && lib !in freed && lib !in ext && Distinct(env)
      && Distinct([lib] + chain0) && DepsBehind([lib] + chain0, deps0[lib := env])
      && (forall l | l in ext :: l in chain0)
      && lib !in ext + multiset(env) + DepRefs(chain0, deps0)
      && DepRefs([lib] + chain0, deps0[lib := env]) == multiset(env) + DepRefs(chain0, deps0)
      && (forall i {:trigger chain0[i].refcount} | 0 <= i < |chain0| ::
            chain0[i].refcount == (ext + multiset(env) + DepRefs(chain0, deps0))[chain0[i]])
      && (forall l | l in unloaded :: unloaded[l] == 1 && l in freed)
      && (forall l | l in freed :: l in unloaded && l !in chain0 && l in repr0)
      && (forall i {:trigger chain0[i].refcount} | 0 <= i < |chain0| ::
            chain0[i].refcount >= 1 && chain0[i] !in unloaded)
      && (forall i, j | 0 <= i < j < |chain0| :: chain0[i].name != chain0[j].name)
      && (forall l | l in chain0 && l in deps0 :: Distinct(deps0[l]))
    }

    lemma BeforePush(lib: Library, env: seq<Library>, ext: multiset<Library>)
      requires Valid(ext + multiset(env), 0) && Distinct(env)
      requires lib !in repr
      ensures Pushable(repr, chain, deps, lib, env, ext) && Acyclic() && dllibs == At(chain, 0)
      ensures forall l | l in chain :: l in repr
      ensures forall i {:trigger chain[i].next} | 0 <= i < |chain| :: chain[i].next == At(chain, i + 1)
    {
      assert chain[..0] == [];
      assert forall d :: d in env ==> d in ext + multiset(env);
      assert forall d :: d in ext ==> d in ext + multiset(env);
      DepRefsPush(chain, deps, lib, env);
    }

    /** The list as `LinkFront` leaves it. */
    ghost predicate Linked(repr0: set<Library>, chain0: seq<Library>, deps0: map<Library, seq<Library>>,
                           lib: Library, env: seq<Library>)
      reads this, lib, chain0
    {
      && chain == [lib] + chain0 && deps == deps0[lib := env]
      && repr == repr0 + {lib} && lib.refcount == 1 && dllibs == lib && lib.next == At(chain0, 0)
      && (forall l | l in chain0 :: l in repr && l.name != lib.name)
      && (forall i {:trigger chain0[i].next} | 0 <= i < |chain0| :: chain0[i].next == At(chain0, i + 1))
    }

    lemma Pushed(repr0: set<Library>, chain0: seq<Library>, deps0: map<Library, seq<Library>>,
                 lib: Library, env: seq<Library>, ext: multiset<Library>)
      requires Linked(repr0, chain0, deps0, lib, env)
      ensures Pushable(repr0, chain0, deps0, lib, env, ext) && Acyclic() ==> Valid(ext + multiset{lib}, 0)
    {
      hide Linked, Pushable, Shape, Counted, Accounted, Named, Acyclic;
      if Pushable(repr0, chain0, deps0, lib, env, ext) && Acyclic() {
        PushedShape(repr0, chain0, deps0, lib, env, ext);
        PushedCounted(repr0, chain0, deps0, lib, env, ext);
        PushedAccounted(repr0, chain0, deps0, lib, env, ext);
        PushedNamed(repr0, chain0, deps0, lib, env, ext);
      }
    }

    lemma PushedShape(repr0: set<Library>, chain0: seq<Library>, deps0: map<Library, seq<Library>>,
                      lib: Library, env: seq<Library>, ext: multiset<Library>)
      requires Linked(repr0, chain0, deps0, lib, env) && Pushable(repr0, chain0, deps0, lib, env, ext)
      ensures Shape() && forall l | l in chain :: l in repr
    {
      hide DepsBehind, DepRefs;
    }

    lemma PushedCounted(repr0: set<Library>, chain0: seq<Library>, deps0: map<Library, seq<Library>>,
                        lib: Library, env: seq<Library>, ext: multiset<Library>)
      requires Linked(repr0, chain0, deps0, lib, env) && Pushable(repr0, chain0, deps0, lib, env, ext)
      ensures (forall l | l in chain :: l in repr) && Counted(ext + multiset{lib})
    {
      hide DepsBehind, DepRefs, Distinct;
      forall i | 0 <= i < |chain|
        ensures chain[i] in repr
        ensures chain[i].refcount
             == (ext + multiset{lib} + (multiset(env) + DepRefs(chain0, deps0)))[chain[i]]
      {
        if i > 0 {
          assert chain[i] == chain0[i - 1] && chain0[i - 1] != lib;
        }
      }
    }

    lemma PushedAccounted(repr0: set<Library>, chain0: seq<Library>, deps0: map<Library, seq<Library>>,
                          lib: Library, env: seq<Library>, ext: multiset<Library>)
      requires Linked(repr0, chain0, deps0, lib, env) && Pushable(repr0, chain0, deps0, lib, env, ext)
      ensures (forall l | l in chain :: l in repr) && Accounted(0)
    {
      hide DepsBehind, DepRefs, Distinct;
      assert chain[..0] == [];
      forall i | 0 <= i < |chain|
        ensures chain[i] in repr && chain[i].refcount >= 1 && chain[i] !in unloaded
      {
        if i > 0 {
          assert chain[i] == chain0[i - 1];
        }
      }
    }

    lemma PushedNamed(repr0: set<Library>, chain0: seq<Library>, deps0: map<Library, seq<Library>>,
                      lib: Library, env: seq<Library>, ext: multiset<Library>)
      requires Linked(repr0, chain0, deps0, lib, env) && Pushable(repr0, chain0, deps0, lib, env, ext)
      ensures Named()
    {
      hide DepsBehind, DepRefs, Distinct;
      forall i, j | 0 <= i < j < |chain|
        ensures chain[i].name != chain[j].name
      {
        assert chain[j] == chain0[j - 1];
        if i > 0 {
          assert chain[i] == chain0[i - 1];
        }
      }
    }

    lemma GrownTrans(u: View, v: View, w: View)
      requires Grown(u, v) && Grown(v, w)
      ensures Grown(u, w)
    {
      SuffixTrans(u.chain, v.chain, w.chain);
      InSuffix(u.chain, v.chain);
    }

    lemma InSuffix(base: seq<Library>, s: seq<Library>)
      requires IsSuffix(base, s)
      ensures forall l | l in base :: l in s
    {
      assert forall i | 0 <= i < |base| :: base[i] == s[|s| - |base| + i];
    }

    lemma RestoredIsGrown(u: View, v: View)
      requires Restored(u, v)
      ensures Grown(u, v) && forall l | l in v.chain :: l in u.chain
    {
      assert v.chain[0..] == v.chain;
    }

    lemma GrownByPush(u: View, v: View, w: View, lib: Library, env: seq<Library>)
      requires Grown(u, v) && w.chain == [lib] + v.chain && w.deps == v.deps[lib := env] && lib !in v.chain
      ensures Grown(u, w) && forall l | l in w.chain :: l == lib || l in v.chain
    {
      InSuffix(u.chain, v.chain);
      assert w.chain[1..] == v.chain;
      SuffixTrans(u.chain, v.chain, w.chain);
    }

    /** Giving up everything that was opened since leaves the list as it was. */
    lemma RolledBack(u: View, v: View, w: View, ext: multiset<Library>)
      requires Settled(u, ext) && Grown(u, v) && Distinct(v.chain) && Pruned(v, w, ext, 0)
      ensures Restored(u, w)
    {
      hide Live, DepRefs, Distinct;
      DepRefsNone(v.deps);
      assert v.chain[0..] == v.chain && w.chain[0..] == w.chain && v.chain[..0] == [];
      assert ext + DepRefs(v.chain[..0], v.deps) == ext;
      LiveFrame(u.chain, u.deps, v.deps, ext);
      LiveRestores(u.chain, v.chain, v.deps, ext);
    }

    lemma BeforeRelease(k: nat, ext: multiset<Library>, closing: nat)
      requires Valid(ext, closing)
      requires closing <= k < |chain| && chain[k] in ext
      ensures chain[k] in repr
      ensures chain[k].refcount == 1 ==> LastHeld(Now(), k, ext - multiset{chain[k]}, closing)
    {
      var held := ext - multiset{chain[k]} + DepRefs(chain, deps);
      forall i | closing <= i <= k
        ensures held[chain[i]] == if i == k then chain[k].refcount - 1 else chain[i].refcount
      {
      }
    }

    /** Nested closes leave the entries in front of the one being unloaded as they were. */
    lemma FrontKept(before: View, k: nat, ext: multiset<Library>, closing: nat)
      requires closing <= k < |before.chain| && LastHeld(before, k, ext, closing) && Valid(ext, k + 1)
      requires Pruned(before.Detach(k), Now(), ext, k + 1)
      ensures k < |chain| && chain[k] == before.chain[k] && (k > 0 ==> chain[k - 1] == before.chain[k - 1])
      ensures chain[k] in deps && deps[chain[k]] == [] && chain[k].refcount == 0 && chain[k] in unloaded
      ensures Distinct(chain)
      ensures forall i | closing <= i < k :: chain[i].refcount >= 1 && chain[i] !in unloaded
    {
      hide Valid, Pruned, Distinct, DepsBehind, DepRefs, Live;
      if k > 0 {
        FrontKeptAt(before, k, k - 1, ext);
      }
      FrontKeptAt(before, k, k, ext);
      forall i | closing <= i < k
        ensures chain[i].refcount >= 1 && chain[i] !in unloaded
      {
        FrontKeptAt(before, k, i, ext);
      }
    }

    lemma FrontKeptAt(before: View, k: nat, i: nat, ext: multiset<Library>)
      requires i <= k < |before.chain| && Valid(ext, k + 1)
      requires Distinct(before.chain) && DepsBehind(before.chain, before.deps)
      requires Pruned(before.Detach(k), Now(), ext, k + 1)
      ensures i < |chain| && chain[i] == before.chain[i] && chain[i] in deps && Distinct(chain)
      ensures i == k ==> deps[chain[i]] == []
      ensures chain[i].refcount == (ext + DepRefs(before.chain, before.deps))[chain[i]]
      ensures unloaded[chain[i]] == before.unloaded[chain[i]] + if i == k then 1 else 0
    {
      hide DepsBehind, DepRefs, Distinct, Live, Accounted, Named, Acyclic;
      SamePrefix(before.chain, chain, k + 1);
      FrontCount(before, Now(), k, i, ext);
      assert chain[i] in chain;
    }

    /** Entry `k` of `chain0` can leave the list: nothing holds it and it holds nothing. */
    ghost predicate Removable(chain0: seq<Library>, freed0: set<Library>, k: nat, ext: multiset<Library>, closing: nat)
      reads `repr, `deps, `unloaded, repr`refcount
    {
      && closing <= k < |chain0| && Distinct(chain0)
      && (forall l | l in chain0 :: l in repr)
      && Distinct(Without(chain0, k)) && DepsBehind(Without(chain0, k), deps)
      && (forall l | l in ext :: l in chain0 && l != chain0[k])
      && (forall i {:trigger chain0[i].refcount} | 0 <= i < |chain0| ::
            chain0[i].refcount == (ext + DepRefs(Without(chain0, k), deps))[chain0[i]])
      && (forall i, j | 0 <= i < j < |chain0| :: chain0[i].name != chain0[j].name)
      && (forall l | l in chain0 && l in deps :: Distinct(deps[l]))
      && chain0[k] in unloaded
      && (forall l | l in unloaded :: unloaded[l] == 1 && (l in freed0 || l in chain0[..k + 1]))
      && (forall l | l in freed0 :: l in unloaded && l !in chain0 && l in repr)
      && (forall i {:trigger chain0[i].refcount} | closing <= i < |chain0| && i != k ::
            chain0[i].refcount >= 1 && chain0[i] !in unloaded)
    }

    lemma BeforeUnlink(k: nat, ext: multiset<Library>, closing: nat)
      requires closing <= k < |chain| && Valid(ext, k + 1)
      requires chain[k] in deps && deps[chain[k]] == [] && chain[k].refcount == 0 && chain[k] in unloaded
      requires forall i | closing <= i < k :: chain[i].refcount >= 1 && chain[i] !in unloaded
      ensures Removable(chain, freed, k, ext, closing)
      ensures Shape() && Acyclic() && Distinct(chain) && (forall l | l in chain :: l in repr)
    {
      var a, l, b := chain[..k], chain[k], chain[k + 1..];
      assert chain == a + [l] + b;
      assert (ext + DepRefs(chain, deps))[l] == 0;
      DropEntry(a, l, b, deps);
      assert Without(chain, k) == a + b;
    }

    /** The list runs through `chain0`, skipping entry `k`. */
    ghost predicate Skipping(chain0: seq<Library>, k: nat)
      requires k < |chain0| && (forall l | l in chain0 :: l in repr)
      reads `repr, `dllibs, repr`next
    {
      && dllibs == At(chain0, if k == 0 then 1 else 0)
      && forall i {:trigger chain0[i].next} | 0 <= i < |chain0| && i != k ::
           chain0[i].next == At(chain0, if i + 1 == k then k + 1 else i + 1)
    }

    lemma Relinked(chain0: seq<Library>, k: nat)
      requires k < |chain0| && Distinct(chain0) && (forall l | l in chain0 :: l in repr)
      requires chain == Without(chain0, k) && Distinct(chain)
      requires Skipping(chain0, k)
      ensures Shape()
    {
      forall l | l in chain
        ensures l in repr
      {
        WithoutIn(chain0, k, l);
      }
      forall i | 0 <= i < |chain|
        ensures chain[i].next == At(chain, i + 1)
      {
        var m := if i < k then i else i + 1;
        assert chain[i] == chain0[m];
        assert chain0[m].next == At(chain0, if m + 1 == k then k + 1 else m + 1);
      }
    }

    lemma Unlinked(chain0: seq<Library>, freed0: set<Library>, k: nat, ext: multiset<Library>, closing: nat)
      requires k < |chain0| && chain == Without(chain0, k) && freed == freed0 + {chain0[k]}
      requires forall l | l in chain0 :: l in repr
      ensures Removable(chain0, freed0, k, ext, closing) && Skipping(chain0, k) && Acyclic() ==> Valid(ext, closing)
    {
      if Removable(chain0, freed0, k, ext, closing) && Skipping(chain0, k) && Acyclic() {
        Relinked(chain0, k);
        UnlinkedCounted(chain0, freed0, k, ext, closing);
        UnlinkedAccounted(chain0, freed0, k, ext, closing);
      }
    }

    lemma UnlinkedCounted(chain0: seq<Library>, freed0: set<Library>, k: nat, ext: multiset<Library>, closing: nat)
      requires Removable(chain0, freed0, k, ext, closing)
      requires Shape() && chain == Without(chain0, k)
      ensures Counted(ext) && Named()
    {
      hide DepsBehind, DepRefs, Distinct, Counted, Named;
      UnlinkedCounts(chain0, freed0, k, ext, closing);
      UnlinkedNames(chain0, freed0, k, ext, closing);
    }

    lemma UnlinkedCounts(chain0: seq<Library>, freed0: set<Library>, k: nat, ext: multiset<Library>, closing: nat)
      requires Removable(chain0, freed0, k, ext, closing)
      requires Shape() && chain == Without(chain0, k)
      ensures Counted(ext)
    {
      hide DepsBehind, DepRefs, Distinct;
      forall l | l in ext || l in chain
        ensures l in chain && l in chain0
      {
        WithoutIn(chain0, k, l);
      }
    }

    lemma UnlinkedNames(chain0: seq<Library>, freed0: set<Library>, k: nat, ext: multiset<Library>, closing: nat)
      requires Removable(chain0, freed0, k, ext, closing) && chain == Without(chain0, k)
      ensures Named()
    {
      hide DepsBehind, DepRefs, Distinct;
      forall l | l in chain
        ensures l in chain0
      {
        WithoutIn(chain0, k, l);
      }
      forall i, j | 0 <= i < j < |chain|
        ensures chain[i].name != chain[j].name
      {
        var (m, n) := (if i < k then i else i + 1, if j < k then j else j + 1);
        assert chain[i] == chain0[m] && chain[j] == chain0[n];
      }
    }

    lemma UnlinkedAccounted(chain0: seq<Library>, freed0: set<Library>, k: nat, ext: multiset<Library>, closing: nat)
      requires Removable(chain0, freed0, k, ext, closing)
      requires Shape() && chain == Without(chain0, k) && freed == freed0 + {chain0[k]}
      ensures Accounted(closing)
    {
      hide Removable, Distinct, Without;
      StillSized(chain0, freed0, k, ext, closing);
      forall l | l in freed
        ensures l in unloaded && l !in chain && l in repr
      {
        FreedGone(chain0, freed0, k, ext, closing, l);
      }
      forall l | l in unloaded
        ensures unloaded[l] == 1 && (l in freed || l in chain[..closing])
      {
        StillClosing(chain0, freed0, k, ext, closing, l);
      }
      forall i | closing <= i < |chain|
        ensures chain[i].refcount >= 1 && chain[i] !in unloaded
      {
        StillCounted(chain0, freed0, k, ext, closing, i);
      }
    }

    lemma StillSized(chain0: seq<Library>, freed0: set<Library>, k: nat, ext: multiset<Library>, closing: nat)
      requires Removable(chain0, freed0, k, ext, closing)
      ensures |Without(chain0, k)| >= closing
    {
    }

    lemma FreedGone(chain0: seq<Library>, freed0: set<Library>, k: nat, ext: multiset<Library>,
                    closing: nat, l: Library)
      requires Removable(chain0, freed0, k, ext, closing) && l in freed0 + {chain0[k]}
      ensures l in unloaded && l !in Without(chain0, k) && l in repr
    {
      hide DepsBehind, DepRefs, Distinct;
      WithoutIn(chain0, k, l);
    }

    lemma StillCounted(chain0: seq<Library>, freed0: set<Library>, k: nat, ext: multiset<Library>, closing: nat, i: nat)
      requires Removable(chain0, freed0, k, ext, closing) && closing <= i < |Without(chain0, k)|
      ensures Without(chain0, k)[i] in repr
      ensures Without(chain0, k)[i].refcount >= 1 && Without(chain0, k)[i] !in unloaded
    {
      hide DepsBehind, DepRefs, Distinct;
      var m := if i < k then i else i + 1;
      assert Without(chain0, k)[i] == chain0[m] && chain0[m].refcount >= 1;
    }

    lemma StillClosing(chain0: seq<Library>, freed0: set<Library>, k: nat, ext: multiset<Library>,
                       closing: nat, l: Library)
      requires Removable(chain0, freed0, k, ext, closing)
      requires l in unloaded
      ensures |Without(chain0, k)| >= closing
      ensures unloaded[l] == 1 && (l in freed0 || l == chain0[k] || l in Without(chain0, k)[..closing])
    {
      hide DepsBehind, DepRefs, Distinct;
      forall m | closing <= m < k
        ensures chain0[m] !in unloaded
      {
        assert chain0[m].refcount >= 1;
      }
      if l !in freed0 && l != chain0[k] {
        var i :| 0 <= i < k + 1 && chain0[i] == l;
        assert Without(chain0, k)[..closing][i] == l;
      }
    }

    /** Entry `k` gives its dependency list up: the references move to `ext`, every count stays. */
    ghost predicate Detachable(before: View, k: nat, ext: multiset<Library>)
      requires k < |before.chain|
      reads `repr, `freed, repr`refcount
    {
      && (forall l | l in before.chain :: l in repr)
      && DetachGraph(before, k, ext) && DetachCounts(before, k, ext) && DetachUnloads(before, k)
    }

    ghost predicate DetachGraph(before: View, k: nat, ext: multiset<Library>)
      requires k < |before.chain|
    {
      var (chain, lib) := (before.chain, before.chain[k]);
      && lib in before.deps && DepsBehind(chain, before.Detach(k).deps)
      && (forall l | l in ext :: l in chain)
      && (forall d | d in before.deps[lib] :: d in chain && d !in chain[..k + 1])
      && (forall l | l in chain :: l in before.deps && Distinct(before.deps[l]))
      && (forall i, j | 0 <= i < j < |chain| :: chain[i].name != chain[j].name)
    }

    ghost predicate DetachCounts(before: View, k: nat, ext: multiset<Library>)
      requires k < |before.chain| && forall l | l in before.chain :: l in repr
      requires DetachGraph(before, k, ext)
      reads `repr, repr`refcount
    {
      forall i {:trigger before.chain[i].refcount} | 0 <= i < |before.chain| ::
        before.chain[i].refcount
        == (ext + multiset(before.deps[before.chain[k]])
            + DepRefs(before.chain, before.Detach(k).deps))[before.chain[i]]
    }

    ghost predicate DetachUnloads(before: View, k: nat)
      requires k < |before.chain| && forall l | l in before.chain :: l in repr
      reads `repr, `freed, repr`refcount
    {
      var (chain, lib) := (before.chain, before.chain[k]);
      && lib !in before.unloaded && lib in chain[..k + 1]
      && (forall l | l in before.unloaded :: before.unloaded[l] == 1 && (l in freed || l in chain[..k + 1]))
      && (forall l | l in freed :: l in before.unloaded && l !in chain && l in repr)
      && (forall i {:trigger chain[i].refcount} | k < i < |chain| ::
            chain[i].refcount >= 1 && chain[i] !in before.unloaded && chain[i] != lib)
    }

    lemma BeforeDetach(k: nat, ext: multiset<Library>, closing: nat)
      requires closing <= k < |chain| && Valid(ext, k + 1) && LastHeld(Now(), k, ext, closing)
      ensures Detachable(Now(), k, ext) && chain[k] in deps && Shape() && Acyclic()
    {
      BeforeDetachGraph(k, ext);
      BeforeDetachCounts(k, ext);
      BeforeDetachUnloads(k, ext);
      hide DetachGraph, DetachCounts, DetachUnloads, Counted, Accounted, Named, LastHeld, Acyclic;
    }

    lemma BeforeDetachGraph(k: nat, ext: multiset<Library>)
      requires k < |chain| && Valid(ext, k + 1)
      ensures chain[k] in chain && chain[k] in deps && DetachGraph(Now(), k, ext)
    {
      hide DepRefs, Acyclic, Distinct, Accounted, Live;
      assert chain[k] in chain;
      BehindList(chain, deps, k);
    }

    lemma BeforeDetachCounts(k: nat, ext: multiset<Library>)
      requires k < |chain| && Valid(ext, k + 1) && DetachGraph(Now(), k, ext)
      ensures (forall l | l in chain :: l in repr) && DetachCounts(Now(), k, ext)
    {
      hide DepRefs, Acyclic, Distinct, Accounted, Live, Named;
      var lib := chain[k];
      assert lib in chain;
      DepRefsMove(chain, deps, lib);
      assert ext + multiset(deps[lib]) + DepRefs(chain, deps[lib := []]) == ext + DepRefs(chain, deps);
    }

    lemma BeforeDetachUnloads(k: nat, ext: multiset<Library>)
      requires k < |chain| && Valid(ext, k + 1) && chain[k] !in unloaded
      ensures (forall l | l in chain :: l in repr) && DetachUnloads(Now(), k)
    {
      hide DepRefs, Acyclic, Counted, Live, Named, DepsBehind;
      assert chain[k] == chain[..k + 1][k];
    }

    lemma Detached(before: View, k: nat, ext: multiset<Library>)
      requires k < |before.chain| && Now() == before.Detach(k) && before.chain[k] in before.deps
      ensures Detachable(before, k, ext) && Shape() && Acyclic() ==>
        && Valid(ext + multiset(before.deps[before.chain[k]]), k + 1)
        && forall d | d in before.deps[before.chain[k]] :: d !in chain[..k + 1]
    {
      if Detachable(before, k, ext) && Shape() && Acyclic() {
        DetachedCounted(before, k, ext);
        DetachedAccounted(before, k);
      }
    }

    lemma DetachedCounted(before: View, k: nat, ext: multiset<Library>)
      requires k < |before.chain| && Now() == before.Detach(k) && Shape()
      requires DetachGraph(before, k, ext) && DetachCounts(before, k, ext)
      ensures Counted(ext + multiset(before.deps[before.chain[k]])) && Named()
    {
      hide DepRefs;
      assert chain == before.chain && deps == before.Detach(k).deps;
      forall l | l in chain
        ensures Distinct(deps[l])
      {
        assert deps[l] == if l == before.chain[k] then [] else before.deps[l];
      }
      var held := ext + multiset(before.deps[before.chain[k]]);
      assert forall l | l in held :: l in ext || l in before.deps[before.chain[k]];
      assert DepsBehind(chain, deps);
      forall i | 0 <= i < |chain|
        ensures chain[i].refcount == (held + DepRefs(chain, deps))[chain[i]]
      {
        assert before.chain[i].refcount == (held + DepRefs(before.chain, before.Detach(k).deps))[before.chain[i]];
      }
    }

    lemma DetachedAccounted(before: View, k: nat)
      requires k < |before.chain| && Now() == before.Detach(k) && Shape()
      requires DetachUnloads(before, k)
      ensures Accounted(k + 1)
    {
      assert forall l | l in unloaded :: l in before.unloaded || l == before.chain[k];
    }

    lemma NothingToPrune(ext: multiset<Library>, closing: nat)
      requires Valid(ext, closing)
      ensures Pruned(Now(), Now(), ext, closing)
    {
      AllHeld(ext, closing);
      hide Valid, Distinct, DepsBehind, DepRefs, Live;
      PruneNone(chain, deps, ext, closing);
    }

    lemma AllHeld(ext: multiset<Library>, closing: nat)
      requires Valid(ext, closing)
      ensures closing <= |chain| && Distinct(chain) && DepsBehind(chain, deps)
      ensures forall i | closing <= i < |chain| :: chain[i] in ext + DepRefs(chain, deps)
    {
      forall i | closing <= i < |chain|
        ensures chain[i] in ext + DepRefs(chain, deps)
      {
        HeldAt(ext, closing, i);
      }
    }

    lemma HeldAt(ext: multiset<Library>, closing: nat, i: nat)
      requires Valid(ext, closing) && closing <= i < |chain|
      ensures chain[i] in ext + DepRefs(chain, deps)
    {
      hide Distinct, DepRefs, Acyclic, Named;
      assert chain[i].refcount >= 1;
    }
  }

  /** How often an entry up to the one being unloaded is held does not depend on nested closes. */
  lemma FrontCount(v: View, w: View, k: nat, i: nat, ext: multiset<Library>)
    requires i <= k < |v.chain| && Pruned(v.Detach(k), w, ext, k + 1)
    requires Distinct(v.chain) && DepsBehind(v.chain, v.deps)
    requires Distinct(w.chain) && DepsBehind(w.chain, w.deps)
    ensures DepRefs(w.chain, w.deps)[v.chain[i]] == DepRefs(v.chain, v.deps)[v.chain[i]]
    ensures w.unloaded[v.chain[i]] == v.unloaded[v.chain[i]] + if i == k then 1 else 0
  {
    SamePrefix(v.chain, w.chain, k + 1);
    RefsFromFront(v.chain, v.deps, i);
    RefsFromFront(w.chain, w.deps, i);
    forall l | l in w.chain[..i]
      ensures l in w.deps && l in v.deps && w.deps[l] == v.deps[l]
    {
      assert l in w.chain && l != v.chain[k];
    }
    DepRefsFrame(w.chain[..i], v.deps, w.deps);
    var x := v.chain[i];
    assert x == w.chain[i];
    DistinctCount(v.chain, x);
    DistinctCount(w.chain, x);
    assert (w.unloaded + multiset(w.chain))[x] == (v.Detach(k).unloaded + multiset(v.chain))[x];
  }

  /** Unloading an unheld entry with its nested closes, then unlinking it, prunes the list. */
  lemma PrunedOne(v: View, w: View, k: nat, ext: multiset<Library>, closing: nat)
    requires closing <= k < |v.chain| && LastHeld(v, k, ext, closing)
    requires Pruned(v.Detach(k), w, ext, k + 1) && Distinct(w.chain)
    ensures Pruned(v, w.Unlink(k), ext, closing)
  {
    hide Live, DepRefs, DepsBehind, Distinct;
    PrunedOneLive(v, w, k, ext, closing);
    PrunedOneEntries(v, w, k, ext);
    UnlinkTail(v.chain, w.chain, k, closing);
  }

  lemma PrunedOneLive(v: View, w: View, k: nat, ext: multiset<Library>, closing: nat)
    requires closing <= k < |v.chain| && LastHeld(v, k, ext, closing)
    requires Pruned(v.Detach(k), w, ext, k + 1)
    ensures forall l | l in v.chain :: l in v.deps
    ensures (forall l | l in v.chain[..closing] :: l in v.deps) && (forall l | l in v.chain[closing..] :: l in v.deps)
    ensures closing <= |w.Unlink(k).chain|
    ensures w.Unlink(k).chain[closing..]
         == Live(v.chain[closing..], v.deps, ext + DepRefs(v.chain[..closing], v.deps))
  {
    var front, mid, lib, back := v.chain[..closing], v.chain[closing..k], v.chain[k], v.chain[k + 1..];
    hide Live, DepRefs, Without, Distinct, DepsBehind;
    SplitEntry(v.chain, closing, k);
    EntryList(v, closing, k);
    PruneDrop(front, mid, lib, back, v.deps, ext);
    var after := v.Detach(k).deps;
    assert w.chain[k + 1..] == Live(back, after, ext + DepRefs(front + mid + [lib], after));
    UnlinkTail(v.chain, w.chain, k, closing);
  }

  lemma SplitEntry(c: seq<Library>, closing: nat, k: nat)
    requires closing <= k < |c|
    ensures c == c[..closing] + c[closing..k] + ([c[k]] + c[k + 1..])
    ensures c[..k + 1] == c[..closing] + c[closing..k] + [c[k]]
    ensures c[closing..] == c[closing..k] + ([c[k]] + c[k + 1..])
  {
  }

  lemma EntryList(v: View, closing: nat, k: nat)
    requires closing <= k < |v.chain| && DepsBehind(v.chain, v.deps)
    ensures forall l | l in v.chain[..closing] || l in v.chain[closing..] || l in v.chain[closing..k] ::
      l in v.chain && l in v.deps
    ensures forall l | l in v.chain[closing..k] :: exists i :: closing <= i < k && v.chain[i] == l
  {
  }

  lemma UnlinkTail(c: seq<Library>, d: seq<Library>, k: nat, closing: nat)
    requires closing <= k < |c| && k < |d| && c[..k + 1] == d[..k + 1]
    ensures Without(d, k)[closing..] == c[closing..k] + d[k + 1..]
    ensures Without(d, k)[..closing] == c[..closing]
  {
    SamePrefix(c, d, k + 1);
    assert d[closing..k] == c[closing..k];
  }

  lemma PrunedOneEntries(v: View, w: View, k: nat, ext: multiset<Library>)
    requires k < |v.chain| && Distinct(v.chain)
    requires Pruned(v.Detach(k), w, ext, k + 1) && Distinct(w.chain)
    ensures var u := w.Unlink(k);
      && (forall l | l in u.chain :: l in u.deps && l in v.deps && u.deps[l] == v.deps[l])
      && u.unloaded + multiset(u.chain) == v.unloaded + multiset(v.chain)
      && |u.chain| <= |v.chain| && (forall l | l in u.chain :: l in v.chain)
  {
    hide Live, DepRefs, Without, Distinct;
    var u, lib := w.Unlink(k), v.chain[k];
    SamePrefix(v.chain, w.chain, k + 1);
    assert lib == w.chain[k];
    forall l | l in u.chain
      ensures l in w.chain && l != lib
    {
      WithoutIn(w.chain, k, l);
    }
    WithoutCount(w.chain, k);
    assert w.unloaded + multiset(u.chain) + multiset{lib} == w.unloaded + multiset(w.chain);
    CancelOne(w.unloaded + multiset(u.chain), v.unloaded + multiset(v.chain), lib);
  }

  lemma HeadHeld(env: seq<Library>, i: nat, ext: multiset<Library>)
    requires i < |env|
    ensures env[i] in ext + multiset(env[i..])
    ensures ext + multiset(env[i..]) - multiset{env[i]} == ext + multiset(env[i + 1..])
  {
    assert env[i..] == [env[i]] + env[i + 1..];
  }

  lemma PrunedTwice(v0: View, v1: View, v2: View, more: multiset<Library>, fewer: multiset<Library>, closing: nat)
    requires fewer <= more
    requires Pruned(v0, v1, more, closing) && Pruned(v1, v2, fewer, closing)
    ensures Pruned(v0, v2, fewer, closing)
  {
    var front := v0.chain[..closing];
    var roots, roots' := more + DepRefs(front, v0.deps), fewer + DepRefs(front, v0.deps);
    assert forall l :: l in v1.chain[closing..] ==> l in v1.chain;
    assert forall l :: l in front ==> l in v1.chain;
    DepRefsFrame(front, v0.deps, v1.deps);
    LiveFrame(v1.chain[closing..], v0.deps, v1.deps, roots');
    LiveTwice(v0.chain[closing..], v0.deps, roots, roots');
  }
}
