/** The receiver's runtime directory as a map from paths to nodes, changed by atomic steps any of which may fail. */
module DiskModel {
  import opened Text
  import opened Grants
  import opened Canonical

  /** A generation directory: published under its identity, or still being staged. */
  datatype Name = Final(id: SnapshotId) | Staging(n: nat)

  datatype Path =
    | ManifestPath
    | ManifestTemp(n: nat)
    | RuntimeRoot
    | GenerationsRoot
    | Generation(name: Name)
    | GrantsDir(name: Name)
    | GenerationManifest(name: Name)
    | GrantFile(name: Name, grant: GrantId)

  /** A file being written is torn until its last byte is. */
  datatype Content = Torn | ManifestText(m: Manifest) | GrantText(g: Grant)

  datatype Node = Dir | File(content: Content)

  type FileSystem = map<Path, Node>

  function Parent(p: Path): (parent: Option<Path>) {
    match p
    case ManifestPath => None
    case ManifestTemp(_) => None
    case RuntimeRoot => None
    case GenerationsRoot => Some(RuntimeRoot)
    case Generation(_) => Some(GenerationsRoot)
    case GrantsDir(name) => Some(Generation(name))
    case GenerationManifest(name) => Some(Generation(name))
    case GrantFile(name, _) => Some(GrantsDir(name))
  }

  predicate Rooted(p: Path, fs: FileSystem) {
    Parent(p).Some? ==> Parent(p).value in fs
  }

  predicate HasName(p: Path, name: Name) {
    (p.Generation? || p.GrantsDir? || p.GenerationManifest? || p.GrantFile?) && p.name == name
  }

  datatype Tree = WholeRuntime | OneGeneration(name: Name)

  predicate In(p: Path, tree: Tree) {
    match tree
    case WholeRuntime => !p.ManifestPath? && !p.ManifestTemp?
    case OneGeneration(name) => HasName(p, name)
  }

  function Depth(p: Path): (d: nat)
    ensures d <= 4
  {
    match p
    case ManifestPath => 0
    case ManifestTemp(_) => 0
    case RuntimeRoot => 0
    case GenerationsRoot => 1
    case Generation(_) => 2
    case GrantsDir(_) => 3
    case GenerationManifest(_) => 3
    case GrantFile(_, _) => 4
  }

  predicate Leaf(p: Path, fs: FileSystem) {
    forall child :: child in fs ==> Parent(child) != Some(p)
  }

  lemma {:induction false} LeafBelow(fs: FileSystem, tree: Tree, p: Path) returns (leaf: Path)
    requires p in fs && In(p, tree)
    ensures leaf in fs && In(leaf, tree) && Leaf(leaf, fs)
    decreases 4 - Depth(p)
  {
    if child :| child in fs && Parent(child) == Some(p) {
      leaf := LeafBelow(fs, tree, child);
    } else {
      leaf := p;
    }
  }

  /** `b` is `a` with some of a tree removed, no child outliving its directory. */
  ghost predicate Shrunk(a: FileSystem, b: FileSystem, tree: Tree) {
    && (forall p :: p in b ==> p in a && b[p] == a[p])
    && (forall p :: p in a && !In(p, tree) ==> p in b)
    && (forall p :: p in b && Rooted(p, a) ==> Rooted(p, b))
  }

  /** Of a tree that is there, something at its edge is gone, and nothing but. */
  ghost predicate OneStep(a: FileSystem, b: FileSystem, tree: Tree) {
    && (forall p :: p in a && In(p, tree) && !Leaf(p, a) ==> p in b)
    && ((exists p :: p in a && In(p, tree)) ==> exists p :: p in a && In(p, tree) && p !in b)
  }

  lemma LeafRemoved(a: FileSystem, b: FileSystem, tree: Tree, p: Path)
    requires Shrunk(a, b, tree) && p in b && In(p, tree) && Leaf(p, b)
    ensures Shrunk(a, b - {p}, tree)
    ensures p in a && (b == a ==> OneStep(a, b - {p}, tree))
  {
    var c := b - {p};
    forall q | q in c && Rooted(q, a) ensures Rooted(q, c) {
      assert q in b && Rooted(q, b);
    }
    if b == a {
      assert p in a && In(p, tree) && p !in c;
    }
  }

  lemma NothingRemoved(a: FileSystem, tree: Tree)
    ensures Shrunk(a, a, tree)
    ensures (forall p :: p in a ==> !In(p, tree)) ==> OneStep(a, a, tree)
  {
  }

  function Renamed(p: Path, name: Name): (q: Path) {
    match p
    case Generation(_) => Generation(name)
    case GrantsDir(_) => GrantsDir(name)
    case GenerationManifest(_) => GenerationManifest(name)
    case GrantFile(_, g) => GrantFile(name, g)
    case _ => p
  }

  /** The file system after one rename of a staged generation to its final name. */
  function Moved(fs: FileSystem, n: nat, id: SnapshotId): (moved: FileSystem) {
    var targets := set p | p in fs && HasName(p, Staging(n)) :: Renamed(p, Final(id));
    (map p | p in fs && !HasName(p, Staging(n)) :: fs[p])
    + (map q | q in targets && Renamed(q, Staging(n)) in fs :: fs[Renamed(q, Staging(n))])
  }

  datatype ReadResult = Found(content: Content) | NotExist | Failed

  datatype RemoveResult = Removed | Absent | NotRemoved

  class Disk {
    /** Whether steps may fail that need not. */
    const faulty: bool
    /** Whether removing a tree stops after its first path. */
    const stuck: bool
    var fs: FileSystem
    /** Every state the file system has been in, oldest first. */
    var history: seq<FileSystem>

    ghost predicate Valid()
      reads this
    {
      history != [] && history[|history| - 1] == fs
    }

    constructor (initial: FileSystem, faulty: bool, stuck: bool)
      ensures Valid() && fs == initial && history == [initial] && this.faulty == faulty && this.stuck == stuck
    {
      this.faulty, this.stuck := faulty, stuck;
      fs, history := initial, [initial];
    }

    method Fails() returns (failed: bool)
      ensures failed ==> faulty
    {
      failed := *;
      failed := failed && faulty;
    }

    method Step(next: FileSystem)
      requires Valid()
      modifies this
      ensures Valid() && fs == next && history == old(history) + [next]
    {
      fs := next;
      history := history + [next];
    }

    /** The process died when the file system was in its k-th state: nothing later happened. */
    method Crash(k: nat)
      requires Valid() && k < |history|
      modifies this
      ensures Valid() && history == old(history)[..k + 1] && fs == old(history)[k]
    {
      fs := history[k];
      history := history[..k + 1];
    }

    method ReadFile(p: Path) returns (r: ReadResult)
      requires Valid()
      ensures r.Found? ==> p in fs && fs[p] == File(r.content)
      ensures r.NotExist? ==> p !in fs
      ensures r.Failed? ==> faulty || (p in fs && fs[p].Dir?)
    {
      var failed := Fails();
      if failed {
        return Failed;
      }
      if p !in fs {
        return NotExist;
      }
      return if fs[p].File? then Found(fs[p].content) else Failed;
    }

    method MakeDir(p: Path) returns (ok: bool)
      requires Valid()
      modifies this
      ensures Valid()
      ensures ok ==> p !in old(fs) && Rooted(p, old(fs)) && fs == old(fs)[p := Dir] && history == old(history) + [fs]
      ensures !ok ==> fs == old(fs) && history == old(history)
      ensures !ok ==> faulty || p in fs || !Rooted(p, fs)
    {
      var failed := Fails();
      ok := !failed;
      if !ok || p in fs || !Rooted(p, fs) {
        return false;
      }
      Step(fs[p := Dir]);
    }

    /** os.MkdirAll for a directory whose parent has been made. */
    method EnsureDir(p: Path) returns (ok: bool)
      requires Valid()
      modifies this
      ensures Valid()
      ensures ok && p in old(fs) ==> old(fs)[p] == Dir && fs == old(fs) && history == old(history)
      ensures ok && p !in old(fs) ==> Rooted(p, old(fs)) && fs == old(fs)[p := Dir] && history == old(history) + [fs]
      ensures !ok ==> fs == old(fs) && history == old(history)
      ensures !ok ==> faulty || (if p in fs then fs[p] != Dir else !Rooted(p, fs))
    {
      if p in fs {
        var failed := Fails();
        return !failed && fs[p] == Dir;
      }
      ok := MakeDir(p);
    }

    /** Exclusive creation, then the content; a failure may leave a torn file behind. */
    method CreateFile(p: Path, content: Content) returns (ok: bool)
      requires Valid()
      modifies this
      ensures Valid()
      ensures ok ==>
        && p !in old(fs) && Rooted(p, old(fs)) && fs == old(fs)[p := File(content)]
        && history == old(history) + [old(fs)[p := File(Torn)], fs]
      ensures !ok ==>
        || (fs == old(fs) && history == old(history))
        || (p !in old(fs) && Rooted(p, old(fs)) && fs == old(fs)[p := File(Torn)] && history == old(history) + [fs])
      ensures !ok ==> faulty || p in old(fs) || !Rooted(p, old(fs))
    {
      var failed := Fails();
      if failed || p in fs || !Rooted(p, fs) {
        return false;
      }
      Step(fs[p := File(Torn)]);
      failed := Fails();
      ok := !failed;
      if ok {
        Step(fs[p := File(content)]);
      }
    }

    method RenameFile(from: Path, to: Path) returns (ok: bool)
      requires Valid()
      modifies this
      ensures Valid()
      ensures ok ==> from in old(fs) && fs == (old(fs) - {from})[to := old(fs)[from]] && history == old(history) + [fs]
      ensures !ok ==> fs == old(fs) && history == old(history) && (faulty || from !in fs)
    {
      var failed := Fails();
      ok := !failed;
      if !ok || from !in fs {
        return false;
      }
      Step((fs - {from})[to := fs[from]]);
    }

    method RenameGeneration(n: nat, id: SnapshotId) returns (ok: bool)
      requires Valid()
      modifies this
      ensures Valid()
      ensures ok ==>
        && Generation(Staging(n)) in old(fs) && Generation(Final(id)) !in old(fs)
        && fs == Moved(old(fs), n, id) && history == old(history) + [fs]
      ensures !ok ==> fs == old(fs) && history == old(history)
      ensures !ok ==> faulty || Generation(Staging(n)) !in fs || Generation(Final(id)) in fs
    {
      var failed := Fails();
      ok := !failed;
      if !ok || Generation(Staging(n)) !in fs || Generation(Final(id)) in fs {
        return false;
      }
      Step(Moved(fs, n, id));
    }

    /** Removing one file; an absent file is always reported as absent. */
    method Remove(p: Path) returns (r: RemoveResult)
      requires Valid()
      modifies this
      ensures Valid()
      ensures r.Removed? ==> p in old(fs) && fs == old(fs) - {p} && history == old(history) + [fs]
      ensures !r.Removed? ==> fs == old(fs) && history == old(history)
      ensures r.Absent? <==> p !in old(fs)
      ensures r.NotRemoved? ==> faulty
    {
      if p !in fs {
        return Absent;
      }
      var failed := Fails();
      if failed {
        return NotRemoved;
      }
      Step(fs - {p});
      return Removed;
    }

    /** Removing a directory tree, path by path in any order that empties a directory before removing it. */
    method RemoveTree(tree: Tree) returns (ok: bool)
      requires Valid()
      modifies this
      ensures Valid() && old(history) <= history
      ensures Shrunk(old(fs), fs, tree)
      ensures forall k :: |old(history)| <= k < |history| ==> Shrunk(old(fs), history[k], tree)
      ensures ok ==> forall p :: p in fs ==> !In(p, tree)
      ensures !ok ==> faulty || (stuck && exists p :: p in old(fs) && In(p, tree))
      ensures stuck && !faulty ==> OneStep(old(fs), fs, tree)
    {
      var left := set p | p in fs && In(p, tree);
      NothingRemoved(fs, tree);
      hide Shrunk, OneStep;
      while left != {}
        invariant Valid() && old(history) <= history
        invariant Shrunk(old(fs), fs, tree)
        invariant forall k :: |old(history)| <= k < |history| ==> Shrunk(old(fs), history[k], tree)
        invariant left == set p | p in fs && In(p, tree)
        invariant stuck && !faulty ==> fs == old(fs)
        decreases left
      {
        var failed := Fails();
        if failed {
          return false;
        }
        ghost var some :| some in left;
        ghost var leaf := LeafBelow(fs, tree, some);
        var p :| p in left && Leaf(p, fs);
        LeafRemoved(old(fs), fs, tree, p);
        Step(fs - {p});
        left := left - {p};
        if stuck {
          assert forall q :: q in fs && In(q, tree) ==> q in left;
          return left == {};
        }
      }
      assert forall p :: p in fs && In(p, tree) ==> p in left;
      NothingRemoved(fs, tree);
      return true;
    }
  }
}
