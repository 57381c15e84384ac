/** What every state of the runtime directory satisfies, and which single steps keep it so. */
module SnapshotState {
  import opened Text
  import opened Grants
  import opened Canonical
  import opened DiskModel

  predicate RightNode(p: Path, node: Node) {
    match p
    case ManifestPath =>
      && node.File? && node.content.ManifestText?
      && Sorted(node.content.m.header) && node.content.m == ManifestFor(node.content.m.header)
    case ManifestTemp(_) => node.File?
    case RuntimeRoot => node.Dir?
    case GenerationsRoot => node.Dir?
    case Generation(_) => node.Dir?
    case GrantsDir(_) => node.Dir?
    case GenerationManifest(name) => node.File? && (name.Final? ==> node.content == ManifestText(ManifestFor(name.id)))
    case GrantFile(name, x) =>
      && node.File?
      && (name.Final? ==> node.content.GrantText? && node.content.g in name.id && IdOf(node.content.g) == x)
  }

  /** Nothing of the generation is missing. */
  predicate Complete(fs: FileSystem, id: SnapshotId) {
    && Generation(Final(id)) in fs && GrantsDir(Final(id)) in fs && GenerationManifest(Final(id)) in fs
    && forall g :: g in id ==> GrantFile(Final(id), IdOf(g)) in fs
  }

  predicate AllRight(fs: FileSystem) {
    forall p :: p in fs ==> RightNode(p, fs[p]) && Rooted(p, fs)
  }

  function Active(fs: FileSystem): (id: SnapshotId)
    requires AllRight(fs) && ManifestPath in fs
  {
    assert RightNode(ManifestPath, fs[ManifestPath]);
    fs[ManifestPath].content.m.header
  }

  /** The safety invariant: whatever is present is right, and a present manifest names a complete generation. */
  predicate Sound(fs: FileSystem) {
    AllRight(fs) && (ManifestPath in fs ==> Complete(fs, Active(fs)))
  }

  /** A sound state with a manifest holds exactly the active grant set and an identical copy of the manifest. */
  lemma SoundMeans(fs: FileSystem)
    requires Sound(fs) && ManifestPath in fs
    ensures var id := Active(fs);
      && Sorted(id)
      && fs[ManifestPath] == File(ManifestText(ManifestFor(id)))
      && GenerationManifest(Final(id)) in fs && fs[GenerationManifest(Final(id))] == fs[ManifestPath]
      && (forall g :: g in id ==> GrantFile(Final(id), IdOf(g)) in fs && fs[GrantFile(Final(id), IdOf(g))] == File(GrantText(g)))
      && (forall x :: GrantFile(Final(id), x) in fs ==> exists g :: g in id && IdOf(g) == x)
  {
    var id := Active(fs);
    assert RightNode(ManifestPath, fs[ManifestPath]);
    SortedIsDistinct(id);
    assert RightNode(GenerationManifest(Final(id)), fs[GenerationManifest(Final(id))]);
    forall g | g in id ensures fs[GrantFile(Final(id), IdOf(g))] == File(GrantText(g)) {
      var p := GrantFile(Final(id), IdOf(g));
      assert p in fs && RightNode(p, fs[p]);
    }
    forall x | GrantFile(Final(id), x) in fs ensures exists g :: g in id && IdOf(g) == x {
      assert RightNode(GrantFile(Final(id), x), fs[GrantFile(Final(id), x)]);
    }
  }

  /** The published snapshot holds a grant for the task. */
  predicate Holds(fs: FileSystem, uid: string) {
    Sound(fs) && ManifestPath in fs && exists g :: g in Active(fs) && g.taskUID == uid
  }

  // ----- Steps that keep it -----

  /** Paths whose presence no published generation depends on. */
  predicate Private(p: Path) {
    match p
    case ManifestPath => false
    case ManifestTemp(_) => true
    case RuntimeRoot => true
    case GenerationsRoot => true
    case Generation(name) => name.Staging?
    case GrantsDir(name) => name.Staging?
    case GenerationManifest(name) => name.Staging?
    case GrantFile(name, _) => name.Staging?
  }

  lemma AddingKeepsSound(fs: FileSystem, p: Path, node: Node)
    requires Sound(fs) && Private(p) && RightNode(p, node) && Rooted(p, fs) && (p in fs ==> fs[p].File?)
    ensures Sound(fs[p := node])
  {
    var next := fs[p := node];
    forall q | q in next ensures RightNode(q, next[q]) && Rooted(q, next) {
      assert q != p ==> q in fs && RightNode(q, fs[q]) && Rooted(q, fs);
    }
    if ManifestPath in next {
      var id := Active(fs);
      assert forall g :: g in id ==> GrantFile(Final(id), IdOf(g)) in fs;
    }
  }

  lemma RemovingKeepsSound(fs: FileSystem, p: Path)
    requires Sound(fs) && (p == ManifestPath || p.ManifestTemp?)
    ensures Sound(fs - {p})
  {
    var next := fs - {p};
    forall q | q in next ensures RightNode(q, next[q]) && Rooted(q, next) {
      assert q in fs && RightNode(q, fs[q]) && Rooted(q, fs);
    }
    if ManifestPath in next {
      var id := Active(fs);
      assert forall g :: g in id ==> GrantFile(Final(id), IdOf(g)) in fs;
    }
  }

  /** Removing any part of a tree the active generation is not in. */
  lemma ShrinkingKeepsSound(a: FileSystem, b: FileSystem, tree: Tree)
    requires Sound(a) && Shrunk(a, b, tree)
    requires ManifestPath in a ==> tree.OneGeneration? && tree.name != Final(Active(a))
    ensures Sound(b)
  {
    forall p | p in b ensures RightNode(p, b[p]) && Rooted(p, b) {
      assert p in a && RightNode(p, a[p]) && Rooted(p, a);
    }
    if ManifestPath in b {
      var id := Active(a);
      assert forall g :: g in id ==> GrantFile(Final(id), IdOf(g)) in a;
    }
  }

  /** The staged files of the first k grants, and no others. */
  ghost predicate StagedGrants(fs: FileSystem, n: nat, id: SnapshotId, k: nat)
    requires k <= |id|
  {
    && Generation(Staging(n)) in fs && GrantsDir(Staging(n)) in fs
    && (forall x :: GrantFile(Staging(n), x) in fs ==>
          exists j :: 0 <= j < k && IdOf(id[j]) == x && fs[GrantFile(Staging(n), x)] == File(GrantText(id[j])))
    && (forall j :: 0 <= j < k ==> GrantFile(Staging(n), IdOf(id[j])) in fs)
  }

  ghost predicate Staged(fs: FileSystem, n: nat, id: SnapshotId) {
    && StagedGrants(fs, n, id, |id|)
    && GenerationManifest(Staging(n)) in fs && fs[GenerationManifest(Staging(n))] == File(ManifestText(ManifestFor(id)))
  }

  lemma MovedEntries(fs: FileSystem, n: nat, id: SnapshotId, p: Path)
    requires forall q :: q in fs ==> !HasName(q, Final(id))
    ensures p in Moved(fs, n, id) <==>
      if HasName(p, Final(id)) then Renamed(p, Staging(n)) in fs else p in fs && !HasName(p, Staging(n))
    ensures p in Moved(fs, n, id) ==>
      Moved(fs, n, id)[p] == if HasName(p, Final(id)) then fs[Renamed(p, Staging(n))] else fs[p]
  {
    var targets := set p | p in fs && HasName(p, Staging(n)) :: Renamed(p, Final(id));
    if HasName(p, Final(id)) {
      var source := Renamed(p, Staging(n));
      assert Renamed(source, Final(id)) == p;
      assert source in fs ==> p in targets;
    }
    if p in targets {
      var source :| source in fs && HasName(source, Staging(n)) && p == Renamed(source, Final(id));
      assert Renamed(p, Staging(n)) == source;
    }
  }

  lemma NothingWithoutDirectory(fs: FileSystem, name: Name)
    requires AllRight(fs) && Generation(name) !in fs
    ensures forall p :: p in fs ==> !HasName(p, name)
  {
    assert GrantsDir(name) in fs ==> Rooted(GrantsDir(name), fs);
    forall p | p in fs ensures !HasName(p, name) {
      assert Rooted(p, fs);
    }
  }

  lemma MovedRight(fs: FileSystem, n: nat, id: SnapshotId, p: Path)
    requires AllRight(fs) && Staged(fs, n, id) && p in Moved(fs, n, id)
    requires forall q :: q in fs ==> !HasName(q, Final(id))
    ensures RightNode(p, Moved(fs, n, id)[p]) && Rooted(p, Moved(fs, n, id))
  {
    hide Moved, Sorted, ManifestFor;
    MovedEntries(fs, n, id, p);
    if Parent(p).Some? {
      MovedEntries(fs, n, id, Parent(p).value);
    }
    var source := if HasName(p, Final(id)) then Renamed(p, Staging(n)) else p;
    assert RightNode(source, fs[source]) && Rooted(source, fs);
  }

  lemma MovedComplete(fs: FileSystem, n: nat, id: SnapshotId)
    requires Staged(fs, n, id)
    requires forall q :: q in fs ==> !HasName(q, Final(id))
    ensures Complete(Moved(fs, n, id), id)
  {
    MovedEntries(fs, n, id, Generation(Final(id)));
    MovedEntries(fs, n, id, GrantsDir(Final(id)));
    MovedEntries(fs, n, id, GenerationManifest(Final(id)));
    forall g | g in id ensures GrantFile(Final(id), IdOf(g)) in Moved(fs, n, id) {
      MovedEntries(fs, n, id, GrantFile(Final(id), IdOf(g)));
    }
  }

  lemma AllRightMeans(fs: FileSystem)
    ensures AllRight(fs) <==> forall p :: p in fs ==> RightNode(p, fs[p]) && Rooted(p, fs)
  {
    hide RightNode, Rooted;
  }

  lemma MovedAllRight(fs: FileSystem, n: nat, id: SnapshotId)
    requires AllRight(fs) && Staged(fs, n, id)
    requires forall q :: q in fs ==> !HasName(q, Final(id))
    ensures AllRight(Moved(fs, n, id))
    ensures forall p :: p in Moved(fs, n, id) ==> !HasName(p, Staging(n)) && (HasName(p, Final(id)) || p in fs)
  {
    hide AllRight, Staged, Moved;
    var moved := Moved(fs, n, id);
    forall p | p in moved
      ensures RightNode(p, moved[p]) && Rooted(p, moved) && !HasName(p, Staging(n)) && (HasName(p, Final(id)) || p in fs)
    {
      MovedRight(fs, n, id, p);
      MovedEntries(fs, n, id, p);
    }
    AllRightMeans(moved);
  }

  lemma MovedKeepsActive(fs: FileSystem, n: nat, id: SnapshotId)
    requires Sound(fs) && ManifestPath in fs
    requires forall q :: q in fs ==> !HasName(q, Final(id))
    ensures ManifestPath in Moved(fs, n, id) && Moved(fs, n, id)[ManifestPath] == fs[ManifestPath]
    ensures Complete(Moved(fs, n, id), Active(fs))
  {
    var active := Active(fs);
    hide RightNode, Rooted, Moved;
    assert HasName(Generation(Final(active)), Final(active)) && active != id;
    MovedEntries(fs, n, id, ManifestPath);
    MovedEntries(fs, n, id, Generation(Final(active)));
    MovedEntries(fs, n, id, GrantsDir(Final(active)));
    MovedEntries(fs, n, id, GenerationManifest(Final(active)));
    forall g | g in active ensures GrantFile(Final(active), IdOf(g)) in Moved(fs, n, id) {
      MovedEntries(fs, n, id, GrantFile(Final(active), IdOf(g)));
    }
  }

  /** Renaming a fully staged generation into place. */
  lemma PublishingKeepsSound(fs: FileSystem, n: nat, id: SnapshotId)
    requires Sound(fs) && Staged(fs, n, id)
    requires Generation(Final(id)) !in fs
    ensures Sound(Moved(fs, n, id)) && Complete(Moved(fs, n, id), id)
    ensures ManifestPath in Moved(fs, n, id) <==> ManifestPath in fs
    ensures ManifestPath in fs ==> Moved(fs, n, id)[ManifestPath] == fs[ManifestPath]
    ensures forall p :: p in Moved(fs, n, id) ==> !HasName(p, Staging(n)) && (HasName(p, Final(id)) || p in fs)
  {
    NothingWithoutDirectory(fs, Final(id));
    MovedAllRight(fs, n, id);
    MovedComplete(fs, n, id);
    MovedEntries(fs, n, id, ManifestPath);
    if ManifestPath in fs {
      MovedKeepsActive(fs, n, id);
    }
    hide AllRight, RightNode, Complete, Moved, Staged;
  }

  /** The commit: one rename over the manifest. */
  lemma CommitKeepsSound(fs: FileSystem, temp: Path, id: SnapshotId)
    requires Sound(fs) && Complete(fs, id) && Sorted(id) && temp.ManifestTemp?
    ensures Sound((fs - {temp})[ManifestPath := File(ManifestText(ManifestFor(id)))])
  {
    var next := (fs - {temp})[ManifestPath := File(ManifestText(ManifestFor(id)))];
    forall q | q in next ensures RightNode(q, next[q]) && Rooted(q, next) {
      assert q != ManifestPath ==> q in fs && RightNode(q, fs[q]) && Rooted(q, fs);
    }
    assert forall g :: g in id ==> GrantFile(Final(id), IdOf(g)) in fs;
  }
}
