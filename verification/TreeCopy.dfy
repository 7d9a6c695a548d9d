/** The copy of a scanned tree to a temporary path: directories and files are created in manifest order
    with private permissions, and permissions are set in the opposite order, so that neither a read-only
    nor an unsearchable directory stands in the way. */
module TreeCopy {
  import opened Strings
  import opened Trees

  /** The components below the temporary path. */
  type Path = seq<string>

  type Disk = map<Path, Node>

  const PRIVATE_DIRECTORY: nat := 448 // rwx------
  const PRIVATE_FILE: nat := 384      // rw-------

  predicate Searchable(perm: nat) { perm / 64 % 2 == 1 }

  predicate Writable(perm: nat) { perm / 128 % 2 == 1 }

  /** A manifest entry together with the components of its relative path. */
  datatype Item = Item(path: Path, dir: bool, entry: Entry)

  ghost function Listing(hash: Hash, tree: Tree, base: Path): seq<Item>
    decreases tree, 2
  {
    [Item(base, tree.Dir?, EntryOf(hash, tree, Render(".", base)))] + ListingBelow(hash, tree, base)
  }

  ghost function ListingBelow(hash: Hash, tree: Tree, base: Path): seq<Item>
    decreases tree, 1
  {
    if tree.File? then [] else ListingOf(hash, tree, Sorted(tree.children.Keys), base)
  }

  ghost function ListingOf(hash: Hash, tree: Tree, names: seq<string>, base: Path): seq<Item>
    requires tree.Dir? && forall name | name in names :: name in tree.children
    decreases tree, 0, |names|
  {
    if names == [] then []
    else Listing(hash, tree.children[names[0]], base + [names[0]]) + ListingOf(hash, tree, names[1..], base)
  }

  // ---------------------------------------------------------------- the listing is the scanned manifest

  function Entries(items: seq<Item>): seq<Entry> {
    if items == [] then [] else [items[0].entry] + Entries(items[1..])
  }

  lemma {:induction false} EntriesJoin(a: seq<Item>, b: seq<Item>)
    ensures Entries(a + b) == Entries(a) + Entries(b)
  {
    if a == [] {
      assert a + b == b;
    } else {
      assert (a + b)[1..] == a[1..] + b;
      EntriesJoin(a[1..], b);
    }
  }

  lemma {:induction false} RenderSnoc(base: string, path: Path, name: string)
    ensures Render(base, path + [name]) == Child(Render(base, path), name)
    decreases |path|
  {
    if path == [] {
      assert path + [name] == [name] && [name][1..] == [];
    } else {
      assert (path + [name])[1..] == path[1..] + [name];
      RenderSnoc(Child(base, path[0]), path[1..], name);
    }
  }

  lemma {:induction false} ListingIsWalk(hash: Hash, tree: Tree, base: Path)
    ensures Entries(Listing(hash, tree, base)) == Walk(hash, tree, Render(".", base))
    decreases tree, 1, 0
  {
    var first := Item(base, tree.Dir?, EntryOf(hash, tree, Render(".", base)));
    EntriesJoin([first], ListingBelow(hash, tree, base));
    assert [first][1..] == [];
    if tree.Dir? {
      ListingOfIsWalk(hash, tree, Sorted(tree.children.Keys), base);
    }
  }

  lemma {:induction false} ListingOfIsWalk(hash: Hash, tree: Tree, names: seq<string>, base: Path)
    requires tree.Dir? && forall name | name in names :: name in tree.children
    ensures Entries(ListingOf(hash, tree, names, base)) == WalkChildren(hash, tree, names, Render(".", base))
    decreases tree, 0, |names|
  {
    if names != [] {
      EntriesJoin(Listing(hash, tree.children[names[0]], base + [names[0]]), ListingOf(hash, tree, names[1..], base));
      RenderSnoc(".", base, names[0]);
      ListingIsWalk(hash, tree.children[names[0]], base + [names[0]]);
      ListingOfIsWalk(hash, tree, names[1..], base);
    }
  }

  // ---------------------------------------------------------------- what the file system allows

  function At(disk: Disk, path: Path): Node {
    if path in disk then disk[path] else Missing
  }

  /** Every directory above the path is there and can be searched. */
  ghost predicate Reachable(disk: Disk, path: Path) {
    forall k | 0 <= k < |path| :: SearchableAt(disk, path, k)
  }

  predicate SearchableAt(disk: Disk, path: Path, k: nat)
    requires k <= |path|
  {
    At(disk, path[..k]).DirNode? && Searchable(At(disk, path[..k]).perm)
  }

  predicate ParentWritable(disk: Disk, path: Path) {
    path != [] ==>
      var parent := At(disk, path[..|path| - 1]);
      parent.DirNode? && Writable(parent.perm)
  }

  ghost predicate CanMake(disk: Disk, path: Path) {
    At(disk, path).Missing? && Reachable(disk, path) && ParentWritable(disk, path)
  }

  type Contents = Path -> string

  /** What creating the entry leaves: `contents` is what reading the source gives at that time. */
  function Private(item: Item, contents: Contents): Node {
    if item.dir then DirNode(PRIVATE_DIRECTORY) else FileNode(PRIVATE_FILE, contents(item.path))
  }

  /** All entries can be created one after the other. */
  ghost predicate Creates(items: seq<Item>, disk: Disk, contents: Contents) {
    items == [] || (CanMake(disk, items[0].path) &&
                    Creates(items[1..], disk[items[0].path := Private(items[0], contents)], contents))
  }

  function Created(items: seq<Item>, disk: Disk, contents: Contents): Disk {
    if items == [] then disk else Created(items[1..], disk[items[0].path := Private(items[0], contents)], contents)
  }

  function Stamped(disk: Disk, item: Item): Disk {
    match At(disk, item.path)
    case FileNode(_, content) => disk[item.path := FileNode(item.entry.perm, content)]
    case DirNode(_) => disk[item.path := DirNode(item.entry.perm)]
    case Missing => disk
  }

  /** The permissions of all entries set, the last entry first. */
  function Restored(items: seq<Item>, disk: Disk): Disk {
    if items == [] then disk else Stamped(Restored(items[1..], disk), items[0])
  }

  ghost predicate CanStamp(disk: Disk, path: Path) {
    !At(disk, path).Missing? && Reachable(disk, path)
  }

  ghost predicate Restores(items: seq<Item>, disk: Disk) {
    items == [] || (Restores(items[1..], disk) && CanStamp(Restored(items[1..], disk), items[0].path))
  }

  lemma {:induction false} CreatedJoin(a: seq<Item>, b: seq<Item>, disk: Disk, contents: Contents)
    ensures Created(a + b, disk, contents) == Created(b, Created(a, disk, contents), contents)
    ensures Creates(a, disk, contents) && Creates(b, Created(a, disk, contents), contents) ==>
              Creates(a + b, disk, contents)
    decreases |a|
  {
    if a == [] {
      assert a + b == b;
    } else {
      assert (a + b)[1..] == a[1..] + b;
      CreatedJoin(a[1..], b, disk[a[0].path := Private(a[0], contents)], contents);
    }
  }

  lemma {:induction false} RestoredJoin(a: seq<Item>, b: seq<Item>, disk: Disk)
    ensures Restored(a + b, disk) == Restored(a, Restored(b, disk))
    ensures Restores(b, disk) && Restores(a, Restored(b, disk)) ==> Restores(a + b, disk)
    decreases |a|
  {
    if a == [] {
      assert a + b == b;
    } else {
      assert (a + b)[1..] == a[1..] + b;
      RestoredJoin(a[1..], b, disk);
    }
  }

  // ---------------------------------------------------------------- what both passes do to a subtree

  /** The node of the tree at a path below `base`. */
  function NodeBelow(tree: Tree, base: Path, path: Path): Node {
    if base <= path then Lookup(tree, path[|base|..]) else Missing
  }

  function PrivateNode(node: Node, path: Path, contents: Contents): Node {
    match node
    case FileNode(_, _) => FileNode(PRIVATE_FILE, contents(path))
    case DirNode(_) => DirNode(PRIVATE_DIRECTORY)
    case Missing => Missing
  }

  function FinalNode(node: Node, path: Path, contents: Contents): Node {
    match node
    case FileNode(perm, _) => FileNode(perm, contents(path))
    case _ => node
  }

  predicate LaidAt(before: Disk, after: Disk, node: Node, path: Path, contents: Contents) {
    At(after, path) == if node.Missing? then At(before, path) else PrivateNode(node, path, contents)
  }

  predicate FinalAt(before: Disk, after: Disk, node: Node, path: Path, contents: Contents) {
    At(after, path) == if node.Missing? then At(before, path) else FinalNode(node, path, contents)
  }

  /** The same for the children `names` only. */
  function NodeAmong(tree: Tree, names: seq<string>, base: Path, path: Path): Node {
    if base <= path && |base| < |path| && path[|base|] in names then NodeBelow(tree, base, path) else Missing
  }

  lemma ChildNode(tree: Tree, base: Path, name: string, path: Path)
    requires tree.Dir? && name in tree.children
    ensures base + [name] <= path <==> base <= path && |base| < |path| && path[|base|] == name
    ensures base + [name] <= path ==> NodeBelow(tree, base, path) == NodeBelow(tree.children[name], base + [name], path)
  {
    if base <= path && |base| < |path| {
      assert path[|base|..][1..] == path[|base| + 1..];
      assert path[..|base| + 1] == base + [path[|base|]];
    }
  }

  predicate DistinctNames(names: seq<string>) {
    forall i, j | 0 <= i < j < |names| :: names[i] != names[j]
  }

  lemma SortedDistinct(names: set<string>)
    ensures DistinctNames(Sorted(names))
  {
    var order := Sorted(names);
    forall i, j | 0 <= i < j < |order| ensures order[i] != order[j] {
      LessAntisymmetric(order[i], order[j]);
    }
  }

  predicate FreeAt(disk: Disk, base: Path, path: Path) {
    base <= path ==> At(disk, path).Missing?
  }

  predicate FreeAmong(disk: Disk, names: seq<string>, base: Path, path: Path) {
    base <= path && |base| < |path| && path[|base|] in names ==> At(disk, path).Missing?
  }

  /** Creating the entries of a subtree succeeds and leaves exactly its nodes, all private. */
  lemma {:induction false} CreatesTree(hash: Hash, tree: Tree, base: Path, disk: Disk, contents: Contents)
    requires CanMake(disk, base) && forall path :: FreeAt(disk, base, path)
    ensures Creates(Listing(hash, tree, base), disk, contents)
    ensures var after := Created(Listing(hash, tree, base), disk, contents);
            forall path :: LaidAt(disk, after, NodeBelow(tree, base, path), path, contents)
    decreases tree, 1, 0
  {
    var first := Item(base, tree.Dir?, EntryOf(hash, tree, Render(".", base)));
    var made := disk[base := Private(first, contents)];
    var below := ListingBelow(hash, tree, base);
    assert ([first] + below)[1..] == below;
    if tree.Dir? {
      var names := Sorted(tree.children.Keys);
      SortedDistinct(tree.children.Keys);
      RootMade(disk, made, base);
      CreatesChildren(hash, tree, names, base, made, contents);
      RootLaid(tree, names, base, disk, made, Created(below, made, contents), contents);
    } else {
      FileLaid(tree, base, disk, contents);
    }
  }

  lemma RootLaid(tree: Tree, names: seq<string>, base: Path, disk: Disk, made: Disk, after: Disk, contents: Contents)
    requires tree.Dir? && forall name :: name in names <==> name in tree.children
    requires made == disk[base := DirNode(PRIVATE_DIRECTORY)]
    requires forall path :: LaidAt(made, after, NodeAmong(tree, names, base, path), path, contents)
    ensures forall path :: LaidAt(disk, after, NodeBelow(tree, base, path), path, contents)
  {
    forall path ensures LaidAt(disk, after, NodeBelow(tree, base, path), path, contents) {
      assert LaidAt(made, after, NodeAmong(tree, names, base, path), path, contents);
      RootOrChild(tree, names, base, path);
    }
  }

  lemma FileLaid(tree: Tree, base: Path, disk: Disk, contents: Contents)
    requires tree.File?
    ensures var made := disk[base := FileNode(PRIVATE_FILE, contents(base))];
            forall path :: LaidAt(disk, made, NodeBelow(tree, base, path), path, contents)
  {
    var made := disk[base := FileNode(PRIVATE_FILE, contents(base))];
    forall path ensures LaidAt(disk, made, NodeBelow(tree, base, path), path, contents) {
      FileOnly(tree, base, path);
    }
  }

  lemma {:induction false} CreatesChildren(hash: Hash, tree: Tree, names: seq<string>, base: Path, disk: Disk,
                                           contents: Contents)
    requires tree.Dir? && forall name | name in names :: name in tree.children
    requires DistinctNames(names)
    requires At(disk, base) == DirNode(PRIVATE_DIRECTORY) && Reachable(disk, base)
    requires forall path :: FreeAmong(disk, names, base, path)
    ensures Creates(ListingOf(hash, tree, names, base), disk, contents)
    ensures var after := Created(ListingOf(hash, tree, names, base), disk, contents);
            forall path :: LaidAt(disk, after, NodeAmong(tree, names, base, path), path, contents)
    decreases tree, 0, |names|
  {
    if names != [] {
      var name, rest := names[0], names[1..];
      var child := tree.children[name];
      var first, others := Listing(hash, child, base + [name]), ListingOf(hash, tree, rest, base);
      forall path ensures FreeAt(disk, base + [name], path) {
        assert FreeAmong(disk, names, base, path);
        ChildNode(tree, base, name, path);
      }
      ChildMakeable(disk, base, name);
      CreatesTree(hash, child, base + [name], disk, contents);
      var middle := Created(first, disk, contents);
      ChildOnly(tree, base, name, disk, middle, contents);
      forall path ensures FreeAmong(middle, rest, base, path) {
        assert FreeAmong(disk, names, base, path) && At(middle, path) == At(middle, path);
        ChildNode(tree, base, name, path);
      }
      CreatesChildren(hash, tree, rest, base, middle, contents);
      CreatedJoin(first, others, disk, contents);
      var after := Created(others, middle, contents);
      forall path ensures LaidAt(disk, after, NodeAmong(tree, names, base, path), path, contents) {
        assert LaidAt(middle, after, NodeAmong(tree, rest, base, path), path, contents);
        assert LaidAt(disk, middle, NodeBelow(child, base + [name], path), path, contents);
        ChildNode(tree, base, name, path);
      }
    }
  }

  lemma ReachableUnchanged(disk: Disk, made: Disk, base: Path)
    requires Reachable(disk, base) && forall path | |path| < |base| :: At(made, path) == At(disk, path)
    ensures Reachable(made, base)
  {
    forall k | 0 <= k < |base| ensures SearchableAt(made, base, k) {
      assert SearchableAt(disk, base, k);
    }
  }

  lemma RootMade(disk: Disk, made: Disk, base: Path)
    requires CanMake(disk, base) && forall path :: FreeAt(disk, base, path)
    requires base in made && made == disk[base := made[base]]
    ensures Reachable(made, base) && forall names, path :: FreeAmong(made, names, base, path)
  {
    ReachableUnchanged(disk, made, base);
    forall names, path ensures FreeAmong(made, names, base, path) {
      assert FreeAt(disk, base, path);
    }
  }

  /** A path below `base` is `base` itself or below one of the children. */
  lemma RootOrChild(tree: Tree, names: seq<string>, base: Path, path: Path)
    requires tree.Dir? && forall name :: name in names <==> name in tree.children
    ensures NodeBelow(tree, base, path) ==
            if path == base then DirNode(tree.perm) else NodeAmong(tree, names, base, path)
  {
  }

  lemma FileOnly(tree: Tree, base: Path, path: Path)
    requires tree.File?
    ensures NodeBelow(tree, base, path) == if path == base then FileNode(tree.perm, tree.content) else Missing
  {
  }

  lemma ChildMakeable(disk: Disk, base: Path, name: string)
    requires At(disk, base) == DirNode(PRIVATE_DIRECTORY) && Reachable(disk, base)
    requires FreeAt(disk, base + [name], base + [name])
    ensures CanMake(disk, base + [name])
  {
    ChildReachable(disk, base, name);
    assert (base + [name])[..|base|] == base;
  }

  /** Creating one child leaves its directory and the other children as they were. */
  lemma ChildOnly(tree: Tree, base: Path, name: string, disk: Disk, after: Disk, contents: Contents)
    requires tree.Dir? && name in tree.children && Reachable(disk, base)
    requires forall path :: LaidAt(disk, after, NodeBelow(tree.children[name], base + [name], path), path, contents)
    ensures At(after, base) == At(disk, base) && Reachable(after, base)
    ensures forall path {:trigger At(after, path)} :: !(base + [name] <= path) ==> At(after, path) == At(disk, path)
  {
    forall path | !(base + [name] <= path) ensures At(after, path) == At(disk, path) {
      assert LaidAt(disk, after, NodeBelow(tree.children[name], base + [name], path), path, contents);
    }
    ReachableUnchanged(disk, after, base);
  }

  // ---------------------------------------------------------------- permissions, from the last entry to the first

  /** The private copy of the node is in place. */
  predicate PrivateAt(disk: Disk, node: Node, path: Path, contents: Contents) {
    node.Missing? || At(disk, path) == PrivateNode(node, path, contents)
  }

  /** Setting the permissions of a subtree never meets a directory that cannot be searched. */
  lemma {:induction false} RestoresTree(hash: Hash, tree: Tree, base: Path, disk: Disk, contents: Contents)
    requires Reachable(disk, base) && forall path :: PrivateAt(disk, NodeBelow(tree, base, path), path, contents)
    ensures Restores(Listing(hash, tree, base), disk)
    ensures var after := Restored(Listing(hash, tree, base), disk);
            forall path :: FinalAt(disk, after, NodeBelow(tree, base, path), path, contents)
    decreases tree, 1, 0
  {
    var first := Item(base, tree.Dir?, EntryOf(hash, tree, Render(".", base)));
    var below := ListingBelow(hash, tree, base);
    assert ([first] + below)[1..] == below;
    assert PrivateAt(disk, NodeBelow(tree, base, base), base, contents);
    if tree.Dir? {
      var names := Sorted(tree.children.Keys);
      SortedDistinct(tree.children.Keys);
      forall path ensures PrivateAt(disk, NodeAmong(tree, names, base, path), path, contents) {
        assert PrivateAt(disk, NodeBelow(tree, base, path), path, contents);
      }
      RestoresChildren(hash, tree, names, base, disk, contents);
      var middle := Restored(below, disk);
      assert FinalAt(disk, middle, NodeAmong(tree, names, base, base), base, contents);
      ReachableKept(disk, middle, tree, names, base, contents);
      forall path ensures FinalAt(disk, Stamped(middle, first), NodeBelow(tree, base, path), path, contents) {
        assert FinalAt(disk, middle, NodeAmong(tree, names, base, path), path, contents);
        RootOrChild(tree, names, base, path);
      }
    } else {
      assert below == [] && Restored(below, disk) == disk && Restores(below, disk);
      FileOnly(tree, base, base);
      assert CanStamp(disk, base);
      assert Restored([first] + below, disk) == Stamped(disk, first);
      forall path ensures FinalAt(disk, Stamped(disk, first), NodeBelow(tree, base, path), path, contents) {
        FileOnly(tree, base, path);
      }
    }
  }

  lemma {:induction false} RestoresChildren(hash: Hash, tree: Tree, names: seq<string>, base: Path, disk: Disk,
                                            contents: Contents)
    requires tree.Dir? && (forall name | name in names :: name in tree.children) && DistinctNames(names)
    requires At(disk, base) == DirNode(PRIVATE_DIRECTORY) && Reachable(disk, base)
    requires forall path :: PrivateAt(disk, NodeAmong(tree, names, base, path), path, contents)
    ensures Restores(ListingOf(hash, tree, names, base), disk)
    ensures var after := Restored(ListingOf(hash, tree, names, base), disk);
            forall path :: FinalAt(disk, after, NodeAmong(tree, names, base, path), path, contents)
    decreases tree, 0, |names|
  {
    if names != [] {
      var name, rest := names[0], names[1..];
      var child := tree.children[name];
      var first, others := Listing(hash, child, base + [name]), ListingOf(hash, tree, rest, base);
      forall path ensures PrivateAt(disk, NodeAmong(tree, rest, base, path), path, contents) {
        assert PrivateAt(disk, NodeAmong(tree, names, base, path), path, contents);
      }
      RestoresChildren(hash, tree, rest, base, disk, contents);
      var middle := Restored(others, disk);
      forall path ensures PrivateAt(middle, NodeBelow(child, base + [name], path), path, contents) {
        assert PrivateAt(disk, NodeAmong(tree, names, base, path), path, contents);
        assert FinalAt(disk, middle, NodeAmong(tree, rest, base, path), path, contents);
        ChildNode(tree, base, name, path);
      }
      ReachableKept(disk, middle, tree, rest, base, contents);
      assert FinalAt(disk, middle, NodeAmong(tree, rest, base, base), base, contents);
      ChildReachable(middle, base, name);
      RestoresTree(hash, child, base + [name], middle, contents);
      RestoredJoin(first, others, disk);
      var after := Restored(first, middle);
      forall path ensures FinalAt(disk, after, NodeAmong(tree, names, base, path), path, contents) {
        assert FinalAt(disk, middle, NodeAmong(tree, rest, base, path), path, contents);
        assert FinalAt(middle, after, NodeBelow(child, base + [name], path), path, contents);
        ChildNode(tree, base, name, path);
      }
    }
  }

  lemma ReachableKept(disk: Disk, after: Disk, tree: Tree, names: seq<string>, base: Path, contents: Contents)
    requires Reachable(disk, base)
    requires forall path :: FinalAt(disk, after, NodeAmong(tree, names, base, path), path, contents)
    ensures Reachable(after, base)
  {
    forall k | 0 <= k < |base| ensures SearchableAt(after, base, k) {
      assert SearchableAt(disk, base, k);
      assert FinalAt(disk, after, NodeAmong(tree, names, base, base[..k]), base[..k], contents);
    }
  }

  lemma ChildReachable(disk: Disk, base: Path, name: string)
    requires At(disk, base) == DirNode(PRIVATE_DIRECTORY) && Reachable(disk, base)
    ensures Reachable(disk, base + [name])
  {
    var path := base + [name];
    forall k | 0 <= k < |path| ensures SearchableAt(disk, path, k) {
      if k < |base| {
        assert SearchableAt(disk, base, k) && path[..k] == base[..k];
      } else {
        assert path[..k] == base;
      }
    }
  }

  // ---------------------------------------------------------------- the copy

  /** The modification time of the source file at a path. */
  type Times = Path -> int

  /** What the source shows now has the modification time, the size and the digest of the preflight. */
  predicate SameAsScanned(hash: Hash, item: Item, contents: Contents, modified: Times, scanned: Times) {
    item.dir ||
    (|contents(item.path)| == item.entry.size && modified(item.path) == scanned(item.path) &&
     hash(contents(item.path)) == item.entry.digest)
  }

  class Copier {
    const hash: Hash
    const contents: Contents
    /** The modification times now and at the preflight. */
    const modified: Times
    const scanned: Times
    /** The temporary path and what is below it; empty while it does not exist. */
    var disk: Disk

    constructor (hash: Hash, contents: Contents, modified: Times, scanned: Times)
      ensures this.hash == hash && this.contents == contents && disk == map[]
      ensures this.modified == modified && this.scanned == scanned
    {
      this.hash, this.contents, this.modified, this.scanned, disk := hash, contents, modified, scanned, map[];
    }

    method Mkdir(item: Item)
      requires item.dir && CanMake(disk, item.path)
      modifies this
      ensures disk == old(disk)[item.path := Private(item, contents)]
    {
      disk := disk[item.path := DirNode(PRIVATE_DIRECTORY)];
    }

    /** Refuses a source that no longer has the scanned size and modification time before writing, and
        one whose bytes do not have the scanned digest after. */
    method CopyVerifiedRegular(item: Item) returns (ok: bool)
      requires !item.dir && CanMake(disk, item.path)
      modifies this
      ensures ok <==> SameAsScanned(hash, item, contents, modified, scanned)
      ensures ok ==> disk == old(disk)[item.path := Private(item, contents)]
    {
      var bytes := contents(item.path);
      if |bytes| != item.entry.size || modified(item.path) != scanned(item.path) {
        return false;
      }
      disk := disk[item.path := FileNode(PRIVATE_FILE, bytes)];
      ok := hash(bytes) == item.entry.digest;
    }

    method Chmod(item: Item)
      requires CanStamp(disk, item.path)
      modifies this
      ensures disk == Stamped(old(disk), item)
    {
      match disk[item.path]
      case FileNode(_, content) => disk := disk[item.path := FileNode(item.entry.perm, content)];
      case DirNode(_) => disk := disk[item.path := DirNode(item.entry.perm)];
    }

    /** Copies along the manifest of the tree.  No step is refused by the file system, whatever the
        permissions in the tree; the copy fails exactly when the source changed, and otherwise has the
        nodes of the tree with the bytes that were read. */
    method Copy(ghost tree: Tree, manifest: seq<Item>) returns (ok: bool)
      requires manifest == Listing(hash, tree, []) && disk == map[]
      modifies this
      ensures ok <==> forall item | item in manifest :: SameAsScanned(hash, item, contents, modified, scanned)
      ensures ok ==> forall path :: At(disk, path) == FinalNode(Lookup(tree, path), path, contents)
    {
      ghost var start := disk;
      CreatesTree(hash, tree, [], start, contents);
      ghost var laid := Created(manifest, start, contents);
      ok := CreateAll(manifest, laid);
      if !ok {
        return;
      }
      AllLaid(hash, tree, start, laid, contents);
      RestoresTree(hash, tree, [], laid, contents);
      StampAll(manifest, laid);
      AllFinal(tree, laid, disk, contents);
    }

    /** The first loop of the copy. */
    method CreateAll(manifest: seq<Item>, ghost laid: Disk) returns (ok: bool)
      requires Creates(manifest, disk, contents) && laid == Created(manifest, disk, contents)
      modifies this
      ensures ok <==> forall item | item in manifest :: SameAsScanned(hash, item, contents, modified, scanned)
      ensures ok ==> disk == laid
    {
      assert manifest[0..] == manifest;
      for i := 0 to |manifest|
        invariant Creates(manifest[i..], disk, contents) && Created(manifest[i..], disk, contents) == laid
        invariant forall j | 0 <= j < i :: SameAsScanned(hash, manifest[j], contents, modified, scanned)
      {
        var item := manifest[i];
        assert manifest[i..][0] == item && manifest[i..][1..] == manifest[i + 1..];
        if item.dir {
          Mkdir(item);
        } else {
          ok := CopyVerifiedRegular(item);
          if !ok {
            return;
          }
        }
      }
      ok := true;
    }

    /** The second loop of the copy. */
    method StampAll(manifest: seq<Item>, ghost laid: Disk)
      requires disk == laid && Restores(manifest, laid)
      modifies this
      ensures disk == Restored(manifest, laid)
    {
      var index: nat := |manifest|;
      RestoresFrom(manifest, laid);
      while index > 0
        invariant index <= |manifest| && disk == Restored(manifest[index..], laid)
      {
        index := index - 1;
        assert manifest[index..][0] == manifest[index] && manifest[index..][1..] == manifest[index + 1..];
        assert RestoresAt(manifest, laid, index);
        Chmod(manifest[index]);
      }
      assert manifest[0..] == manifest;
    }
  }

  ghost predicate RestoresAt(items: seq<Item>, disk: Disk, k: nat)
    requires k <= |items|
  {
    Restores(items[k..], disk)
  }

  lemma {:induction false} RestoresFrom(items: seq<Item>, disk: Disk)
    requires Restores(items, disk)
    ensures forall k | 0 <= k <= |items| :: RestoresAt(items, disk, k)
  {
    forall k | 0 <= k <= |items| ensures RestoresAt(items, disk, k) {
      if k == 0 {
        assert items[k..] == items;
      } else {
        RestoresFrom(items[1..], disk);
        assert RestoresAt(items[1..], disk, k - 1);
        assert items[1..][k - 1..] == items[k..];
      }
    }
  }

  lemma AllLaid(hash: Hash, tree: Tree, start: Disk, laid: Disk, contents: Contents)
    requires start == map[] && forall path :: LaidAt(start, laid, NodeBelow(tree, [], path), path, contents)
    ensures forall path :: PrivateAt(laid, NodeBelow(tree, [], path), path, contents)
    ensures forall path :: Lookup(tree, path).Missing? ==> At(laid, path).Missing?
  {
    forall path ensures PrivateAt(laid, NodeBelow(tree, [], path), path, contents) {
      assert LaidAt(start, laid, NodeBelow(tree, [], path), path, contents);
    }
    forall path | Lookup(tree, path).Missing? ensures At(laid, path).Missing? {
      assert LaidAt(start, laid, NodeBelow(tree, [], path), path, contents);
      assert path[0..] == path;
    }
  }

  lemma AllFinal(tree: Tree, laid: Disk, disk: Disk, contents: Contents)
    requires forall path :: FinalAt(laid, disk, NodeBelow(tree, [], path), path, contents)
    requires forall path :: Lookup(tree, path).Missing? ==> At(laid, path).Missing?
    ensures forall path :: At(disk, path) == FinalNode(Lookup(tree, path), path, contents)
  {
    forall path ensures At(disk, path) == FinalNode(Lookup(tree, path), path, contents) {
      assert FinalAt(laid, disk, NodeBelow(tree, [], path), path, contents);
      assert path[0..] == path;
    }
  }

  /** A verified copy is the scanned tree, unless the bytes read at some path collide with the scanned
      ones. */
  lemma CopiedTreeIsScanned(hash: Hash, tree: Tree, disk: Disk, contents: Contents, modified: Times, scanned: Times,
                            copy: Tree)
    requires forall item | item in Listing(hash, tree, []) :: SameAsScanned(hash, item, contents, modified, scanned)
    requires forall path :: At(disk, path) == FinalNode(Lookup(tree, path), path, contents)
    requires forall path :: Lookup(copy, path) == At(disk, path)
    ensures copy == tree || exists path :: ContentsCollide(hash, tree, copy, path)
  {
    if forall path :: !ContentsCollide(hash, tree, copy, path) {
      forall path ensures Lookup(copy, path) == Lookup(tree, path) {
        assert !ContentsCollide(hash, tree, copy, path) && Lookup(copy, path) == At(disk, path);
        if Lookup(tree, path).FileNode? {
          var item := ListedAt(hash, tree, [], path);
          assert path[0..] == path && [] + path == path;
        }
      }
      SameNodesSameTree(copy, tree);
    }
  }

  lemma {:induction false} ListedAt(hash: Hash, tree: Tree, base: Path, path: Path) returns (item: Item)
    requires !Lookup(tree, path).Missing?
    ensures item in Listing(hash, tree, base) && item.path == base + path
    ensures item.dir == Lookup(tree, path).DirNode?
    ensures item.entry == NodeEntry(hash, Lookup(tree, path), Render(".", item.path))
    decreases path
  {
    if path == [] {
      item := Listing(hash, tree, base)[0];
      assert base + [] == base;
    } else {
      var name := path[0];
      item := ListedAt(hash, tree.children[name], base + [name], path[1..]);
      NameFirst(base, path);
      ListingIncludes(hash, tree, Sorted(tree.children.Keys), base, name);
    }
  }

  lemma NameFirst(base: Path, path: Path)
    requires path != []
    ensures (base + [path[0]]) + path[1..] == base + path
  {
  }

  lemma {:induction false} ListingIncludes(hash: Hash, tree: Tree, names: seq<string>, base: Path, name: string)
    requires tree.Dir? && (forall n | n in names :: n in tree.children) && name in names
    ensures forall item | item in Listing(hash, tree.children[name], base + [name]) ::
            item in ListingOf(hash, tree, names, base)
    decreases |names|
  {
    if names[0] != name {
      ListingIncludes(hash, tree, names[1..], base, name);
    }
  }
}
