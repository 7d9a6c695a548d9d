/** File trees and the manifest digest that a cross-filesystem move verifies.

    A string stands for a Go byte string, one character per byte.  SHA-256 in lower-case
    hexadecimal is an arbitrary function `hash`; nothing assumes that it is free of collisions:
    a conclusion that depends on it names the two inputs that would have to collide. */
module Strings {

  /** Two texts cut at their first separator are the same cut. */
  lemma CutUnique(a: string, b: string, separator: char, x: string, y: string)
    requires separator !in a && separator !in b
    requires a + [separator] + x == b + [separator] + y
    ensures a == b && x == y
  {
    var left, right := a + [separator] + x, b + [separator] + y;
    assert left[|b|] == separator && right[|a|] == separator;
    assert forall i | 0 <= i < |a| :: left[i] == a[i] && a[i] in a;
    assert forall i | 0 <= i < |b| :: right[i] == b[i] && b[i] in b;
    assert a == left[..|a|] && b == right[..|b|];
    assert x == left[|a| + 1..] && y == right[|b| + 1..];
  }

  /** A text shows at most one beginning that is free of separators and ends at one or at the end. */
  lemma BeginningUnique(a: string, b: string, separator: char, text: string)
    requires separator !in a && separator !in b && a <= text && b <= text
    requires |a| == |text| || text[|a|] == separator
    requires |b| == |text| || text[|b|] == separator
    ensures a == b
  {
    assert forall i | 0 <= i < |a| :: text[i] == a[i] && a[i] in a;
    assert forall i | 0 <= i < |b| :: text[i] == b[i] && b[i] in b;
    assert a == text[..|a|] && b == text[..|b|];
  }

  /** Decimal rendering of a natural number, as %d prints it. */
  function Decimal(n: nat): (text: string)
    ensures text != "" && forall c :: c in text ==> '0' <= c <= '9'
  {
    var digit := ['0' + (n % 10) as char];
    if n < 10 then digit else Decimal(n / 10) + digit
  }

  lemma {:induction false} DecimalInjective(m: nat, n: nat)
    requires Decimal(m) == Decimal(n)
    ensures m == n
  {
    var left, right := Decimal(m), Decimal(n);
    assert left[|left| - 1] == '0' + (m % 10) as char;
    assert right[|right| - 1] == '0' + (n % 10) as char;
    assert m % 10 == n % 10;
    if 10 <= m && 10 <= n {
      assert Decimal(m / 10) == left[..|left| - 1] && Decimal(n / 10) == right[..|right| - 1];
      DecimalInjective(m / 10, n / 10);
    }
  }

  /** Byte-wise order of names, the order of Go's `<` on strings. */
  predicate Less(a: string, b: string) {
    b != "" && (a == "" || a[0] < b[0] || (a[0] == b[0] && Less(a[1..], b[1..])))
  }

  lemma {:induction false} LessTotal(a: string, b: string)
    ensures a == b || Less(a, b) || Less(b, a)
  {
    if a != "" && b != "" && a[0] == b[0] {
      LessTotal(a[1..], b[1..]);
      assert a == [a[0]] + a[1..] && b == [b[0]] + b[1..];
    }
  }

  lemma {:induction false} LessTransitive(a: string, b: string, c: string)
    requires Less(a, b) && Less(b, c)
    ensures Less(a, c)
  {
    if a != "" && a[0] == b[0] == c[0] {
      LessTransitive(a[1..], b[1..], c[1..]);
    }
  }

  lemma LeastExists(names: set<string>)
    requires names != {}
    ensures exists least :: least in names && forall other | other in names :: other == least || Less(least, other)
  {
    var pick :| pick in names;
    var rest := names - {pick};
    if rest == {} {
      assert names == {pick};
    } else {
      LeastExists(rest);
      var least :| least in rest && forall other | other in rest :: other == least || Less(least, other);
      LessTotal(pick, least);
      if Less(pick, least) {
        forall other | other in names ensures other == pick || Less(pick, other) {
          if other != pick && other != least { LessTransitive(pick, least, other); }
        }
      } else {
        assert forall other | other in names :: other == least || Less(least, other);
      }
    }
  }

  ghost function Least(names: set<string>): (least: string)
    requires names != {}
    ensures least in names && forall other | other in names :: other == least || Less(least, other)
  {
    LeastExists(names);
    var least :| least in names && forall other | other in names :: other == least || Less(least, other);
    least
  }

  /** A directory listing in the order in which both walks visit it. */
  ghost function Sorted(names: set<string>): (order: seq<string>)
    ensures forall name :: name in order <==> name in names
    ensures |order| == |names|
    ensures forall i, j | 0 <= i < j < |order| :: Less(order[i], order[j])
  {
    if names == {} then []
    else
      var least := Least(names);
      [least] + Sorted(names - {least})
  }
}

module Trees {
  import opened Strings
  import opened Wrappers

  type Hash = string -> string

  datatype Tree =
    | File(perm: nat, content: string)
    | Dir(perm: nat, children: map<string, Tree>)

  /** Component names a file system can hold. */
  predicate ValidName(name: string) {
    name != "" && name != "." && '/' !in name && '\0' !in name
  }

  predicate WellFormed(tree: Tree) {
    tree.File? || forall name | name in tree.children :: ValidName(name) && WellFormed(tree.children[name])
  }

  /** One line of a move manifest. */
  datatype Entry = Entry(relative: string, perm: nat, size: nat, digest: string)

  function EncodeEntry(entry: Entry): string {
    entry.relative + "\0" + (Decimal(entry.perm) + "\0" + (Decimal(entry.size) + "\0" + (entry.digest + "\n")))
  }

  function EncodeManifest(entries: seq<Entry>): string {
    if entries == [] then "" else EncodeEntry(entries[0]) + EncodeManifest(entries[1..])
  }

  function Child(relative: string, name: string): string {
    if relative == "." then name else relative + "/" + name
  }

  function EntryOf(hash: Hash, tree: Tree, relative: string): Entry {
    match tree
    case File(perm, content) => Entry(relative, perm, |content|, hash(content))
    case Dir(perm, _) => Entry(relative, perm, 0, "")
  }

  /** The depth-first walk: a directory first, then its children in name order. */
  ghost function Walk(hash: Hash, tree: Tree, relative: string): seq<Entry>
    decreases tree, 2
  {
    [EntryOf(hash, tree, relative)] + Below(hash, tree, relative)
  }

  ghost function Below(hash: Hash, tree: Tree, relative: string): seq<Entry>
    decreases tree, 1
  {
    if tree.File? then [] else WalkChildren(hash, tree, Sorted(tree.children.Keys), relative)
  }

  ghost function WalkChildren(hash: Hash, tree: Tree, names: seq<string>, relative: string): seq<Entry>
    requires tree.Dir? && forall name | name in names :: name in tree.children
    decreases tree, 0, |names|
  {
    if names == [] then []
    else
      Walk(hash, tree.children[names[0]], Child(relative, names[0])) +
      WalkChildren(hash, tree, names[1..], relative)
  }

  ghost function Manifest(hash: Hash, tree: Tree): string {
    EncodeManifest(Walk(hash, tree, "."))
  }

  ghost function TreeDigest(hash: Hash, tree: Tree): string {
    hash(Manifest(hash, tree))
  }

  /** What a manifest line says about the entry at a path. */
  datatype Node = FileNode(perm: nat, content: string) | DirNode(perm: nat) | Missing

  function Lookup(tree: Tree, path: seq<string>): Node {
    if path == [] then
      match tree { case File(perm, content) => FileNode(perm, content) case Dir(perm, _) => DirNode(perm) }
    else if tree.Dir? && path[0] in tree.children then Lookup(tree.children[path[0]], path[1..])
    else Missing
  }

  function NodeEntry(hash: Hash, node: Node, relative: string): Entry
    requires !node.Missing?
  {
    match node
    case FileNode(perm, content) => Entry(relative, perm, |content|, hash(content))
    case DirNode(perm) => Entry(relative, perm, 0, "")
  }

  /** The relative path text of the entry reached from `base` by `path`. */
  function Render(base: string, path: seq<string>): string
    decreases |path|
  {
    if path == [] then base else Render(Child(base, path[0]), path[1..])
  }

  /** Hexadecimal SHA-256 values: 64 lower-case hexadecimal digits. */
  ghost predicate HexDigests(hash: Hash) {
    forall text :: |hash(text)| == 64 && forall c | c in hash(text) :: '0' <= c <= '9' || 'a' <= c <= 'f'
  }

  // ---------------------------------------------------------------- manifest encoding

  predicate Plain(entry: Entry) {
    '\0' !in entry.relative && '\n' !in entry.digest
  }

  lemma EntryCut(a: Entry, b: Entry, x: string, y: string)
    requires Plain(a) && Plain(b)
    requires EncodeEntry(a) + x == EncodeEntry(b) + y
    ensures a == b && x == y
  {
    var a3, b3 := a.digest + "\n" + x, b.digest + "\n" + y;
    var a2, b2 := Decimal(a.size) + "\0" + a3, Decimal(b.size) + "\0" + b3;
    var a1, b1 := Decimal(a.perm) + "\0" + a2, Decimal(b.perm) + "\0" + b2;
    assert EncodeEntry(a) + x == a.relative + "\0" + a1;
    assert EncodeEntry(b) + y == b.relative + "\0" + b1;
    CutUnique(a.relative, b.relative, '\0', a1, b1);
    CutUnique(Decimal(a.perm), Decimal(b.perm), '\0', a2, b2);
    CutUnique(Decimal(a.size), Decimal(b.size), '\0', a3, b3);
    CutUnique(a.digest, b.digest, '\n', x, y);
    DecimalInjective(a.perm, b.perm);
    DecimalInjective(a.size, b.size);
  }

  /** The byte encoding of a manifest decodes uniquely. */
  lemma {:induction false} ManifestDecodes(left: seq<Entry>, right: seq<Entry>)
    requires forall entry | entry in left :: Plain(entry)
    requires forall entry | entry in right :: Plain(entry)
    requires EncodeManifest(left) == EncodeManifest(right)
    ensures left == right
  {
    if left != [] && right != [] {
      EntryCut(left[0], right[0], EncodeManifest(left[1..]), EncodeManifest(right[1..]));
      ManifestDecodes(left[1..], right[1..]);
    }
  }

  // ---------------------------------------------------------------- relative paths

  predicate ValidPath(path: seq<string>) {
    forall name | name in path :: ValidName(name)
  }

  lemma {:induction false} RenderBelow(base: string, path: seq<string>)
    requires ValidPath(path) && base != "." && base != ""
    ensures path != [] ==> |base| < |Render(base, path)| && Render(base, path)[..|base|] == base
                           && Render(base, path)[|base|] == '/'
    ensures '\0' !in base ==> '\0' !in Render(base, path)
    decreases |path|
  {
    if path != [] {
      assert path[0] in path;
      RenderBelow(Child(base, path[0]), path[1..]);
    }
  }

  lemma {:induction false} RenderBelowInjective(base: string, p: seq<string>, q: seq<string>)
    requires ValidPath(p) && ValidPath(q) && base != "." && base != ""
    requires Render(base, p) == Render(base, q)
    ensures p == q
    decreases |p|
  {
    RenderBelow(base, p);
    RenderBelow(base, q);
    if p != [] && q != [] {
      assert p[0] in p && q[0] in q;
      FirstComponent(base + "/", p, q);
      RenderBelowInjective(Child(base, p[0]), p[1..], q[1..]);
    }
  }

  /** The text after a common beginning shows the first component of a path. */
  lemma FirstComponent(prefix: string, p: seq<string>, q: seq<string>)
    requires p != [] && q != [] && ValidPath(p) && ValidPath(q)
    requires prefix + p[0] != "." && prefix + q[0] != "."
    requires Render(prefix + p[0], p[1..]) == Render(prefix + q[0], q[1..])
    ensures p[0] == q[0]
  {
    ShowsFirst(prefix, p);
    ShowsFirst(prefix, q);
    var text := Render(prefix + p[0], p[1..])[|prefix|..];
    assert p[0] in p && q[0] in q;
    BeginningUnique(p[0], q[0], '/', text);
  }

  lemma ShowsFirst(prefix: string, p: seq<string>)
    requires p != [] && ValidPath(p) && prefix + p[0] != "."
    ensures |prefix| <= |Render(prefix + p[0], p[1..])|
    ensures var text := Render(prefix + p[0], p[1..])[|prefix|..];
            p[0] <= text && (|p[0]| == |text| || text[|p[0]|] == '/')
  {
    assert p[0] in p;
    RenderBelow(prefix + p[0], p[1..]);
    var whole := Render(prefix + p[0], p[1..]);
    assert prefix + p[0] == whole[..|prefix + p[0]|];
    assert p[0] == whole[|prefix|..][..|p[0]|];
  }

  /** Distinct paths have distinct relative texts, and none contains a NUL byte. */
  lemma RenderInjective(p: seq<string>, q: seq<string>)
    requires ValidPath(p) && ValidPath(q) && Render(".", p) == Render(".", q)
    ensures p == q && '\0' !in Render(".", p)
  {
    if p != [] {
      assert p[0] in p;
      RenderBelow(p[0], p[1..]);
    }
    if q != [] {
      assert q[0] in q;
      RenderBelow(q[0], q[1..]);
    }
    if p != [] && q != [] {
      assert Child(".", p[0]) == "" + p[0] && Child(".", q[0]) == "" + q[0];
      FirstComponent("", p, q);
      RenderBelowInjective(p[0], p[1..], q[1..]);
    }
  }

  // ---------------------------------------------------------------- the walk lists exactly the nodes

  lemma {:induction false} LookupPathValid(tree: Tree, path: seq<string>)
    requires WellFormed(tree) && !Lookup(tree, path).Missing?
    ensures ValidPath(path)
  {
    if path != [] {
      LookupPathValid(tree.children[path[0]], path[1..]);
    }
  }

  lemma {:induction false} WalkListsNode(hash: Hash, tree: Tree, base: string, path: seq<string>)
    requires !Lookup(tree, path).Missing?
    ensures NodeEntry(hash, Lookup(tree, path), Render(base, path)) in Walk(hash, tree, base)
    decreases path
  {
    if path != [] {
      var name := path[0];
      WalkListsNode(hash, tree.children[name], Child(base, name), path[1..]);
      ChildWalkIncluded(hash, tree, Sorted(tree.children.Keys), base, name);
    }
  }

  lemma {:induction false} ChildWalkIncluded(hash: Hash, tree: Tree, names: seq<string>, base: string, name: string)
    requires tree.Dir? && (forall n | n in names :: n in tree.children) && name in names
    ensures forall entry | entry in Walk(hash, tree.children[name], Child(base, name)) ::
              entry in WalkChildren(hash, tree, names, base)
    decreases |names|
  {
    if names[0] != name {
      ChildWalkIncluded(hash, tree, names[1..], base, name);
    }
  }

  lemma {:induction false} WalkListsOnlyNodes(hash: Hash, tree: Tree, base: string, entry: Entry)
    returns (path: seq<string>)
    requires entry in Walk(hash, tree, base)
    ensures !Lookup(tree, path).Missing? && entry == NodeEntry(hash, Lookup(tree, path), Render(base, path))
    decreases tree, 1, 0
  {
    if entry == EntryOf(hash, tree, base) {
      path := [];
    } else {
      path := ChildrenListOnlyNodes(hash, tree, Sorted(tree.children.Keys), base, entry);
    }
  }

  lemma {:induction false} ChildrenListOnlyNodes(hash: Hash, tree: Tree, names: seq<string>, base: string, entry: Entry)
    returns (path: seq<string>)
    requires tree.Dir? && (forall n | n in names :: n in tree.children)
    requires entry in WalkChildren(hash, tree, names, base)
    ensures !Lookup(tree, path).Missing? && entry == NodeEntry(hash, Lookup(tree, path), Render(base, path))
    decreases tree, 0, |names|
  {
    if entry in Walk(hash, tree.children[names[0]], Child(base, names[0])) {
      var below := WalkListsOnlyNodes(hash, tree.children[names[0]], Child(base, names[0]), entry);
      path := [names[0]] + below;
    } else {
      path := ChildrenListOnlyNodes(hash, tree, names[1..], base, entry);
    }
  }

  lemma WalkPlain(hash: Hash, tree: Tree)
    requires WellFormed(tree) && HexDigests(hash)
    ensures forall entry | entry in Walk(hash, tree, ".") :: Plain(entry)
  {
    forall entry | entry in Walk(hash, tree, ".") ensures Plain(entry) {
      var path := WalkListsOnlyNodes(hash, tree, ".", entry);
      LookupPathValid(tree, path);
      RenderInjective(path, path);
    }
  }

  // ---------------------------------------------------------------- the digest determines the tree

  lemma {:induction false} SameNodesSameTree(left: Tree, right: Tree)
    requires forall path :: Lookup(left, path) == Lookup(right, path)
    ensures left == right
    decreases left
  {
    assert Lookup(left, []) == Lookup(right, []);
    if left.Dir? {
      forall name ensures name in left.children <==> name in right.children {
        assert Lookup(left, [name]) == Lookup(right, [name]);
      }
      forall name | name in left.children ensures left.children[name] == right.children[name] {
        forall path ensures Lookup(left.children[name], path) == Lookup(right.children[name], path) {
          assert Lookup(left, [name] + path) == Lookup(right, [name] + path);
        }
        SameNodesSameTree(left.children[name], right.children[name]);
      }
      assert left.children == right.children;
    }
  }

  /** A file content at some path of one tree collides with the content at the same path of the other. */
  ghost predicate ContentsCollide(hash: Hash, left: Tree, right: Tree, path: seq<string>) {
    Lookup(left, path).FileNode? && Lookup(right, path).FileNode? &&
    Collide(hash, Lookup(left, path).content, Lookup(right, path).content)
  }

  lemma NodeTransfers(hash: Hash, left: Tree, right: Tree, path: seq<string>)
    requires WellFormed(left) && WellFormed(right) && HexDigests(hash)
    requires Walk(hash, left, ".") == Walk(hash, right, ".")
    requires !Lookup(left, path).Missing?
    ensures Lookup(left, path) == Lookup(right, path) || ContentsCollide(hash, left, right, path)
  {
    WalkListsNode(hash, left, ".", path);
    var entry := NodeEntry(hash, Lookup(left, path), Render(".", path));
    var other := WalkListsOnlyNodes(hash, right, ".", entry);
    LookupPathValid(left, path);
    LookupPathValid(right, other);
    RenderInjective(path, other);
    assert |hash("")| == 64;
    if Lookup(left, path).FileNode? {
      assert |hash(Lookup(left, path).content)| == 64;
    }
    if Lookup(right, path).FileNode? {
      assert |hash(Lookup(right, path).content)| == 64;
    }
  }

  /** Equal manifest digests mean equal trees -- the same relative paths, kinds, permission bits
      and contents -- unless the two manifests, or two contents at one path, collide under the hash. */
  lemma DigestDeterminesTree(hash: Hash, left: Tree, right: Tree)
    requires WellFormed(left) && WellFormed(right) && HexDigests(hash)
    requires TreeDigest(hash, left) == TreeDigest(hash, right)
    ensures left == right
         || Collide(hash, Manifest(hash, left), Manifest(hash, right))
         || exists path :: ContentsCollide(hash, left, right, path)
  {
    if !Collide(hash, Manifest(hash, left), Manifest(hash, right))
       && forall path :: !ContentsCollide(hash, left, right, path)
    {
      WalkPlain(hash, left);
      WalkPlain(hash, right);
      ManifestDecodes(Walk(hash, left, "."), Walk(hash, right, "."));
      forall path ensures Lookup(left, path) == Lookup(right, path) {
        assert !ContentsCollide(hash, left, right, path);
        if !Lookup(left, path).Missing? {
          NodeTransfers(hash, left, right, path);
        } else if !Lookup(right, path).Missing? {
          NodeTransfers(hash, right, left, path);
        }
      }
      SameNodesSameTree(left, right);
    }
  }

  // ---------------------------------------------------------------- the two walks of the move engine

  ghost function TotalSize(entries: seq<Entry>): nat {
    if entries == [] then 0 else TotalSize(entries[..|entries| - 1]) + entries[|entries| - 1].size
  }

  lemma {:induction false} TotalSizeAppend(left: seq<Entry>, right: seq<Entry>)
    ensures TotalSize(left + right) == TotalSize(left) + TotalSize(right)
  {
    if right == [] {
      assert left + right == left;
    } else {
      var last := |right| - 1;
      assert (left + right)[..|left + right| - 1] == left + right[..last];
      TotalSizeAppend(left, right[..last]);
    }
  }

  const MAX_INT64: int := 0x7fff_ffff_ffff_ffff

  /** The accumulating walk of `scan`, which bounds the byte count, and of `digestTree`, which does not. */
  class TreeWalk {
    const hash: Hash
    const bounded: bool
    var entries: seq<Entry>
    var total: nat

    constructor (hash: Hash, bounded: bool)
      ensures this.hash == hash && this.bounded == bounded && entries == [] && total == 0
    {
      this.hash, this.bounded := hash, bounded;
      entries, total := [], 0;
    }

    ghost predicate Counted()
      reads this
    {
      total == TotalSize(entries) && (bounded ==> total <= MAX_INT64)
    }

    /** Visits one entry; false reports a byte count that does not fit 64 bits. */
    method Visit(tree: Tree, relative: string) returns (fits: bool)
      requires Counted()
      modifies this
      ensures fits ==> entries == old(entries) + Walk(hash, tree, relative)
      ensures fits ==> Counted()
      ensures !fits ==> bounded && MAX_INT64 < TotalSize(old(entries) + Walk(hash, tree, relative))
      decreases tree, 1
    {
      var entry := EntryOf(hash, tree, relative);
      EntryFirst(entries, entry, Below(hash, tree, relative));
      if bounded && MAX_INT64 - total < entry.size {
        return false;
      }
      total := total + entry.size;
      entries := entries + [entry];
      if tree.File? {
        return true;
      }
      fits := VisitChildren(tree, relative);
    }

    /** The loop over a directory's children in name order. */
    method VisitChildren(tree: Tree, relative: string) returns (fits: bool)
      requires tree.Dir? && Counted()
      modifies this
      ensures fits ==> entries == old(entries) + WalkChildren(hash, tree, Sorted(tree.children.Keys), relative)
      ensures fits ==> Counted()
      ensures !fits ==>
                bounded &&
                MAX_INT64 < TotalSize(old(entries) + WalkChildren(hash, tree, Sorted(tree.children.Keys), relative))
      decreases tree, 0
    {
      ghost var all := entries + WalkChildren(hash, tree, Sorted(tree.children.Keys), relative);
      var remaining := tree.children.Keys;
      while remaining != {}
        invariant remaining <= tree.children.Keys
        invariant Counted()
        invariant entries + WalkChildren(hash, tree, Sorted(remaining), relative) == all
        decreases remaining
      {
        var name := NextName(remaining);
        ghost var rest := LeastFirst(hash, tree, remaining, relative, entries, all);
        fits := Visit(tree.children[name], Child(relative, name));
        if !fits {
          return false;
        }
        remaining := remaining - {name};
      }
      return true;
    }

    /** The least remaining child: `ReadDir` followed by a sort by name. */
    method NextName(remaining: set<string>) returns (name: string)
      requires remaining != {}
      ensures name in remaining && name == Least(remaining)
    {
      LeastExists(remaining);
      name :| name in remaining && forall other | other in remaining :: other == name || Less(name, other);
      if name != Least(remaining) {
        LessAntisymmetric(name, Least(remaining));
      }
    }

  }

  lemma EntryFirst(before: seq<Entry>, entry: Entry, rest: seq<Entry>)
    ensures before + ([entry] + rest) == (before + [entry]) + rest
    ensures TotalSize(before + [entry]) == TotalSize(before) + entry.size
    ensures TotalSize(before + [entry]) <= TotalSize(before + ([entry] + rest))
  {
    assert (before + [entry])[..|before|] == before;
    TotalSizeAppend(before + [entry], rest);
  }

  /** The walk of the remaining children starts with the walk of the least one. */
  lemma LeastFirst(hash: Hash, tree: Tree, remaining: set<string>, relative: string, before: seq<Entry>,
                   all: seq<Entry>)
    returns (rest: seq<Entry>)
    requires tree.Dir? && {} < remaining <= tree.children.Keys
    requires before + WalkChildren(hash, tree, Sorted(remaining), relative) == all
    ensures rest == WalkChildren(hash, tree, Sorted(remaining - {Least(remaining)}), relative)
    ensures before + Walk(hash, tree.children[Least(remaining)], Child(relative, Least(remaining))) + rest == all
    ensures TotalSize(before + Walk(hash, tree.children[Least(remaining)], Child(relative, Least(remaining)))) <=
            TotalSize(all)
  {
    var least := Least(remaining);
    var below := Walk(hash, tree.children[least], Child(relative, least));
    rest := WalkChildren(hash, tree, Sorted(remaining - {least}), relative);
    assert Sorted(remaining)[0] == least && Sorted(remaining)[1..] == Sorted(remaining - {least});
    assert before + (below + rest) == (before + below) + rest;
    TotalSizeAppend(before + below, rest);
  }

  lemma {:induction false} LessAntisymmetric(a: string, b: string)
    ensures !(Less(a, b) && Less(b, a))
  {
    if a != "" && b != "" {
      LessAntisymmetric(a[1..], b[1..]);
    }
  }

  /** `scan`: manifest, byte count and digest, or a refusal exactly when the count overflows. */
  method Scan(hash: Hash, tree: Tree) returns (fits: bool, total: nat, digest: string)
    ensures fits <==> TotalSize(Walk(hash, tree, ".")) <= MAX_INT64
    ensures fits ==> total == TotalSize(Walk(hash, tree, ".")) && digest == TreeDigest(hash, tree)
  {
    var walk := new TreeWalk(hash, true);
    fits := walk.Visit(tree, ".");
    assert [] + Walk(hash, tree, ".") == Walk(hash, tree, ".");
    total, digest := walk.total, hash(EncodeManifest(walk.entries));
  }

  /** `digestTree`: the digest that `Scan` records for the same tree. */
  method DigestTree(hash: Hash, tree: Tree) returns (digest: string)
    ensures digest == TreeDigest(hash, tree)
  {
    var walk := new TreeWalk(hash, false);
    var _ := walk.Visit(tree, ".");
    assert [] + Walk(hash, tree, ".") == Walk(hash, tree, ".");
    digest := hash(EncodeManifest(walk.entries));
  }
}
