/** The file tree of an archive: every path a node, every node in its parent's list once. */
module RarFs {
  import opened Machine

  /** A path as its elements; the root has none. */
  type Path = seq<string>

  /** A file of the archive: its path, its version, whether it is a directory, and which it is. */
  datatype Entry = Entry(path: Path, version: int, directory: bool, id: nat)

  class Node {
    var blocks: Option<Entry>
    var files: seq<Node>
    // The last elements of the children's paths.
    ghost var names: seq<string>

    constructor (blocks: Option<Entry>, files: seq<Node>, ghost names: seq<string>)
      ensures this.blocks == blocks && this.files == files && this.names == names
    {
      this.blocks, this.files := blocks, files;
      this.names := names;
    }
  }

  function Parent(p: Path): Path
    requires p != []
  {
    p[..|p| - 1]
  }

  function Name(p: Path): string
    requires p != []
  {
    p[|p| - 1]
  }

  lemma PathParts(p: Path)
    requires p != []
    ensures p == Parent(p) + [Name(p)]
  {}

  lemma ChildParts(p: Path, name: string)
    ensures p + [name] != [] && Parent(p + [name]) == p && Name(p + [name]) == name
  {}

  ghost predicate DistinctNames(names: seq<string>) {
    forall i, j :: 0 <= i < j < |names| ==> names[i] != names[j]
  }

  /** The nodes are different objects. */
  ghost predicate Separate(ftree: map<Path, Node>) {
    forall p, q :: p in ftree && q in ftree && ftree[p] == ftree[q] ==> p == q
  }

  /** A node lists its children, by name, in order. */
  ghost predicate Lists(ftree: map<Path, Node>, p: Path)
    requires p in ftree
    reads ftree[p]
  {
    && |ftree[p].files| == |ftree[p].names| && DistinctNames(ftree[p].names)
    && forall i :: 0 <= i < |ftree[p].names| ==>
      p + [ftree[p].names[i]] in ftree && ftree[p + [ftree[p].names[i]]] == ftree[p].files[i]
  }

  ghost function Nodes(ftree: map<Path, Node>): set<Node> { ftree.Values }

  /** A path's parent is there and lists it. */
  ghost predicate Listed(ftree: map<Path, Node>, p: Path)
    requires p in ftree
    reads Nodes(ftree)
  {
    p != [] ==> Parent(p) in ftree && Name(p) in ftree[Parent(p)].names
  }

  /** A tree in which only the paths in `pending` may not be listed yet. */
  ghost predicate TreeBut(ftree: map<Path, Node>, pending: set<Path>)
    reads Nodes(ftree)
  {
    && Separate(ftree)
    && (forall p :: p in ftree ==> Lists(ftree, p))
    && forall p :: p in ftree && p !in pending ==> Listed(ftree, p)
  }

  ghost predicate Tree(ftree: map<Path, Node>)
    reads Nodes(ftree)
  {
    TreeBut(ftree, {})
  }

  /** In a tree, every node but the root appears in its parent's list, at one place, and in no other list. */
  lemma AppearsOnce(ftree: map<Path, Node>, q: Path)
    requires Tree(ftree) && q in ftree && q != []
    ensures Parent(q) in ftree
    ensures exists i :: 0 <= i < |ftree[Parent(q)].files| && ftree[Parent(q)].files[i] == ftree[q]
    ensures forall p, i :: p in ftree && 0 <= i < |ftree[p].files| && ftree[p].files[i] == ftree[q] ==>
      p == Parent(q) && i < |ftree[p].names| && ftree[p].names[i] == Name(q)
    ensures forall i, j :: 0 <= i < j < |ftree[Parent(q)].files| ==>
      !(ftree[Parent(q)].files[i] == ftree[q] && ftree[Parent(q)].files[j] == ftree[q])
  {
    PathParts(q);
    assert Listed(ftree, q);
    var parent := ftree[Parent(q)];
    assert Lists(ftree, Parent(q));
    var k :| 0 <= k < |parent.names| && parent.names[k] == Name(q);
    assert parent.files[k] == ftree[q];
    forall p, i | p in ftree && 0 <= i < |ftree[p].files| && ftree[p].files[i] == ftree[q]
      ensures p == Parent(q) && i < |ftree[p].names| && ftree[p].names[i] == Name(q)
    {
      assert Lists(ftree, p);
      var child := p + [ftree[p].names[i]];
      ChildParts(p, ftree[p].names[i]);
      assert ftree[child] == ftree[q];
    }
  }

  /** All parents, up to the root, are in the tree. */
  lemma {:induction false} ClosedUp(ftree: map<Path, Node>, q: Path, n: nat)
    requires Tree(ftree) && q in ftree && n <= |q|
    ensures q[..n] in ftree
    decreases |q|
  {
    if n < |q| {
      assert Listed(ftree, q);
      ClosedUp(ftree, Parent(q), n);
      assert Parent(q)[..n] == q[..n];
    } else {
      assert q[..n] == q;
    }
  }

  /** One more entry: kept for its path when nothing is, or something of a lower version. */
  function Newer(before: Option<Entry>, p: Path, e: Entry): Option<Entry> {
    if e.path == p && (before == None || before.value.version < e.version) then Some(e) else before
  }

  /** The entry kept for a path: the first of the highest version. */
  function Kept(entries: seq<Entry>, p: Path): (r: Option<Entry>)
  {
    if entries == [] then None
    else
      Newer(Kept(entries[..|entries| - 1], p), p, entries[|entries| - 1])
  }

  /** Entry i is for the path, later ones for it are not of a higher version, and earlier ones are of a lower. */
  ghost predicate FirstHighest(entries: seq<Entry>, p: Path, i: nat) {
    && i < |entries| && entries[i].path == p
    && forall j :: 0 <= j < |entries| && entries[j].path == p ==>
         if j < i then entries[j].version < entries[i].version else entries[j].version <= entries[i].version
  }

  lemma {:induction false} KeptIsFirstHighest(entries: seq<Entry>, p: Path) returns (i: nat)
    ensures Kept(entries, p) == None ==> forall j :: 0 <= j < |entries| ==> entries[j].path != p
    ensures Kept(entries, p).Some? ==> FirstHighest(entries, p, i) && Kept(entries, p).value == entries[i]
  {
    i := 0;
    if entries != [] {
      var n := |entries| - 1;
      i := KeptIsFirstHighest(entries[..n], p);
      if Kept(entries, p) == Some(entries[n])
        && (Kept(entries[..n], p) == None || Kept(entries[..n], p).value.version < entries[n].version) {
        i := n;
      }
    }
  }

  /** A path that is not in the tree is in no list. */
  lemma NotListed(ftree: map<Path, Node>, pending: set<Path>, p: Path)
    requires TreeBut(ftree, pending) && p != [] && p !in ftree && Parent(p) in ftree
    ensures Name(p) !in ftree[Parent(p)].names
  {
    PathParts(p);
    assert Lists(ftree, Parent(p));
  }

  /** List a node in its parent, which is in the tree. */
  method AddChild(ghost ftree: map<Path, Node>, ghost child: Path, prev: Node, node: Node)
    requires child in ftree && prev == ftree[child] && child != [] && Parent(child) in ftree
      && node == ftree[Parent(child)]
    requires TreeBut(ftree, {child}) && Name(child) !in ftree[Parent(child)].names
    modifies node`files, node`names
    ensures Tree(ftree)
  {
    PathParts(child);
    node.files := node.files + [prev];
    node.names := node.names + [Name(child)];
    forall p | p in ftree ensures Lists(ftree, p) {
      assert old(Lists(ftree, p));
    }
    forall p | p in ftree ensures Listed(ftree, p) {
      assert p == child || old(Listed(ftree, p));
    }
  }

  /** The root need not be listed. */
  lemma AddedTree(ftree: map<Path, Node>, p: Path)
    requires TreeBut(ftree, {p}) && p in ftree
    ensures p == [] ==> Tree(ftree)
  {}

  /** A directory with one child. */
  method MakeParent(ftree: map<Path, Node>, ghost child: Path, prev: Node, fname: Path)
    returns (r: map<Path, Node>, node: Node)
    requires child in ftree && prev == ftree[child] && child != [] && fname == Parent(child) && fname !in ftree
    requires TreeBut(ftree, {child})
    ensures fresh(node) && node.blocks == None && r == ftree[fname := node] && TreeBut(r, {fname})
    ensures fname != [] && Parent(fname) in r ==> Name(fname) !in r[Parent(fname)].names
  {
    PathParts(child);
    if fname != [] && Parent(fname) in ftree {
      NotListed(ftree, {child}, fname);
    }
    node := new Node(None, [prev], [Name(child)]);
    r := ftree[fname := node];
    forall p | p in r ensures Lists(r, p) {
      assert p == fname || Lists(ftree, p);
    }
    forall p | p in r && p != fname ensures Listed(r, p) {
      assert p == child || Listed(ftree, p);
    }
  }

  /** List a new node in its parent, making parents as far up as there are none. */
  method AddParents(ftree: map<Path, Node>, p: Path) returns (r: map<Path, Node>)
    requires p in ftree && TreeBut(ftree, {p})
    requires p != [] && Parent(p) in ftree ==> Name(p) !in ftree[Parent(p)].names
    modifies ftree.Values
    ensures Tree(r) && forall q :: q in r && q !in ftree ==> fresh(r[q]) && r[q].blocks == None && q <= p
    ensures forall q :: q in ftree ==> q in r && r[q] == ftree[q] && r[q].blocks == old(ftree[q].blocks)
  {
    hide TreeBut;
    AddedTree(ftree, p);
    r := ftree;
    var fname, prev := p, ftree[p];
    while fname != []
      invariant fname in r && prev == r[fname] && TreeBut(r, {fname})
      invariant fname != [] && Parent(fname) in r ==> Name(fname) !in r[Parent(fname)].names
      invariant fname <= p && forall q :: q in r && q !in ftree ==> fresh(r[q]) && r[q].blocks == None && q <= p
      invariant forall q :: q in ftree ==> q in r && r[q] == ftree[q] && r[q].blocks == old(ftree[q].blocks)
      invariant fname == [] ==> Tree(r)
      decreases |fname|
    {
      ghost var child := fname;
      PathParts(child);
      fname := Parent(fname);
      if fname in r {
        AddChild(r, child, prev, r[fname]);
        return;
      }
      r, prev := MakeParent(r, child, prev, fname);
      AddedTree(r, fname);
    }
  }

  /** The nodes hold the entries kept so far. */
  ghost predicate Holds(ftree: map<Path, Node>, entries: seq<Entry>)
    reads Nodes(ftree)
  {
    && (forall p :: p in ftree ==> ftree[p].blocks == Kept(entries, p))
    && (forall i :: 0 <= i < |entries| ==> entries[i].path in ftree)
    && forall p :: p in ftree ==> Wanted(entries, p)
  }

  /** A file lies at or below the path. */
  ghost predicate Wanted(entries: seq<Entry>, p: Path) {
    exists i :: 0 <= i < |entries| && p <= entries[i].path
  }

  /** Build the tree of an archive's files. */
  method OpenFS(entries: seq<Entry>) returns (ftree: map<Path, Node>)
    ensures Tree(ftree) && Holds(ftree, entries) && forall p :: p in ftree ==> fresh(ftree[p])
  {
    hide Holds;
    hide TreeBut;
    ftree := map[];
    EmptyTree();
    for k := 0 to |entries|
      invariant Tree(ftree) && Holds(ftree, entries[..k]) && forall p :: p in ftree ==> fresh(ftree[p])
    {
      ftree := AddEntry(ftree, entries[k], entries[..k]);
      assert entries[..k] + [entries[k]] == entries[..k + 1];
    }
    assert entries[..|entries|] == entries;
  }

  lemma EmptyTree()
    ensures Tree(map[]) && Holds(map[], [])
  {}

  lemma KeptNext(entries: seq<Entry>, e: Entry, p: Path)
    ensures Kept(entries + [e], p) == Newer(Kept(entries, p), p, e)
  {
    assert (entries + [e])[..|entries|] == entries;
  }

  /** The kept entries after one more. */
  lemma KeptAll(ftree: map<Path, Node>, entries: seq<Entry>, e: Entry)
    requires Holds(ftree, entries)
    ensures forall p :: p in ftree ==> Kept(entries + [e], p) == Newer(ftree[p].blocks, p, e)
    ensures forall p: Path :: p !in ftree ==> Kept(entries + [e], p) == if p == e.path then Some(e) else None
  {
    forall p: Path ensures Kept(entries + [e], p) == Newer(Kept(entries, p), p, e) {
      KeptNext(entries, e, p);
    }
    forall p: Path | p !in ftree ensures Kept(entries, p) == None {
      NoneKept(entries, p);
    }
  }

  /** Add one file: replace an older version, or add a node. */
  method AddEntry(ftree: map<Path, Node>, e: Entry, ghost entries: seq<Entry>) returns (r: map<Path, Node>)
    requires Tree(ftree) && Holds(ftree, entries)
    modifies ftree.Values
    ensures Tree(r) && Holds(r, entries + [e])
    ensures forall p :: p in r ==> (p in ftree && r[p] == ftree[p]) || fresh(r[p])
  {
    hide Kept;
    hide Newer;
    hide Tree;
    hide TreeBut;
    hide Holds;
    hide Wanted;
    if e.path in ftree {
      Update(ftree, e, ftree[e.path], entries);
      return ftree;
    }
    KeptAll(ftree, entries, e);
    HoldsPaths(ftree, entries, e);
    var node;
    r, node := AddNode(ftree, e);
    r := AddParents(r, e.path);
    forall p | p in r ensures r[p].blocks == Kept(entries + [e], p) {
      if p in ftree {
        NotNewer(old(ftree[p].blocks), p, e);
      }
    }
    HoldsMade(r, entries, e);
  }

  lemma NotNewer(before: Option<Entry>, p: Path, e: Entry)
    requires e.path != p
    ensures Newer(before, p, e) == before
  {}

  lemma HoldsPaths(ftree: map<Path, Node>, entries: seq<Entry>, e: Entry)
    requires Holds(ftree, entries)
    ensures forall i :: 0 <= i < |entries| ==> entries[i].path in ftree
    ensures (forall p :: p in ftree ==> Wanted(entries + [e], p)) && forall p: Path :: p <= e.path ==>
      Wanted(entries + [e], p)
  {
    forall p | p in ftree ensures Wanted(entries + [e], p) {
      assert Wanted(entries, p);
      var i :| 0 <= i < |entries| && p <= entries[i].path;
      assert (entries + [e])[i] == entries[i];
    }
    forall p: Path | p <= e.path ensures Wanted(entries + [e], p) {
      assert (entries + [e])[|entries|] == e;
    }
  }

  lemma HoldsMade(ftree: map<Path, Node>, entries: seq<Entry>, e: Entry)
    requires (forall p :: p in ftree ==> ftree[p].blocks == Kept(entries + [e], p)) && e.path in ftree
    requires (forall i :: 0 <= i < |entries| ==> entries[i].path in ftree) && forall p :: p in ftree ==>
      Wanted(entries + [e], p)
    ensures Holds(ftree, entries + [e])
  {
    hide Wanted;
    hide Kept;
  }

  /** Keep the newer of two versions. */
  method Update(ghost ftree: map<Path, Node>, e: Entry, node: Node, ghost entries: seq<Entry>)
    requires Tree(ftree) && e.path in ftree && node == ftree[e.path] && Holds(ftree, entries)
    modifies node`blocks
    ensures Tree(ftree) && Holds(ftree, entries + [e])
  {
    hide Kept;
    hide Tree;
    hide Wanted;
    KeptAll(ftree, entries, e);
    HoldsPaths(ftree, entries, e);
    assert Separate(ftree) by { TreeSeparate(ftree); }
    if node.blocks == None || node.blocks.value.version < e.version {
      Replace(ftree, e, node);
    }
  }

  lemma TreeSeparate(ftree: map<Path, Node>)
    requires Tree(ftree)
    ensures Separate(ftree)
  {}

  /** Put a newer version in a node. */
  method Replace(ghost ftree: map<Path, Node>, e: Entry, node: Node)
    requires Tree(ftree) && e.path in ftree && node == ftree[e.path]
    modifies node`blocks
    ensures Tree(ftree) && node.blocks == Some(e)
    ensures forall p :: p in ftree && p != e.path ==> ftree[p].blocks == old(ftree[p].blocks)
  {
    node.blocks := Some(e);
  }

  method AddNode(ftree: map<Path, Node>, e: Entry) returns (r: map<Path, Node>, node: Node)
    requires Tree(ftree) && e.path !in ftree
    ensures fresh(node) && node.blocks == Some(e) && r == ftree[e.path := node] && TreeBut(r, {e.path})
    ensures e.path != [] && Parent(e.path) in r ==> Name(e.path) !in r[Parent(e.path)].names
  {
    if e.path != [] && Parent(e.path) in ftree {
      NotListed(ftree, {}, e.path);
    }
    node := new Node(Some(e), [], []);
    r := ftree[e.path := node];
    forall p | p in r ensures Lists(r, p) {
      assert p == e.path || Lists(ftree, p);
    }
    forall p | p in r && p != e.path ensures Listed(r, p) {
      assert Listed(ftree, p);
    }
  }

  lemma {:induction false} NoneKept(entries: seq<Entry>, p: Path)
    requires forall i :: 0 <= i < |entries| ==> entries[i].path != p
    ensures Kept(entries, p) == None
  {
    if entries != [] {
      NoneKept(entries[..|entries| - 1], p);
    }
  }

  datatype SubResult = SubTree(ftree: map<Path, Node>) | NotExist | NotDirectory

  method IsDir(node: Node) returns (d: bool)
    ensures d <==> node.blocks == None || node.blocks.value.directory
  {
    d := node.blocks == None || node.blocks.value.directory;
  }

  /** The paths below a directory, with a new root. */
  method Below(ftree: map<Path, Node>, dir: Path, root: Node) returns (sub: map<Path, Node>)
    ensures [] in sub && sub[[]] == root
    ensures forall k: Path :: k != [] ==> (k in sub <==> dir + k in ftree) && (k in sub ==> sub[k] == ftree[dir + k])
  {
    sub := map[[] := root];
    var keys := ftree.Keys;
    while keys != {}
      invariant keys <= ftree.Keys && [] in sub && sub[[]] == root
      invariant forall k: Path :: k in sub && k != [] ==> dir + k in ftree && sub[k] == ftree[dir + k]
      invariant forall k: Path :: k != [] && dir + k in ftree && dir + k !in keys ==> k in sub
      decreases |keys|
    {
      var k :| k in keys;
      keys := keys - {k};
      if dir < k {
        assert dir + k[|dir|..] == k;
        sub := sub[k[|dir|..] := ftree[k]];
      }
    }
  }

  /** The tree below a directory. */
  method Sub(ftree: map<Path, Node>, dir: Path) returns (r: SubResult)
    requires Tree(ftree)
    ensures dir == [] ==> r == SubTree(ftree)
    ensures dir != [] ==> (r.NotExist? <==> dir !in ftree)
    ensures dir != [] && dir in ftree ==>
      (r.NotDirectory? <==> ftree[dir].blocks.Some? && !ftree[dir].blocks.value.directory)
    ensures r.SubTree? ==> Tree(r.ftree)
    ensures r.SubTree? && dir != [] ==> [] in r.ftree && r.ftree[[]].files == ftree[dir].files
    ensures r.SubTree? ==> forall k: Path :: k != [] ==>
      (k in r.ftree <==> dir + k in ftree) && (k in r.ftree ==> r.ftree[k] == ftree[dir + k])
  {
    if dir == [] {
      forall k: Path ensures dir + k == k {}
      return SubTree(ftree);
    }
    if dir !in ftree {
      return NotExist;
    }
    var node := ftree[dir];
    var d := IsDir(node);
    if !d {
      return NotDirectory;
    }
    var root := new Node(None, node.files, node.names);
    var sub := Below(ftree, dir, root);
    SubIsTree(ftree, dir, sub);
    r := SubTree(sub);
  }

  /** What lies below a directory is a tree. */
  ghost predicate SubOf(ftree: map<Path, Node>, dir: Path, sub: map<Path, Node>)
    reads Nodes(ftree), Nodes(sub)
  {
    && dir in ftree && [] in sub && sub[[]].files == ftree[dir].files && sub[[]].names == ftree[dir].names
    && forall k: Path :: k != [] ==> (k in sub <==> dir + k in ftree) && (k in sub ==> sub[k] == ftree[dir + k])
  }

  lemma SubLists(ftree: map<Path, Node>, dir: Path, sub: map<Path, Node>, p: Path)
    requires SubOf(ftree, dir, sub) && p in sub && dir + p in ftree && Lists(ftree, dir + p)
    ensures Lists(sub, p)
  {
    assert dir + [] == dir;
    forall i | 0 <= i < |sub[p].names|
      ensures p + [sub[p].names[i]] in sub && sub[p + [sub[p].names[i]]] == sub[p].files[i] {
      assert dir + (p + [sub[p].names[i]]) == dir + p + [sub[p].names[i]];
    }
  }

  lemma SubListed(ftree: map<Path, Node>, dir: Path, sub: map<Path, Node>, p: Path)
    requires SubOf(ftree, dir, sub) && p in sub && dir + p in ftree && Listed(ftree, dir + p)
    ensures Listed(sub, p)
  {
    if p != [] {
      assert Parent(dir + p) == dir + Parent(p) && Name(dir + p) == Name(p);
      assert dir + [] == dir;
    }
  }

  lemma SubIsTree(ftree: map<Path, Node>, dir: Path, sub: map<Path, Node>)
    requires Tree(ftree) && SubOf(ftree, dir, sub) && sub[[]] !in ftree.Values
    ensures Tree(sub)
  {
    hide Lists;
    hide Listed;
    forall p, q | p in sub && q in sub && sub[p] == sub[q] ensures p == q {
      if p != [] && q != [] {
        assert ftree[dir + p] == ftree[dir + q];
        assert (dir + p)[|dir|..] == p && (dir + q)[|dir|..] == q;
      }
    }
    forall p | p in sub ensures Lists(sub, p) {
      assert dir + [] == dir;
      SubLists(ftree, dir, sub, p);
    }
    forall p | p in sub ensures Listed(sub, p) {
      assert dir + [] == dir;
      SubListed(ftree, dir, sub, p);
    }
  }
}
