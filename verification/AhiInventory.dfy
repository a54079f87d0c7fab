/**
 * The inventory of a private AHI install: a work list of directories that collects every regular
 * file and refuses any tree holding something else.
 */
module AhiInventory {
  import opened Wrappers

  type Path = seq<string>

  datatype Node = Directory(entries: seq<Entry>) | Regular | Symlink | Special

  datatype Entry = Entry(name: string, node: Node)

  // ----- what the inventory means -----

  /** `node` stands at `path` below `root`. */
  ghost predicate At(root: Node, path: Path, node: Node)
    decreases path
  {
    if path == [] then root == node
    else root.Directory? && exists i :: 0 <= i < |root.entries| && root.entries[i].name == path[0]
                                        && At(root.entries[i].node, path[1..], node)
  }

  /** Everything below `root` is a directory or a regular file. */
  ghost predicate Clean(root: Node) {
    forall path, node :: At(root, path, node) ==> node.Directory? || node.Regular?
  }

  // ----- the same, collected -----

  function FilesIn(n: Node, k: nat, at: Path): set<Path>
    requires n.Directory? && k <= |n.entries|
    decreases n, k
  {
    if k == 0 then {} else FilesIn(n, k - 1, at) + Files(n.entries[k - 1].node, at + [n.entries[k - 1].name])
  }

  /** The regular files of a tree that stands at `at`. */
  function Files(n: Node, at: Path): set<Path>
    decreases n, if n.Directory? then |n.entries| + 1 else 0
  {
    if n.Directory? then FilesIn(n, |n.entries|, at) else if n.Regular? then {at} else {}
  }

  predicate TidyIn(n: Node, k: nat)
    requires n.Directory? && k <= |n.entries|
    decreases n, k
  {
    k == 0 || (TidyIn(n, k - 1) && Tidy(n.entries[k - 1].node))
  }

  predicate Tidy(n: Node)
    decreases n, if n.Directory? then |n.entries| + 1 else 0
  {
    if n.Directory? then TidyIn(n, |n.entries|) else n.Regular?
  }

  function SizeIn(n: Node, k: nat): nat
    requires n.Directory? && k <= |n.entries|
    decreases n, k
  {
    if k == 0 then 0 else SizeIn(n, k - 1) + Size(n.entries[k - 1].node)
  }

  function Size(n: Node): (s: nat)
    decreases n, if n.Directory? then |n.entries| + 1 else 0
  {
    1 + if n.Directory? then SizeIn(n, |n.entries|) else 0
  }

  lemma {:induction false} FilesInMeans(n: Node, k: nat, at: Path, p: Path)
    requires n.Directory? && k <= |n.entries|
    ensures p in FilesIn(n, k, at) <==>
      exists i :: 0 <= i < k && p in Files(n.entries[i].node, at + [n.entries[i].name])
    decreases k
  {
    if k > 0 { FilesInMeans(n, k - 1, at, p); }
  }

  /** The collected set is exactly the set of paths at which a regular file stands. */
  lemma {:induction false} FilesMean(n: Node, at: Path, rest: Path)
    ensures at + rest in Files(n, at) <==> At(n, rest, Regular)
    decreases rest
  {
    match n
    case Directory(entries) =>
      FilesInMeans(n, |entries|, at, at + rest);
      if rest == [] {
        forall i | 0 <= i < |entries| ensures at !in Files(entries[i].node, at + [entries[i].name]) {
          FilesAreBelow(entries[i].node, at + [entries[i].name], at);
        }
        assert at + rest == at;
      } else {
        forall i | 0 <= i < |entries|
          ensures at + rest in Files(entries[i].node, at + [entries[i].name]) <==>
            entries[i].name == rest[0] && At(entries[i].node, rest[1..], Regular)
        {
          EntryMeans(entries[i], at, rest);
        }
      }
    case _ =>
      assert at + rest == at <==> rest == [];
  }

  lemma {:induction false} EntryMeans(e: Entry, at: Path, rest: Path)
    requires rest != []
    ensures at + rest in Files(e.node, at + [e.name]) <==> e.name == rest[0] && At(e.node, rest[1..], Regular)
    decreases rest, 0
  {
    if e.name == rest[0] {
      assert at + rest == at + [e.name] + rest[1..];
      FilesMean(e.node, at + [e.name], rest[1..]);
    } else {
      FilesAreBelow(e.node, at + [e.name], at + rest);
      assert (at + rest)[|at|] == rest[0];
    }
  }

  /** Every collected path begins with the place of the tree. */
  lemma {:induction false} FilesAreBelow(n: Node, at: Path, p: Path)
    ensures p in Files(n, at) ==> at <= p
    decreases n
  {
    if n.Directory? {
      FilesInMeans(n, |n.entries|, at, p);
      forall i | 0 <= i < |n.entries| && p in Files(n.entries[i].node, at + [n.entries[i].name]) ensures at <= p {
        FilesAreBelow(n.entries[i].node, at + [n.entries[i].name], p);
      }
    }
  }

  lemma {:induction false} TidyInMeans(n: Node, k: nat)
    requires n.Directory? && k <= |n.entries|
    ensures TidyIn(n, k) <==> forall i :: 0 <= i < k ==> Tidy(n.entries[i].node)
    decreases k
  {
    if k > 0 { TidyInMeans(n, k - 1); }
  }

  lemma {:induction false} TidyReaches(n: Node, path: Path, node: Node)
    requires Tidy(n) && At(n, path, node)
    ensures node.Directory? || node.Regular?
    decreases path
  {
    if path != [] {
      TidyInMeans(n, |n.entries|);
      var i :| 0 <= i < |n.entries| && n.entries[i].name == path[0] && At(n.entries[i].node, path[1..], node);
      TidyReaches(n.entries[i].node, path[1..], node);
    }
  }

  lemma {:induction false} UntidyHasWitness(n: Node) returns (path: Path, node: Node)
    requires !Tidy(n)
    ensures At(n, path, node) && !node.Directory? && !node.Regular?
    decreases n
  {
    if n.Directory? {
      TidyInMeans(n, |n.entries|);
      var i :| 0 <= i < |n.entries| && !Tidy(n.entries[i].node);
      var rest;
      rest, node := UntidyHasWitness(n.entries[i].node);
      path := [n.entries[i].name] + rest;
      assert path[1..] == rest;
    } else {
      path, node := [], n;
    }
  }

  lemma TidyIsClean(n: Node)
    ensures Tidy(n) <==> Clean(n)
  {
    if Tidy(n) {
      forall path, node | At(n, path, node) ensures node.Directory? || node.Regular? { TidyReaches(n, path, node); }
    } else {
      var path, node := UntidyHasWitness(n);
    }
  }

  // ----- the work list -----

  datatype Pending = Pending(at: Path, directory: Node)

  ghost function PendingFiles(work: seq<Pending>): set<Path> {
    if work == [] then {}
    else PendingFiles(work[..|work| - 1]) + Files(work[|work| - 1].directory, work[|work| - 1].at)
  }

  ghost predicate PendingTidy(work: seq<Pending>) {
    work == [] || (PendingTidy(work[..|work| - 1]) && Tidy(work[|work| - 1].directory))
  }

  ghost function PendingSize(work: seq<Pending>): nat {
    if work == [] then 0 else PendingSize(work[..|work| - 1]) + Size(work[|work| - 1].directory)
  }

  ghost predicate AllDirectories(work: seq<Pending>) { forall w :: w in work ==> w.directory.Directory? }

  lemma Pushed(work: seq<Pending>, w: Pending)
    ensures PendingFiles(work + [w]) == PendingFiles(work) + Files(w.directory, w.at)
    ensures PendingTidy(work + [w]) <==> PendingTidy(work) && Tidy(w.directory)
    ensures PendingSize(work + [w]) == PendingSize(work) + Size(w.directory)
  {
    assert (work + [w])[..|work|] == work;
  }

  lemma {:induction false} UntidyEntry(n: Node, k: nat, i: nat)
    requires n.Directory? && i < k <= |n.entries| && !Tidy(n.entries[i].node)
    ensures !TidyIn(n, k)
    decreases k
  {
    if i < k - 1 { UntidyEntry(n, k - 1, i); }
  }

  /** One directory: its files are collected, its sub-directories are pushed. */
  method Enumerate(d: Pending, before: seq<Pending>, found: set<Path>) returns (ok: bool, work: seq<Pending>, files: set<Path>)
    requires d.directory.Directory? && AllDirectories(before)
    ensures !ok ==> !Tidy(d.directory)
    ensures ok ==> AllDirectories(work)
    ensures ok ==> files + PendingFiles(work) == found + PendingFiles(before) + Files(d.directory, d.at)
    ensures ok ==> (PendingTidy(work) <==> PendingTidy(before) && Tidy(d.directory))
    ensures ok ==> PendingSize(work) < PendingSize(before) + Size(d.directory)
  {
    var n := d.directory;
    ok, work, files := true, before, found;
    for i := 0 to |n.entries|
      invariant AllDirectories(work)
      invariant files + PendingFiles(work) == found + PendingFiles(before) + FilesIn(n, i, d.at)
      invariant PendingTidy(work) <==> PendingTidy(before) && TidyIn(n, i)
      invariant PendingSize(work) <= PendingSize(before) + SizeIn(n, i)
    {
      var e := n.entries[i];
      var path := d.at + [e.name];
      match e.node
      case Directory(_) =>
        Pushed(work, Pending(path, e.node));
        work := work + [Pending(path, e.node)];
      case Regular =>
        files := files + {path};
      case _ =>
        UntidyEntry(n, |n.entries|, i);
        return false, work, files;
    }
  }

  /** `inventory_regular_files`. */
  method Inventory(root: Node) returns (r: Option<set<Path>>)
    ensures r.Some? <==> root.Directory? && Clean(root)
    ensures r.Some? ==> forall p :: p in r.value <==> At(root, p, Regular)
  {
    if !root.Directory? { return None; }
    TidyIsClean(root);
    var work: seq<Pending>, files: set<Path> := [Pending([], root)], {};
    Pushed([], work[0]);
    assert [] + [work[0]] == work;
    while work != []
      invariant AllDirectories(work)
      invariant files + PendingFiles(work) == Files(root, [])
      invariant PendingTidy(work) <==> Tidy(root)
      decreases PendingSize(work)
    {
      var d, rest := work[|work| - 1], work[..|work| - 1];
      var ok, next, found := Enumerate(d, rest, files);
      if !ok { return None; }
      work, files := next, found;
    }
    forall p ensures p in files <==> At(root, p, Regular) {
      FilesMean(root, [], p);
      assert [] + p == p;
    }
    r := Some(files);
  }
}
