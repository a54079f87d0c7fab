/**
 * The topology checks of the SD scanners: an accepted `lsblk` tree and an accepted `diskutil`
 * listing describe one whole disk with its complete, duplicate-free, unmounted descendants.
 */
module DiskTopology {
  import opened Wrappers
  import opened DiskNames

  /** One field of a decoded inventory object. */
  datatype Field = Absent | Null | Text(text: string) | Other

  predicate IsSpace(c: char) {
    || '\t' <= c <= '\r' || c == ' ' || c == '\U{85}' || c == '\U{A0}' || c == '\U{1680}'
    || '\U{2000}' <= c <= '\U{200A}' || c == '\U{2028}' || c == '\U{2029}' || c == '\U{202F}'
    || c == '\U{205F}' || c == '\U{3000}'
  }

  predicate IsControl(c: char) { c <= '\U{1F}' || '\U{7F}' <= c <= '\U{9F}' }

  predicate SafeMetadata(s: string) {
    s != [] && !IsSpace(s[0]) && !IsSpace(s[|s| - 1]) && forall i :: 0 <= i < |s| ==> !IsControl(s[i])
  }

  predicate Blank(s: string) { forall i :: 0 <= i < |s| ==> IsSpace(s[i]) }

  /** `json_nonempty_string`. */
  function TextOf(f: Field): Option<string> {
    if f.Text? && SafeMetadata(f.text) then Some(f.text) else None
  }

  datatype Mounts = NoMounts | NullMounts | OneMount(text: string) | ListOfMounts(items: seq<Field>) | OtherMounts

  datatype Children = NoChildren | NullChildren | ListOfChildren(nodes: seq<Node>) | OtherChildren

  datatype Node =
    | NotAnObject
    | Node(kind: Field, path: Field, name: Field, kname: Field, pkname: Field, mounts: Mounts, children: Children)

  /** `linux_kernel_name` applied to a text field. */
  function KernelName(f: Field): Option<string> {
    var t := TextOf(f);
    if t.None? then None
    else
      var name := if "/dev/" <= t.value then t.value[5..] else t.value;
      if name != [] && AllAlphanumeric(name) then Some(name) else None
  }

  /** `linux_mountpoints_are_empty` on a present field. */
  predicate MountsEmpty(m: Mounts) {
    match m
    case NullMounts => true
    case OneMount(t) => Blank(t)
    case ListOfMounts(items) =>
      forall i :: 0 <= i < |items| ==> items[i].Null? || (items[i].Text? && Blank(items[i].text))
    case _ => false
  }

  datatype Verdict = Malformed | No | Yes

  /** What one accepted node says about itself: kind, consistent names, nothing mounted. */
  ghost predicate Plain(n: Node, kind: string, kernel: string) {
    && n.Node?
    && TextOf(n.kind) == Some(kind)
    && TextOf(n.path) == Some("/dev/" + kernel) == TextOf(n.name)
    && KernelName(n.kname) == Some(kernel)
    && MountsEmpty(n.mounts)
  }

  function Kernel(n: Node): string {
    if n.Node? && KernelName(n.kname).Some? then KernelName(n.kname).value else ""
  }

  ghost predicate Childless(c: Children) {
    c.NoChildren? || c.NullChildren? || (c.ListOfChildren? && c.nodes == [])
  }

  ghost predicate DirectPartition(n: Node, root: string, family: Family) {
    && Plain(n, "part", Kernel(n))
    && KernelName(n.pkname) == Some(root)
    && IsPartitionName(root, family, Kernel(n))
    && Childless(n.children)
  }

  ghost function PartitionOf(root: string, family: Family): Node -> bool {
    n => DirectPartition(n, root, family)
  }

  /** The declared meaning of a safe tree: an unmounted disk with distinct, direct, unmounted partitions. */
  ghost predicate SafeTree(n: Node, root: string, family: Family) {
    && Plain(n, "disk", root)
    && n.pkname.Null?
    && !n.children.OtherChildren?
    && (n.children.ListOfChildren? ==> GoodPartitions(n.children.nodes, root, family))
  }

  ghost predicate OwnRecord(n: Node, parent: Option<string>, root: string, family: Family) {
    match parent
    case None => Plain(n, "disk", root) && n.pkname.Null?
    case Some(p) =>
      && p == root && Plain(n, "part", Kernel(n))
      && KernelName(n.pkname) == Some(root) && IsPartitionName(root, family, Kernel(n))
  }

  /** The checks of `linux_node_is_complete_and_unmounted` before it looks at the children. */
  function CheckOwnRecord(n: Node, parent: Option<string>, root: string, family: Family, seen: set<string>): (v: Verdict)
    ensures v.Yes? <==> OwnRecord(n, parent, root, family) && Kernel(n) !in seen
  {
    if n.NotAnObject? || TextOf(n.kind).None? then Malformed
    else if TextOf(n.kind).value != (if parent.None? then "disk" else "part") then No
    else if TextOf(n.path).None? || TextOf(n.name).None? then Malformed
    else if TextOf(n.name).value != TextOf(n.path).value then No
    else if KernelName(n.kname).None? then Malformed
    else
      var kname := KernelName(n.kname).value;
      if TextOf(n.path).value != "/dev/" + kname || kname in seen then No
      else if parent.None? && (kname != root || !n.pkname.Null?) then No
      else if parent.Some? && parent.value != root then No
      else if parent.Some? && KernelName(n.pkname).None? then Malformed
      else if parent.Some? && (KernelName(n.pkname).value != parent.value || !IsPartitionName(root, family, kname)) then No
      else if n.mounts.NoMounts? then Malformed
      else if !MountsEmpty(n.mounts) then No
      else Yes
  }

  ghost function Keys<N>(items: seq<N>, key: N -> string): set<string> {
    if items == [] then {} else Keys(items[..|items| - 1], key) + {key(items[|items| - 1])}
  }

  /** Every item is acceptable and no two share a key. */
  ghost predicate Good<N>(items: seq<N>, ok: N -> bool, key: N -> string) {
    items == [] ||
    var rest, last := items[..|items| - 1], items[|items| - 1];
    Good(rest, ok, key) && ok(last) && key(last) !in Keys(rest, key)
  }

  lemma {:induction false} GoodPrefix<N>(items: seq<N>, count: nat, ok: N -> bool, key: N -> string)
    requires count <= |items| && Good(items, ok, key)
    ensures Good(items[..count], ok, key)
  {
    if count == |items| {
      assert items[..count] == items;
    } else {
      GoodPrefix(items[..|items| - 1], count, ok, key);
      assert items[..|items| - 1][..count] == items[..count];
    }
  }

  /** One bad item spoils the list. */
  lemma BadItem<N>(items: seq<N>, i: nat, ok: N -> bool, key: N -> string)
    requires i < |items| && (!ok(items[i]) || key(items[i]) in Keys(items[..i], key))
    ensures !Good(items, ok, key)
  {
    assert items[..i + 1][..i] == items[..i] && items[..i + 1][i] == items[i];
    if Good(items, ok, key) { GoodPrefix(items, i + 1, ok, key); }
  }

  lemma {:induction false} KeysHold<N>(items: seq<N>, i: nat, key: N -> string)
    requires i < |items|
    ensures key(items[i]) in Keys(items, key)
  {
    if i < |items| - 1 { KeysHold(items[..|items| - 1], i, key); }
  }

  /** `Good`, said position by position. */
  lemma {:induction false} GoodPairwise<N>(items: seq<N>, i: nat, j: nat, ok: N -> bool, key: N -> string)
    requires Good(items, ok, key) && i < j < |items|
    ensures ok(items[i]) && ok(items[j]) && key(items[i]) != key(items[j])
  {
    if j == |items| - 1 {
      GoodPrefix(items, i + 1, ok, key);
      assert items[..i + 1][i] == items[i];
      KeysHold(items[..j], i, key);
    } else {
      GoodPairwise(items[..|items| - 1], i, j, ok, key);
    }
  }

  /** Direct partitions with names all different from each other. */
  ghost predicate GoodPartitions(nodes: seq<Node>, root: string, family: Family) {
    Good(nodes, PartitionOf(root, family), Kernel)
  }

  /** `linux_node_is_complete_and_unmounted`: the recursive walk with its shared set of seen names. */
  method CheckNode(node: Node, parent: Option<string>, root: string, family: Family, seen: set<string>)
    returns (v: Verdict, seen': set<string>)
    requires parent.None? ==> seen == {}
    ensures parent.Some? ==>
      (v.Yes? <==> parent.value == root && DirectPartition(node, root, family) && Kernel(node) !in seen)
    ensures parent.Some? && v.Yes? ==> seen' == seen + {Kernel(node)}
    ensures parent.None? ==> (v.Yes? <==> SafeTree(node, root, family))
    decreases node, 0
  {
    v := CheckOwnRecord(node, parent, root, family, seen);
    if !v.Yes? { return v, seen; }
    seen' := seen + {Kernel(node)};
    if node.children.OtherChildren? { return Malformed, seen'; }
    if !node.children.ListOfChildren? { return Yes, seen'; }
    var nodes := node.children.nodes;
    if parent.Some? {
      if nodes != [] { return No, seen'; }
      return Yes, seen';
    }
    v, seen' := CheckChildren(nodes, root, family, seen', PartitionOf(root, family), Kernel);
  }

  /** `ok` and `key` stand for the two questions the walk asks about a child. */
  ghost predicate Stands(root: string, family: Family, ok: Node -> bool, key: Node -> string) {
    && (forall n {:trigger DirectPartition(n, root, family)} :: ok(n) <==> DirectPartition(n, root, family))
    && (forall n {:trigger Kernel(n)} :: key(n) == Kernel(n))
    && (forall n :: ok(n) ==> key(n) != root)
  }

  method CheckChild(
      node: Node, root: string, family: Family, seen: set<string>, ghost ok: Node -> bool, ghost key: Node -> string)
    returns (v: Verdict, seen': set<string>)
    requires Stands(root, family, ok, key)
    ensures v.Yes? <==> ok(node) && key(node) !in seen
    ensures v.Yes? ==> seen' == seen + {key(node)}
    decreases node, 1
  {
    v, seen' := CheckNode(node, Some(root), root, family, seen);
  }

  /** The loop over the children of the whole disk. */
  method CheckChildren(
      nodes: seq<Node>, root: string, family: Family, seen: set<string>, ghost ok: Node -> bool, ghost key: Node -> string)
    returns (v: Verdict, seen': set<string>)
    requires seen == {root} && Stands(root, family, ok, key)
    ensures v.Yes? <==> Good(nodes, ok, key)
    decreases nodes
  {
    seen' := seen;
    for i := 0 to |nodes|
      invariant Good(nodes[..i], ok, key) && seen' == {root} + Keys(nodes[..i], key)
    {
      assert nodes[..i + 1][..i] == nodes[..i] && nodes[..i + 1][i] == nodes[i];
      v, seen' := CheckChild(nodes[i], root, family, seen', ok, key);
      if !v.Yes? {
        BadItem(nodes, i, ok, key);
        return;
      }
    }
    assert nodes[..|nodes|] == nodes;
    v := Yes;
  }

  /** In a safe tree every name decodes back to the root, so it belongs to this disk only. */
  lemma SafeTreeHasOneOwner(n: Node, root: string, transport: string, family: Family)
    requires SafeTree(n, root, family)
    requires IsLinuxWholeName(root) && DeviceFamily(root, transport) == InFamily(family)
    ensures n.children.ListOfChildren? ==>
      forall i :: 0 <= i < |n.children.nodes| ==> LinuxOwner(Kernel(n.children.nodes[i])) == root
  {
    if n.children.ListOfChildren? {
      forall i | 0 <= i < |n.children.nodes| ensures LinuxOwner(Kernel(n.children.nodes[i])) == root {
        GoodPrefix(n.children.nodes, i + 1, PartitionOf(root, family), Kernel);
        assert n.children.nodes[..i + 1][i] == n.children.nodes[i];
        PartitionOwner(root, family, transport, Kernel(n.children.nodes[i]));
      }
    }
  }

  /** Some mount point is named: a text with anything but white space. */
  ghost predicate Named(f: Field) { f.Text? && exists k :: 0 <= k < |f.text| && !IsSpace(f.text[k]) }

  ghost predicate Mounted(m: Mounts) {
    || (m.OneMount? && Named(Text(m.text)))
    || (m.ListOfMounts? && exists i :: 0 <= i < |m.items| && Named(m.items[i]))
  }

  lemma NamedIsNotEmpty(m: Mounts)
    requires Mounted(m)
    ensures !MountsEmpty(m)
  {
  }

  /** A mount anywhere in the tree, on the disk or on a partition, makes it refused. */
  lemma MountedTreeIsRefused(n: Node, root: string, family: Family, i: nat)
    requires n.Node?
    requires Mounted(n.mounts) || (n.children.ListOfChildren? && i < |n.children.nodes|
                                   && n.children.nodes[i].Node? && Mounted(n.children.nodes[i].mounts))
    ensures !SafeTree(n, root, family)
  {
    if SafeTree(n, root, family) && !Mounted(n.mounts) {
      NamedIsNotEmpty(n.children.nodes[i].mounts);
      BadItem(n.children.nodes, i, PartitionOf(root, family), Kernel);
    } else if Mounted(n.mounts) {
      NamedIsNotEmpty(n.mounts);
    }
  }

  lemma AlphanumericIsSafe(name: string)
    requires name != [] && AllAlphanumeric(name)
    ensures SafeMetadata(name) && KernelName(Text(name)) == Some(name)
  {
    assert "/dev/"[0] == '/' && name[0] != '/';
  }

  lemma DevicePathIsSafe(name: string)
    requires name != [] && AllAlphanumeric(name)
    ensures SafeMetadata("/dev/" + name)
  {
    var s := "/dev/" + name;
    assert s[0] == '/' && s[|s| - 1] == name[|name| - 1];
    forall i | 0 <= i < |s| ensures !IsControl(s[i]) {
      assert s[i] == if i < 5 then "/dev/"[i] else name[i - 5];
    }
  }

  /** A record as the inventory writes it, with nothing mounted. */
  function Listed(kind: string, name: string, parent: Field, children: Children): Node {
    Node(Text(kind), Text("/dev/" + name), Text("/dev/" + name), Text(name), parent, ListOfMounts([Null]), children)
  }

  lemma ListedIsPlain(kind: string, name: string, parent: Field, children: Children)
    requires name != [] && AllAlphanumeric(name) && SafeMetadata(kind)
    ensures Plain(Listed(kind, name, parent, children), kind, name) && Kernel(Listed(kind, name, parent, children)) == name
  {
    AlphanumericIsSafe(name);
    DevicePathIsSafe(name);
  }

  lemma PartIsDirect(root: string, family: Family, name: string)
    requires root != [] && AllAlphanumeric(root) && AllAlphanumeric(name) && IsPartitionName(root, family, name)
    ensures DirectPartition(Listed("part", name, Text(root), NoChildren), root, family)
  {
    assert name != [] && SafeMetadata("part");
    ListedIsPlain("part", name, Text(root), NoChildren);
    AlphanumericIsSafe(root);
  }

  /** An ordinary disk with one ordinary partition is accepted, whatever their names. */
  lemma OrdinaryDiskIsSafe(root: string, family: Family, name: string)
    requires root != [] && AllAlphanumeric(root) && AllAlphanumeric(name) && IsPartitionName(root, family, name)
    ensures SafeTree(Listed("disk", root, Null, ListOfChildren([Listed("part", name, Text(root), NoChildren)])), root, family)
  {
    var part := Listed("part", name, Text(root), NoChildren);
    assert SafeMetadata("disk");
    ListedIsPlain("disk", root, Null, ListOfChildren([part]));
    PartIsDirect(root, family, name);
    assert [part][..0] == [] && [part][0] == part;
    OneIsGood(part, PartitionOf(root, family), Kernel);
  }

  lemma OneIsGood<N>(item: N, ok: N -> bool, key: N -> string)
    requires ok(item)
    ensures Good([item], ok, key)
  {
    assert [item][..0] == [];
  }

  // ----- macOS -----

  /** One decoded `diskutil info` object; booleans that are absent or malformed are `None`. */
  datatype Info = BadInfo | Info(identifier: Field, wholeDisk: Option<bool>, parent: Field, node: Field, mount: Field)

  predicate MountPointEmpty(f: Field) { f.Null? || (f.Text? && Blank(f.text)) }

  predicate NoDuplicates<T(==)>(s: seq<T>) {
    forall i, j :: 0 <= i < j < |s| ==> s[i] != s[j]
  }

  ghost predicate UnmountedMember(info: Info, id: string, whole: string) {
    && info.Info?
    && TextOf(info.identifier) == Some(id)
    && info.wholeDisk == Some(id == whole)
    && TextOf(info.parent) == Some(whole)
    && TextOf(info.node) == Some("/dev/" + id)
    && MountPointEmpty(info.mount)
  }

  function Identifier(info: Info): string {
    if info.Info? && TextOf(info.identifier).Some? then TextOf(info.identifier).value else ""
  }

  ghost predicate Members(whole: string, ids: seq<string>, infos: seq<Info>) {
    && (forall i :: 0 <= i < |infos| ==>
          Identifier(infos[i]) in ids && UnmountedMember(infos[i], Identifier(infos[i]), whole))
    && (forall i, j :: 0 <= i < j < |infos| ==> Identifier(infos[i]) != Identifier(infos[j]))
  }

  ghost predicate Descendants(whole: string, ids: seq<string>) {
    NoDuplicates(ids) && forall i :: 0 <= i < |ids| ==> IsMacosDescendant(ids[i], whole)
  }

  /** Exactly the listed identifiers, each described once, each a descendant, all unmounted. */
  ghost predicate CompleteTopology(whole: string, ids: seq<string>, infos: seq<Info>) {
    whole in ids && |ids| == |infos| && Descendants(whole, ids) && Members(whole, ids, infos)
  }

  /** The listing half of `macos_topology_is_complete_and_unmounted`. */
  method CheckIdentifiers(whole: string, ids: seq<string>) returns (ok: bool, expected: set<string>)
    ensures ok <==> whole in ids && Descendants(whole, ids)
    ensures ok ==> forall x :: x in expected <==> x in ids
  {
    expected := {};
    if whole !in ids { return false, {}; }
    for i := 0 to |ids|
      invariant forall x :: x in expected <==> x in ids[..i]
      invariant Descendants(whole, ids[..i])
    {
      var descends := RecogniseMacosDescendant(ids[i], whole);
      if ids[i] in expected || !descends {
        assert ids[i] in ids[..i] ==> exists j :: 0 <= j < i && ids[j] == ids[i];
        return false, {};
      }
      assert ids[..i + 1] == ids[..i] + [ids[i]];
      expected := expected + {ids[i]};
    }
    assert ids[..|ids|] == ids;
    ok := true;
  }

  /** The description half: every info object names a listed, unmounted, not yet described member. */
  method CheckMembers(whole: string, ids: seq<string>, expected: set<string>, infos: seq<Info>) returns (ok: bool)
    requires forall x :: x in expected <==> x in ids
    ensures ok <==> Members(whole, ids, infos)
  {
    var seen: set<string> := {};
    for i := 0 to |infos|
      invariant forall x :: x in seen <==> exists j :: 0 <= j < i && Identifier(infos[j]) == x
      invariant Members(whole, ids, infos[..i])
    {
      if infos[i].BadInfo? || TextOf(infos[i].identifier).None? { return false; }
      var id := TextOf(infos[i].identifier).value;
      assert id == Identifier(infos[i]);
      if id !in expected || id in seen
         || infos[i].wholeDisk != Some(id == whole)
         || TextOf(infos[i].parent) != Some(whole)
         || TextOf(infos[i].node) != Some("/dev/" + id)
         || !MountPointEmpty(infos[i].mount)
      {
        return false;
      }
      assert infos[..i + 1] == infos[..i] + [infos[i]];
      seen := seen + {id};
    }
    assert infos[..|infos|] == infos;
    ok := true;
  }

  /** `macos_topology_is_complete_and_unmounted`. */
  method CheckMacosTopology(whole: string, ids: seq<string>, infos: seq<Info>) returns (ok: bool)
    ensures ok <==> CompleteTopology(whole, ids, infos)
  {
    if ids == [] || |ids| != |infos| { return false; }
    var listed, expected := CheckIdentifiers(whole, ids);
    if !listed { return false; }
    ok := CheckMembers(whole, ids, expected, infos);
  }

  /** A complete topology leaves out nothing: every listed identifier is described as unmounted. */
  lemma EveryMemberIsUnmounted(whole: string, ids: seq<string>, infos: seq<Info>, id: string)
    requires CompleteTopology(whole, ids, infos) && id in ids
    ensures exists i :: 0 <= i < |infos| && UnmountedMember(infos[i], id, whole)
  {
    var described := Described(infos);
    DescribedAreListed(whole, ids, infos);
    Pigeonhole(described, ids);
    var i :| 0 <= i < |described| && described[i] == id;
    MemberAt(whole, ids, infos, i);
  }

  function Described(infos: seq<Info>): (r: seq<string>)
    ensures |r| == |infos|
  {
    seq(|infos|, i requires 0 <= i < |infos| => Identifier(infos[i]))
  }

  lemma DescribedAreListed(whole: string, ids: seq<string>, infos: seq<Info>)
    requires Members(whole, ids, infos)
    ensures NoDuplicates(Described(infos)) && forall x <- Described(infos) :: x in ids
  {
  }

  lemma MemberAt(whole: string, ids: seq<string>, infos: seq<Info>, i: nat)
    requires Members(whole, ids, infos) && i < |infos|
    ensures UnmountedMember(infos[i], Described(infos)[i], whole)
  {
  }

  /** A whole disk that is listed and described alone, with nothing mounted, is accepted. */
  lemma OrdinaryTopologyIsComplete(whole: string)
    requires IsMacosWholeDisk(whole) && AllAlphanumeric(whole)
    ensures CompleteTopology(whole, [whole], [Info(Text(whole), Some(true), Text(whole), Text("/dev/" + whole), Null)])
  {
    var info := Info(Text(whole), Some(true), Text(whole), Text("/dev/" + whole), Null);
    AlphanumericIsSafe(whole);
    DevicePathIsSafe(whole);
    SegmentsEnd(whole[|whole|..]);
    assert UnmountedMember(info, whole, whole) && IsMacosDescendant(whole, whole);
  }

  /** A described member with a mount point makes the topology refused. */
  lemma MountedMemberIsRefused(whole: string, ids: seq<string>, infos: seq<Info>, i: nat)
    requires i < |infos| && infos[i].Info? && Named(infos[i].mount)
    ensures !CompleteTopology(whole, ids, infos)
  {
  }

  /** A duplicate-free selection of the same length covers the whole list. */
  lemma Pigeonhole(part: seq<string>, all: seq<string>)
    requires NoDuplicates(part) && NoDuplicates(all) && |part| == |all|
    requires forall x <- part :: x in all
    ensures forall x <- all :: x in part
  {
    var p, a := set x | x in part, set x | x in all;
    CardinalityOf(part);
    CardinalityOf(all);
    forall x | x in all ensures x in part {
      if x !in part {
        assert p <= a - {x};
        SubsetSize(p, a - {x});
        assert false;
      }
    }
  }

  lemma {:induction false} CardinalityOf(s: seq<string>)
    requires NoDuplicates(s)
    ensures |set x | x in s| == |s|
  {
    if s != [] {
      var init, last := s[..|s| - 1], s[|s| - 1];
      CardinalityOf(init);
      assert (set x | x in s) == (set x | x in init) + {last};
      assert last !in init;
    }
  }

  lemma {:induction false} SubsetSize(a: set<string>, b: set<string>)
    requires a <= b
    ensures |a| <= |b|
  {
    if a != {} {
      var x :| x in a;
      SubsetSize(a - {x}, b - {x});
    }
  }
}
