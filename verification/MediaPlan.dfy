/**
 * MBR/FAT32 media plans: what the placement check accepts, and that an accepted plan can be laid
 * out on a case-insensitive FAT tree, in any order, without ever meeting a file where a directory
 * is needed or a directory where a file is needed.
 */
module MediaPlan {
  import opened Wrappers
  import opened Bytes

  // ----- destinations -----

  /** A destination as its non-empty list of path components. */
  type Path = seq<string>

  function Lower(c: char): char {
    if 'A' <= c <= 'Z' then (c as int + 32) as char else c
  }

  function Fold(s: string): (r: string)
    ensures |r| == |s|
  {
    seq(|s|, i requires 0 <= i < |s| => Lower(s[i]))
  }

  predicate ForbiddenCharacter(c: char) {
    c < ' ' || c >= '\U{7F}' || c in {'<', '>', ':', '\"', '/', '\\', '|', '?', '*'}
  }

  function Stem(s: string): string {
    if s == [] || s[0] == '.' then [] else [s[0]] + Stem(s[1..])
  }

  predicate ReservedStem(stem: string) {
    || stem in {"con", "prn", "aux", "nul"}
    || (|stem| == 4 && (stem[..3] == "com" || stem[..3] == "lpt") && '1' <= stem[3] <= '9')
  }

  /** `PortableOutputName::new` for one component. */
  predicate PortableName(s: string) {
    && s != [] && |s| <= 255 && s[|s| - 1] != '.' && s[|s| - 1] != ' '
    && (forall i :: 0 <= i < |s| ==> !ForbiddenCharacter(s[i]))
    && !ReservedStem(Fold(Stem(s)))
  }

  predicate Portable(p: Path) {
    p != [] && forall i :: 0 <= i < |p| ==> PortableName(p[i])
  }

  /** `casefold_path_key`, kept as components: the names contain no separator. */
  function Key(p: Path): (k: Path)
    ensures |k| == |p|
  {
    seq(|p|, i requires 0 <= i < |p| => Fold(p[i]))
  }

  /** The same text up to the case of ASCII letters. */
  ghost predicate SameLetters(a: string, b: string) {
    |a| == |b| && forall i :: 0 <= i < |a| ==>
      || a[i] == b[i]
      || ('A' <= a[i] <= 'Z' && b[i] as int == a[i] as int + 32)
      || ('A' <= b[i] <= 'Z' && a[i] as int == b[i] as int + 32)
  }

  lemma FoldDecides(a: string, b: string)
    ensures Fold(a) == Fold(b) <==> SameLetters(a, b)
  {
    if Fold(a) == Fold(b) {
      forall i | 0 <= i < |a| ensures Lower(a[i]) == Lower(b[i]) { assert Fold(a)[i] == Fold(b)[i]; }
    }
    if SameLetters(a, b) {
      forall i | 0 <= i < |a| ensures Fold(a)[i] == Fold(b)[i] { }
    }
  }

  /** Two destinations have one key exactly when they differ in nothing but the case of letters. */
  lemma KeyDecides(p: Path, q: Path)
    ensures Key(p) == Key(q) <==> |p| == |q| && forall i :: 0 <= i < |p| ==> SameLetters(p[i], q[i])
  {
    if Key(p) == Key(q) {
      forall i | 0 <= i < |p| ensures SameLetters(p[i], q[i]) {
        assert Key(p)[i] == Key(q)[i];
        FoldDecides(p[i], q[i]);
      }
    }
    if |p| == |q| && forall i :: 0 <= i < |p| ==> SameLetters(p[i], q[i]) {
      forall i | 0 <= i < |p| ensures Key(p)[i] == Key(q)[i] { FoldDecides(p[i], q[i]); }
    }
  }

  lemma {:induction false} StemOfSameLetters(a: string, b: string)
    requires SameLetters(a, b)
    ensures SameLetters(Stem(a), Stem(b))
  {
    if a != [] && a[0] != '.' {
      assert b[0] != '.' && SameLetters(a[1..], b[1..]) by {
        assert forall i :: 0 <= i < |a| - 1 ==> a[1..][i] == a[i + 1] && b[1..][i] == b[i + 1];
      }
      StemOfSameLetters(a[1..], b[1..]);
    }
  }

  /** Whether a name is portable does not depend on the case of its letters. */
  lemma PortableIgnoresCase(a: string, b: string)
    requires SameLetters(a, b)
    ensures PortableName(a) <==> PortableName(b)
  {
    StemOfSameLetters(a, b);
    FoldDecides(Stem(a), Stem(b));
    CharactersIgnoreCase(a, b);
  }

  lemma CharactersIgnoreCase(a: string, b: string)
    requires SameLetters(a, b)
    ensures (forall i :: 0 <= i < |a| ==> !ForbiddenCharacter(a[i])) <==> (forall i :: 0 <= i < |b| ==> !ForbiddenCharacter(b[i]))
    ensures a != [] ==> ((a[|a| - 1] != '.' && a[|a| - 1] != ' ') <==> (b[|b| - 1] != '.' && b[|b| - 1] != ' '))
  {
    assert forall i :: 0 <= i < |a| ==> (ForbiddenCharacter(a[i]) <==> ForbiddenCharacter(b[i]));
  }

  /** Device names are refused in any case and with any extension. */
  lemma DeviceNameIsRefused(s: string, device: string)
    requires device in {"con", "prn", "aux", "nul", "com1", "com9", "lpt1", "lpt9"} && SameLetters(Stem(s), device)
    ensures !PortableName(s)
  {
    FoldDecides(Stem(s), device);
    assert Fold(device) == device;
    if |device| == 4 { assert device[..3] == "com" || device[..3] == "lpt"; }
  }

  lemma {:induction false} StemOfPlain(s: string)
    requires forall i :: 0 <= i < |s| ==> s[i] != '.'
    ensures Stem(s) == s
  {
    if s != [] {
      StemOfPlain(s[1..]);
      assert s == [s[0]] + s[1..];
    }
  }

  /** A name of letters, digits, `-` and `_` with more than four characters is portable. */
  lemma PlainNameIsPortable(s: string)
    requires 4 < |s| <= 255
    requires forall i :: 0 <= i < |s| ==>
      'a' <= s[i] <= 'z' || 'A' <= s[i] <= 'Z' || '0' <= s[i] <= '9' || s[i] == '-' || s[i] == '_'
    ensures PortableName(s)
  {
    StemOfPlain(s);
    assert |Fold(Stem(s))| > 4;
    assert |"con"| == 3 && |"prn"| == 3 && |"aux"| == 3 && |"nul"| == 3;
  }

  ghost predicate ProperPrefix(p: Path, q: Path) { |p| < |q| && p == q[..|p|] }

  ghost predicate Distinct(keys: seq<Path>) {
    forall i, j :: 0 <= i < j < |keys| ==> keys[i] != keys[j]
  }

  /** No destination lies on the way to another one. */
  ghost predicate PrefixFree(keys: seq<Path>) {
    forall i, j :: 0 <= i < |keys| && 0 <= j < |keys| ==> !ProperPrefix(keys[i], keys[j])
  }

  // ----- the placement check -----

  datatype Planned = Planned(role: string, destination: Path, planned: (string, nat), measured: Option<(string, nat)>)

  predicate RoleOk(role: string) {
    role != [] && forall i :: 0 <= i < |role| ==> 'a' <= role[i] <= 'z' || '0' <= role[i] <= '9' || role[i] == '-'
  }

  /** Roles are non-empty words of lowercase letters, digits and hyphens. */
  lemma RoleDecides(role: string)
    ensures RoleOk(role) <==> role != [] && forall c :: c in role ==> c == '-' || '0' <= c <= '9' || 'a' <= c <= 'z'
  {
    if role != [] && forall c :: c in role ==> c == '-' || '0' <= c <= '9' || 'a' <= c <= 'z' {
      assert forall i :: 0 <= i < |role| ==> role[i] in role;
    }
  }

  predicate FileOk(f: Planned) {
    RoleOk(f.role) && Portable(f.destination) && f.measured == Some(f.planned)
  }

  function Keys(files: seq<Planned>): (k: seq<Path>)
    ensures |k| == |files|
  {
    seq(|files|, i requires 0 <= i < |files| => Key(files[i].destination))
  }

  function Payload(files: seq<Planned>): nat {
    if files == [] then 0 else Payload(files[..|files| - 1]) + files[|files| - 1].planned.1
  }

  ghost predicate AllOk(files: seq<Planned>) {
    forall i :: 0 <= i < |files| ==> FileOk(files[i])
  }

  /** Everything the check promises about an accepted plan. */
  ghost predicate Acceptable(files: seq<Planned>, totalPayload: nat, partitionBytes: nat) {
    && 1 <= |files| <= 1024 && AllOk(files)
    && (forall i, j :: 0 <= i < j < |files| ==> files[i].role != files[j].role)
    && Distinct(Keys(files)) && PrefixFree(Keys(files))
    && Payload(files) < U64_LIMIT && Payload(files) == totalPayload <= partitionBytes
  }

  // The running state of the first loop, over any item type and any way to read an item.

  ghost function Seen<F, K>(items: seq<F>, key: F -> K): set<K> {
    if items == [] then {} else Seen(items[..|items| - 1], key) + {key(items[|items| - 1])}
  }

  ghost predicate Good<F>(items: seq<F>, ok: F -> bool, role: F -> string, key: F -> Path) {
    items == [] ||
    var rest, last := items[..|items| - 1], items[|items| - 1];
    Good(rest, ok, role, key) && ok(last) && role(last) !in Seen(rest, role) && key(last) !in Seen(rest, key)
  }

  lemma {:induction false} SeenMeans<F, K>(items: seq<F>, key: F -> K, k: K)
    ensures k in Seen(items, key) <==> exists i :: 0 <= i < |items| && key(items[i]) == k
  {
    if items != [] {
      var rest := items[..|items| - 1];
      SeenMeans(rest, key, k);
      assert forall i :: 0 <= i < |rest| ==> rest[i] == items[i];
      if i :| 0 <= i < |items| && key(items[i]) == k { assert i < |rest| ==> key(rest[i]) == k; }
    }
  }

  lemma {:induction false} GoodPrefix<F>(items: seq<F>, n: nat, ok: F -> bool, role: F -> string, key: F -> Path)
    requires n <= |items| && Good(items, ok, role, key)
    ensures Good(items[..n], ok, role, key)
  {
    if n == |items| {
      assert items[..n] == items;
    } else {
      GoodPrefix(items[..|items| - 1], n, ok, role, key);
      assert items[..|items| - 1][..n] == items[..n];
    }
  }

  /** The incremental test is the pairwise one. */
  lemma {:induction false} GoodMeans<F>(items: seq<F>, ok: F -> bool, role: F -> string, key: F -> Path)
    ensures Good(items, ok, role, key) <==>
      && (forall i :: 0 <= i < |items| ==> ok(items[i]))
      && (forall i, j :: 0 <= i < j < |items| ==> role(items[i]) != role(items[j]))
      && (forall i, j :: 0 <= i < j < |items| ==> key(items[i]) != key(items[j]))
  {
    if items != [] {
      var rest, last := items[..|items| - 1], items[|items| - 1];
      GoodMeans(rest, ok, role, key);
      assert forall i :: 0 <= i < |rest| ==> rest[i] == items[i];
      SeenMeans(rest, role, role(last));
      SeenMeans(rest, key, key(last));
    }
  }

  /** The first loop: roles, destinations, re-measured sources and the checked running total. */
  method Collect(files: seq<Planned>) returns (r: Option<(set<Path>, nat)>)
    ensures r.Some? <==>
      Good(files, FileOk, (f: Planned) => f.role, (f: Planned) => Key(f.destination)) && Payload(files) < U64_LIMIT
    ensures r.Some? ==>
      r.value.1 == Payload(files) && r.value.0 == Seen(files, (f: Planned) => Key(f.destination))
  {
    var roles: set<string>, destinations: set<Path>, total := {}, {}, 0;
    ghost var role, key := (f: Planned) => f.role, (f: Planned) => Key(f.destination);
    for i := 0 to |files|
      invariant Good(files[..i], FileOk, role, key)
      invariant roles == Seen(files[..i], role) && destinations == Seen(files[..i], key)
      invariant total == Payload(files[..i]) < U64_LIMIT
    {
      var f := files[i];
      assert files[..i + 1][..i] == files[..i] && files[..i + 1][i] == f;
      PayloadGrows(files, i + 1);
      if Good(files, FileOk, role, key) { GoodPrefix(files, i + 1, FileOk, role, key); }
      if !RoleOk(f.role) { return None; }
      if f.role in roles { return None; }
      if !Portable(f.destination) { return None; }
      if Key(f.destination) in destinations { return None; }
      if f.measured != Some(f.planned) { return None; }
      if total + f.planned.1 >= U64_LIMIT { return None; }
      roles, destinations, total := roles + {f.role}, destinations + {Key(f.destination)}, total + f.planned.1;
    }
    assert files[..|files|] == files;
    r := Some((destinations, total));
  }

  lemma {:induction false} PayloadGrows(files: seq<Planned>, n: nat)
    requires n <= |files|
    ensures Payload(files[..n]) <= Payload(files)
  {
    if n < |files| {
      PayloadGrows(files[..|files| - 1], n);
      assert files[..|files| - 1][..n] == files[..n];
    } else {
      assert files[..n] == files;
    }
  }

  /** The second loop: walks every destination up to the root looking for another destination. */
  method NoParentIsAFile(keys: seq<Path>, destinations: set<Path>) returns (ok: bool)
    requires forall k :: k in destinations <==> k in keys
    ensures ok <==> forall j, n :: 0 <= j < |keys| && 0 < n < |keys[j]| ==> keys[j][..n] !in keys
  {
    for i := 0 to |keys|
      invariant forall j, n :: 0 <= j < i && 0 < n < |keys[j]| ==> keys[j][..n] !in keys
    {
      var parent := keys[i];
      while |parent| > 1
        invariant |parent| <= |keys[i]| && parent == keys[i][..|parent|]
        invariant forall n :: |parent| <= n < |keys[i]| && 0 < n ==> keys[i][..n] !in keys
        decreases |parent|
      {
        var prefix := parent[..|parent| - 1];
        assert prefix == keys[i][..|parent| - 1];
        if prefix in destinations { return false; }
        parent := prefix;
      }
    }
    ok := true;
  }

  lemma WalkIsPrefixFree(keys: seq<Path>)
    requires forall i :: 0 <= i < |keys| ==> keys[i] != []
    ensures PrefixFree(keys) <==> forall j, n :: 0 <= j < |keys| && 0 < n < |keys[j]| ==> keys[j][..n] !in keys
  {
    if PrefixFree(keys) {
      forall j, n | 0 <= j < |keys| && 0 < n < |keys[j]| ensures keys[j][..n] !in keys {
        forall i | 0 <= i < |keys| ensures keys[i] != keys[j][..n] { assert !ProperPrefix(keys[i], keys[j]); }
      }
    }
  }

  /** `validate_media_plan_for_fat32` after its geometry tests: accepts exactly the acceptable plans. */
  method ValidatePlan(files: seq<Planned>, totalPayload: nat, partitionBytes: nat) returns (accepted: bool)
    ensures accepted <==> Acceptable(files, totalPayload, partitionBytes)
  {
    if files == [] || |files| > 1024 { return false; }
    var collected := Collect(files);
    CollectedMeans(files);
    if collected.None? { return false; }
    WalkIsPrefixFree(Keys(files));
    var clear := NoParentIsAFile(Keys(files), collected.value.0);
    if !clear { return false; }
    accepted := collected.value.1 == totalPayload && collected.value.1 <= partitionBytes;
  }

  /** What `Collect` establishes, in the words of `Acceptable`. */
  lemma CollectedMeans(files: seq<Planned>)
    ensures Good(files, FileOk, (f: Planned) => f.role, (f: Planned) => Key(f.destination)) <==>
      && AllOk(files) && (forall i, j :: 0 <= i < j < |files| ==> files[i].role != files[j].role)
      && Distinct(Keys(files))
    ensures forall k :: k in Seen(files, (f: Planned) => Key(f.destination)) <==> k in Keys(files)
    ensures AllOk(files) ==> forall i :: 0 <= i < |files| ==> Keys(files)[i] != []
  {
    var role, key := (f: Planned) => f.role, (f: Planned) => Key(f.destination);
    var keys := Keys(files);
    GoodMeans(files, FileOk, role, key);
    assert forall i :: 0 <= i < |files| ==> keys[i] == key(files[i]) && role(files[i]) == files[i].role;
    forall k ensures k in Seen(files, key) <==> k in keys { SeenMeans(files, key, k); }
  }

  // ----- laying the files out -----

  datatype Kind = Directory | File

  ghost function Prefixes(d: Path, n: nat): set<Path>
    requires n <= |d|
  {
    set k | 0 < k < n :: d[..k]
  }

  /** The directories the given destinations need. */
  ghost function DirectoriesOf(keys: seq<Path>): set<Path> {
    if keys == [] then {}
    else DirectoriesOf(keys[..|keys| - 1]) + Prefixes(keys[|keys| - 1], |keys[|keys| - 1]|)
  }

  ghost function FilesOf(keys: seq<Path>): set<Path> {
    set k | k in keys
  }

  /** A path that leads to no destination is none of their directories. */
  lemma {:induction false} NotADirectory(keys: seq<Path>, p: Path)
    requires forall i :: 0 <= i < |keys| ==> !ProperPrefix(p, keys[i])
    ensures p !in DirectoriesOf(keys)
  {
    if keys != [] {
      var last := keys[|keys| - 1];
      NotADirectory(keys[..|keys| - 1], p);
      forall k | 0 < k < |last| ensures p != last[..k] { assert !ProperPrefix(p, last); }
    }
  }

  /** A FAT volume, addressed by case-folded paths; the root is always a directory. */
  class FatTree {
    var nodes: map<Path, Kind>

    constructor ()
      ensures nodes == map[]
    {
      nodes := map[];
    }

    ghost predicate Holds(files: set<Path>, directories: set<Path>)
      reads this
    {
      && nodes.Keys == files + directories && files !! directories
      && (forall p :: p in files ==> nodes[p] == File)
      && (forall p :: p in directories ==> nodes[p] == Directory)
    }

    predicate IsDirectory(p: Path)
      reads this
    {
      p == [] || (p in nodes && nodes[p] == Directory)
    }

    /** `create_dir`: an existing directory is fine, an existing file or a missing parent is not. */
    method CreateDirectory(p: Path) returns (ok: bool)
      requires p != []
      modifies this
      ensures ok <==> old(IsDirectory(p[..|p| - 1])) && !(p in old(nodes) && old(nodes)[p] == File)
      ensures nodes == if ok then old(nodes)[p := Directory] else old(nodes)
    {
      if !IsDirectory(p[..|p| - 1]) || (p in nodes && nodes[p] == File) { return false; }
      nodes := nodes[p := Directory];
      ok := true;
    }

    /** `create_file`: an existing directory of that name or a missing parent is an error. */
    method CreateFile(p: Path) returns (ok: bool)
      requires p != []
      modifies this
      ensures ok <==> old(IsDirectory(p[..|p| - 1])) && !(p in old(nodes) && old(nodes)[p] == Directory)
      ensures nodes == if ok then old(nodes)[p := File] else old(nodes)
    {
      if !IsDirectory(p[..|p| - 1]) || (p in nodes && nodes[p] == Directory) { return false; }
      nodes := nodes[p := File];
      ok := true;
    }

    /** `create_fat_parent_directories`: every parent from the top down. */
    method CreateParents(d: Path, ghost files: set<Path>, ghost directories: set<Path>) returns (ok: bool)
      requires d != [] && Holds(files, directories)
      requires forall k :: 0 < k < |d| ==> d[..k] !in files
      modifies this
      ensures ok && Holds(files, directories + Prefixes(d, |d|))
    {
      assert Prefixes(d, 1) == {};
      for k := 1 to |d|
        invariant Holds(files, directories + Prefixes(d, k))
      {
        assert d[..k][..k - 1] == d[..k - 1];
        assert Prefixes(d, k + 1) == Prefixes(d, k) + {d[..k]};
        assert k > 1 ==> d[..k - 1] in Prefixes(d, k);
        ok := CreateDirectory(d[..k]);
        if !ok { return false; }
      }
      ok := true;
    }

    /** One destination: its parents, then the file itself. */
    method WriteFile(d: Path, ghost files: set<Path>, ghost directories: set<Path>) returns (ok: bool)
      requires d != [] && Holds(files, directories)
      requires forall k :: 0 < k < |d| ==> d[..k] !in files
      requires d !in files && d !in directories && d !in Prefixes(d, |d|)
      modifies this
      ensures ok && Holds(files + {d}, directories + Prefixes(d, |d|))
    {
      ok := CreateParents(d, files, directories);
      if !ok { return false; }
      assert d[..|d| - 1] == [] || d[..|d| - 1] in Prefixes(d, |d|);
      ok := CreateFile(d);
    }

    /** Writing the destinations of an accepted plan, in any order, succeeds and yields exactly them. */
    method WriteFiles(keys: seq<Path>) returns (ok: bool)
      requires nodes == map[]
      requires Distinct(keys) && PrefixFree(keys) && forall i :: 0 <= i < |keys| ==> keys[i] != []
      modifies this
      ensures ok && Holds(FilesOf(keys), DirectoriesOf(keys))
    {
      for i := 0 to |keys|
        invariant Holds(FilesOf(keys[..i]), DirectoriesOf(keys[..i]))
      {
        NewFileIsFree(keys, i);
        NoParentIsWritten(keys, i);
        OneMoreKey(keys, i);
        ok := WriteFile(keys[i], FilesOf(keys[..i]), DirectoriesOf(keys[..i]));
        if !ok { return false; }
      }
      assert keys[..|keys|] == keys;
      ok := true;
    }
  }

  lemma NoParentIsWritten(keys: seq<Path>, i: nat)
    requires i < |keys| && PrefixFree(keys)
    ensures forall k :: 0 < k < |keys[i]| ==> keys[i][..k] !in FilesOf(keys[..i])
  {
    forall k, j | 0 < k < |keys[i]| && 0 <= j < i ensures keys[j] != keys[i][..k] { assert !ProperPrefix(keys[j], keys[i]); }
  }

  lemma OneMoreKey(keys: seq<Path>, i: nat)
    requires i < |keys|
    ensures FilesOf(keys[..i + 1]) == FilesOf(keys[..i]) + {keys[i]}
    ensures DirectoriesOf(keys[..i + 1]) == DirectoriesOf(keys[..i]) + Prefixes(keys[i], |keys[i]|)
  {
    assert keys[..i + 1] == keys[..i] + [keys[i]] && keys[..i + 1][..i] == keys[..i];
  }

  /** The next destination is neither a file nor a directory of what has been written so far. */
  lemma NewFileIsFree(keys: seq<Path>, i: nat)
    requires i < |keys| && Distinct(keys) && PrefixFree(keys)
    ensures keys[i] !in FilesOf(keys[..i]) && keys[i] !in DirectoriesOf(keys[..i])
    ensures keys[i] !in Prefixes(keys[i], |keys[i]|)
  {
    forall j | 0 <= j < i ensures !ProperPrefix(keys[i], keys[..i][j]) { assert keys[..i][j] == keys[j]; }
    NotADirectory(keys[..i], keys[i]);
  }

  /** Acceptance does not depend on the order of the files, so the sorted list may be written. */
  lemma OrderIsFree(a: seq<Path>, b: seq<Path>)
    requires Distinct(a) && PrefixFree(a) && multiset(a) == multiset(b)
    ensures Distinct(b) && PrefixFree(b)
  {
    forall i, j | 0 <= i < |b| && 0 <= j < |b| ensures !ProperPrefix(b[i], b[j]) {
      assert b[i] in multiset(a) && b[j] in multiset(a);
    }
    forall i, j | 0 <= i < j < |b| ensures b[i] != b[j] {
      OccursOnce(a, b[i]);
      ApartWhenOnce(b, i, j);
    }
  }

  /** The same set of files needs the same directories. */
  lemma {:induction false} DirectoriesMean(keys: seq<Path>, p: Path)
    ensures p in DirectoriesOf(keys) <==> exists i :: 0 <= i < |keys| && p != [] && ProperPrefix(p, keys[i])
    decreases |keys|
  {
    if keys != [] {
      var rest, last := keys[..|keys| - 1], keys[|keys| - 1];
      DirectoriesMean(rest, p);
      assert forall i :: 0 <= i < |rest| ==> rest[i] == keys[i];
      if p != [] && ProperPrefix(p, last) { assert last[..|p|] == p && p in Prefixes(last, |last|); }
    }
  }

  lemma PermutedTree(a: seq<Path>, b: seq<Path>)
    requires multiset(a) == multiset(b)
    ensures FilesOf(a) == FilesOf(b) && DirectoriesOf(a) == DirectoriesOf(b)
  {
    forall p ensures p in a <==> p in b { assert p in multiset(a) <==> p in multiset(b); }
    forall p ensures p in DirectoriesOf(a) <==> p in DirectoriesOf(b) {
      DirectoriesMean(a, p);
      DirectoriesMean(b, p);
      assert forall i :: 0 <= i < |a| ==> a[i] in b;
      assert forall i :: 0 <= i < |b| ==> b[i] in a;
    }
  }

  /**
   * Validation, sorting and writing together: a plan is written exactly when it is acceptable, in
   * whatever order the sort leaves it, and the volume then holds exactly its files and their parents.
   */
  method PlacePlan(files: seq<Planned>, totalPayload: nat, partitionBytes: nat, sorted: seq<Path>) returns (ok: bool, tree: FatTree)
    requires multiset(sorted) == multiset(Keys(files))
    ensures fresh(tree) && (ok <==> Acceptable(files, totalPayload, partitionBytes))
    ensures ok ==> tree.Holds(FilesOf(Keys(files)), DirectoriesOf(Keys(files)))
  {
    tree := new FatTree();
    ok := ValidatePlan(files, totalPayload, partitionBytes);
    if !ok { return; }
    var keys := Keys(files);
    OrderIsFree(keys, sorted);
    PermutedTree(keys, sorted);
    forall i | 0 <= i < |sorted| ensures sorted[i] != [] {
      assert sorted[i] in multiset(keys);
      CollectedMeans(files);
    }
    ok := tree.WriteFiles(sorted);
  }

  lemma ApartWhenOnce(s: seq<Path>, i: nat, j: nat)
    requires i < j < |s| && multiset(s)[s[i]] <= 1
    ensures s[i] != s[j]
  {
    assert s == s[..i] + [s[i]] + s[i + 1..j] + [s[j]] + s[j + 1..];
  }

  lemma {:induction false} OccursOnce(s: seq<Path>, x: Path)
    requires Distinct(s)
    ensures multiset(s)[x] <= 1
  {
    if s != [] {
      var rest, last := s[..|s| - 1], s[|s| - 1];
      OccursOnce(rest, x);
      assert s == rest + [last];
      assert last !in rest;
      assert last !in multiset(rest);
    }
  }
}
