/**
 * `Contract::parse`: the typed parser takes every required field out of the assignment table, and
 * printing any well-formed contract, with its lines in any order, and parsing gives it back.
 */
module ContractParse {
  import opened Wrappers
  import opened ContractFile
  import opened ContractFields

  // ----- lists -----

  predicate HasEmpty(members: seq<string>) { exists i :: 0 <= i < |members| && members[i] == [] }

  /** `take_list`: members between semicolons, none of them empty. */
  function ListIn(s: string): Option<seq<string>> {
    if HasEmpty(Split(s)) then None else Some(Split(s))
  }

  predicate Unique(s: seq<string>) { forall i, j :: 0 <= i < j < |s| ==> s[i] != s[j] }

  predicate All(s: seq<string>, ok: string -> bool) { forall i :: 0 <= i < |s| ==> ok(s[i]) }

  /** `take_path_list`: in addition every member is a safe path and none occurs twice. */
  function PathsIn(s: string, safe: string -> bool): Option<seq<string>> {
    var l := ListIn(s);
    if l.None? || !All(l.value, safe) || !Unique(l.value) then None else l
  }

  /** The kinds of a list of texts, when all of them name one. */
  function KindsIn(s: seq<string>, kind: string -> Option<Kind>): (r: Option<seq<Kind>>)
    ensures r.Some? ==> |r.value| == |s|
  {
    if s == [] then Some([])
    else
      var before, last := KindsIn(s[..|s| - 1], kind), kind(s[|s| - 1]);
      if before.None? || last.None? then None else Some(before.value + [last.value])
  }

  function KindListIn(s: string, kind: string -> Option<Kind>): Option<seq<Kind>> {
    var l := ListIn(s);
    if l.None? then None else KindsIn(l.value, kind)
  }

  method CheckPaths(members: seq<string>, safe: string -> bool) returns (ok: bool)
    ensures ok == (All(members, safe) && Unique(members))
  {
    var unique: set<string> := {};
    for i := 0 to |members|
      invariant All(members[..i], safe) && Unique(members[..i])
      invariant forall s :: s in unique <==> s in members[..i]
    {
      assert members[..i + 1] == members[..i] + [members[i]];
      if !safe(members[i]) { return false; }
      if members[i] in unique {
        var k :| 0 <= k < i && members[..i][k] == members[i];
        assert members[k] == members[i];
        return false;
      }
      unique := unique + {members[i]};
    }
    assert members[..|members|] == members;
    ok := true;
  }

  lemma {:induction false} BadKindStaysBad(s: seq<string>, n: nat, kind: string -> Option<Kind>)
    requires n <= |s| && KindsIn(s[..n], kind).None?
    ensures KindsIn(s, kind).None?
  {
    if n == |s| {
      assert s[..n] == s;
    } else {
      assert s[..|s| - 1][..n] == s[..n];
      BadKindStaysBad(s[..|s| - 1], n, kind);
    }
  }

  method ParseKinds(s: seq<string>, kind: string -> Option<Kind>) returns (r: Option<seq<Kind>>)
    ensures r == KindsIn(s, kind)
  {
    var kinds: seq<Kind> := [];
    for i := 0 to |s|
      invariant KindsIn(s[..i], kind) == Some(kinds)
    {
      assert s[..i + 1][..i] == s[..i] && s[..i + 1][i] == s[i];
      var k := kind(s[i]);
      if k.None? {
        BadKindStaysBad(s, i + 1, kind);
        return None;
      }
      kinds := kinds + [k.value];
    }
    assert s[..|s|] == s;
    r := Some(kinds);
  }

  // ----- contracts -----

  datatype Identity = Identity(mode: Mode, buildTriplet: string, sourceHash: string, productHash: string)

  datatype Inputs = Inputs(headers: seq<string>, inputs: seq<string>, hashes: seq<string>)

  datatype Products = Products(paths: seq<string>, kinds: seq<Kind>, installs: seq<string>, dependencies: seq<string>)

  datatype Flags = Flags(c: seq<string>, cpp: seq<string>, asm: seq<string>, ld: seq<string>)

  datatype Contract =
    Contract(identity: Identity, inputs: Inputs, products: Products, flags: Flags, paths: map<PathField, string>)

  type Texts = Field -> string

  function ModeIn(t: Texts, rules: Rules): Option<Mode> {
    if t(MmakeId) == rules.mmake then rules.mode(t(ModeName)) else None
  }

  predicate TargetIs(t: Texts, p: Profile) {
    t(TargetTriple) == p.triple && t(ElfClass) == p.class_ && t(ElfMachine) == p.machine
  }

  function DigestsIn(t: Texts, rules: Rules): Option<(string, string)> {
    if rules.digest(t(SourceHash)) && rules.digest(t(ProductHash)) then Some((t(SourceHash), t(ProductHash))) else None
  }

  function IdentityIn(t: Texts, rules: Rules): Option<Identity> {
    var mode, digests := ModeIn(t, rules), DigestsIn(t, rules);
    if mode.None? || !rules.triplet(t(BuildTriplet)) || !TargetIs(t, rules.profile(mode.value)) || digests.None? then None
    else Some(Identity(mode.value, t(BuildTriplet), digests.value.0, digests.value.1))
  }

  function InputsIn(t: Texts, rules: Rules, p: Profile): Option<Inputs> {
    var headers, inputs := PathsIn(t(FeatureHeaders), rules.absolute), PathsIn(t(InputRelative), rules.relative);
    var hashes := ListIn(t(InputHashes));
    if headers.None? || |headers.value| != p.headers || inputs.None? || hashes.None?
      || !All(hashes.value, rules.digest) || |inputs.value| != |hashes.value| then None
    else Some(Inputs(headers.value, inputs.value, hashes.value))
  }

  function ProductsIn(t: Texts, rules: Rules, p: Profile): Option<Products> {
    var paths, installs := PathsIn(t(ProductRelative), rules.relative), PathsIn(t(InstallProducts), rules.absolute);
    var kinds, dependencies := KindListIn(t(ProductKinds), rules.kind), PathsIn(t(DependencyProducts), rules.absolute);
    if paths.None? || kinds.None? || installs.None? || dependencies.None?
      || |paths.value| != p.products || |kinds.value| != p.products || |installs.value| != p.products
      || |dependencies.value| != DEPENDENCIES then None
    else Some(Products(paths.value, kinds.value, installs.value, dependencies.value))
  }

  function FlagsIn(t: Texts): Option<Flags> {
    var c, cpp, asm, ld := ListIn(t(Cflags)), ListIn(t(Cppflags)), ListIn(t(Asflags)), ListIn(t(Ldflags));
    if c.None? || cpp.None? || asm.None? || ld.None? then None else Some(Flags(c.value, cpp.value, asm.value, ld.value))
  }

  ghost predicate PathsAre(paths: map<PathField, string>, t: Texts) {
    forall p :: p in paths && paths[p] == t(PathOf(p))
  }

  /** The contract `c` is what the field texts say. */
  ghost predicate Says(t: Texts, rules: Rules, c: Contract) {
    && (forall p :: rules.absolute(t(PathOf(p))))
    && PathsAre(c.paths, t)
    && IdentityIn(t, rules) == Some(c.identity)
    && InputsIn(t, rules, rules.profile(c.identity.mode)) == Some(c.inputs)
    && ProductsIn(t, rules, rules.profile(c.identity.mode)) == Some(c.products)
    && FlagsIn(t) == Some(c.flags)
  }

  /** Texts say at most one contract. */
  lemma SaysOneContract(t: Texts, rules: Rules, c: Contract, d: Contract)
    requires Says(t, rules, c) && Says(t, rules, d)
    ensures c == d
  {
    assert forall p :: p in c.paths <==> p in d.paths;
    assert c.paths == d.paths;
  }

  // ----- taking the fields -----

  /** A naming of the fields with its inverse: different fields have different names. */
  datatype Naming = Naming(name: Field -> string, field: string -> Field) {
    ghost predicate Valid() { forall f :: field(name(f)) == f }
  }

  function TextsOf(table: Table, n: Naming): Texts {
    f => if n.name(f) in table then table[n.name(f)].value else ""
  }

  /** The names in the table are exactly those of the required fields. */
  ghost predicate ExactFields(table: Table, n: Naming) {
    && (forall f :: n.name(f) in table)
    && (forall k :: k in table ==> n.name(n.field(k)) == k)
  }

  /** The table once the first `k` fields are taken. */
  ghost function Remaining(table: Table, n: Naming, k: nat): Table
    requires k <= REQUIRED
  {
    if k == 0 then table else Remaining(table, n, k - 1) - {n.name(FieldAt(k - 1))}
  }

  lemma {:induction false} RemainingIsPart(table: Table, n: Naming, k: nat)
    requires k <= REQUIRED
    ensures forall s :: s in Remaining(table, n, k) ==> s in table
  {
    if k > 0 { RemainingIsPart(table, n, k - 1); }
  }

  lemma NameAt(n: Naming, i: nat, f: Field)
    requires i < REQUIRED && n.Valid()
    ensures n.name(f) == n.name(FieldAt(i)) <==> Rank(f) == i
  {
    Ranked(f);
    RankAt(i);
    assert n.field(n.name(f)) == f && n.field(n.name(FieldAt(i))) == FieldAt(i);
  }

  /** A field remains exactly until its turn, with its own value. */
  lemma RemainingHas(table: Table, n: Naming, k: nat, f: Field)
    requires k <= REQUIRED && n.Valid() && ExactFields(table, n)
    ensures n.name(f) in Remaining(table, n, k) <==> k <= Rank(f)
    ensures k <= Rank(f) ==> Remaining(table, n, k)[n.name(f)] == table[n.name(f)]
  {
    forall i: nat | i < REQUIRED ensures n.name(FieldAt(i)) == n.name(f) <==> i == Rank(f) { NameAt(n, i, f); }
    RemainsUntil(table, n, k, n.name(f), Rank(f));
  }

  /** A name that is taken at one turn only remains exactly until that turn. */
  lemma {:induction false} RemainsUntil(table: Table, n: Naming, k: nat, name: string, turn: nat)
    requires k <= REQUIRED && name in table
    requires forall i: nat :: i < REQUIRED ==> (n.name(FieldAt(i)) == name <==> i == turn)
    ensures name in Remaining(table, n, k) <==> k <= turn
    ensures k <= turn ==> Remaining(table, n, k)[name] == table[name]
  {
    if k > 0 { RemainsUntil(table, n, k - 1, name, turn); }
  }

  /**
   * The table while its fields are removed. Fields are taken in the order of their ranks, so the
   * number `next` of fields already taken says which ones are left.
   */
  class Reader {
    const n: Naming
    ghost const table: Table
    var values: Table
    ghost var next: nat

    ghost predicate Valid() reads this {
      n.Valid() && ExactFields(table, n) && next <= REQUIRED && values == Remaining(table, n, next)
    }

    ghost function Texts(): Texts { TextsOf(table, n) }

    constructor (n: Naming, table: Table)
      requires n.Valid() && ExactFields(table, n)
      ensures Valid() && next == 0 && this.n == n && this.table == table
    {
      this.n, this.table, values, next := n, table, table, 0;
    }

    /** `take_scalar`: a missing field is an error. */
    method Take(f: Field) returns (r: Option<string>)
      modifies this
      ensures r == if n.name(f) in old(values) then Some(old(values)[n.name(f)].value) else None
      ensures values == old(values) - {n.name(f)} && next == old(next)
    {
      if n.name(f) !in values { return None; }
      r := Some(values[n.name(f)].value);
      values := values - {n.name(f)};
    }

    /** In its turn no field is missing. */
    method TakeNext(f: Field) returns (s: string)
      requires Valid() && Rank(f) == next
      modifies this
      ensures Valid() && next == old(next) + 1
      ensures s == Texts()(f)
    {
      Ranked(f);
      RemainingHas(table, n, next, f);
      var r := Take(f);
      s := r.value;
      next := next + 1;
    }

    method TakeList(f: Field) returns (r: Option<seq<string>>)
      requires Valid() && Rank(f) == next
      modifies this
      ensures Valid() && next == old(next) + 1
      ensures r == ListIn(Texts()(f))
    {
      var raw := TakeNext(f);
      var members := Split(raw);
      r := if HasEmpty(members) then None else Some(members);
    }

    method TakePaths(f: Field, safe: string -> bool) returns (r: Option<seq<string>>)
      requires Valid() && Rank(f) == next
      modifies this
      ensures Valid() && next == old(next) + 1
      ensures r == PathsIn(Texts()(f), safe)
    {
      var members := TakeList(f);
      if members.None? { return None; }
      var ok := CheckPaths(members.value, safe);
      r := if ok then members else None;
    }

    /** The three fields that must repeat what the mode fixes. */
    method TakeTarget(p: Profile) returns (ok: bool)
      requires Valid() && next == 3
      modifies this
      ensures Valid() && next == 6
      ensures ok == TargetIs(Texts(), p)
    {
      var triple := TakeNext(TargetTriple);
      var class_ := TakeNext(ElfClass);
      var machine := TakeNext(ElfMachine);
      ok := triple == p.triple && class_ == p.class_ && machine == p.machine;
    }

    /** The fixed name of the subsystem, then the mode. */
    method TakeMode(rules: Rules) returns (r: Option<Mode>)
      requires Valid() && next == 0
      modifies this
      ensures Valid() && (r.Some? ==> next == 2)
      ensures r == ModeIn(Texts(), rules)
    {
      var mmake := TakeNext(MmakeId);
      if mmake != rules.mmake { return None; }
      var modeText := TakeNext(ModeName);
      r := rules.mode(modeText);
    }

    method TakeDigests(rules: Rules) returns (r: Option<(string, string)>)
      requires Valid() && next == 6
      modifies this
      ensures Valid() && (r.Some? ==> next == 8)
      ensures r == DigestsIn(Texts(), rules)
    {
      var source := TakeNext(SourceHash);
      if !rules.digest(source) { return None; }
      var product := TakeNext(ProductHash);
      if !rules.digest(product) { return None; }
      r := Some((source, product));
    }

    method TakeIdentity(rules: Rules) returns (r: Option<Identity>)
      requires Valid() && next == 0
      modifies this
      ensures Valid() && r == IdentityIn(Texts(), rules)
      ensures r.Some? ==> next == 8
    {
      var mode := TakeMode(rules);
      if mode.None? { return None; }
      var build := TakeNext(BuildTriplet);
      if !rules.triplet(build) { return None; }
      var target := TakeTarget(rules.profile(mode.value));
      if !target { return None; }
      var digests := TakeDigests(rules);
      if digests.None? { return None; }
      r := Some(Identity(mode.value, build, digests.value.0, digests.value.1));
    }

    method TakeInputs(rules: Rules, p: Profile) returns (r: Option<Inputs>)
      requires Valid() && next == 8
      modifies this
      ensures Valid() && r == InputsIn(Texts(), rules, p)
      ensures r.Some? ==> next == 11
    {
      var headers := TakePaths(FeatureHeaders, rules.absolute);
      if headers.None? || |headers.value| != p.headers { return None; }
      var inputs := TakePaths(InputRelative, rules.relative);
      if inputs.None? { return None; }
      var hashes := TakeList(InputHashes);
      if hashes.None? || !All(hashes.value, rules.digest) || |inputs.value| != |hashes.value| { return None; }
      r := Some(Inputs(headers.value, inputs.value, hashes.value));
    }

    method TakeKinds(kind: string -> Option<Kind>) returns (r: Option<seq<Kind>>)
      requires Valid() && next == 12
      modifies this
      ensures Valid() && next == 13
      ensures r == KindListIn(Texts()(ProductKinds), kind)
    {
      var texts := TakeList(ProductKinds);
      if texts.None? { return None; }
      r := ParseKinds(texts.value, kind);
    }

    method TakeProducts(rules: Rules, p: Profile) returns (r: Option<Products>)
      requires Valid() && next == 11
      modifies this
      ensures Valid() && r == ProductsIn(Texts(), rules, p)
      ensures r.Some? ==> next == 15
    {
      var paths := TakePaths(ProductRelative, rules.relative);
      if paths.None? { return None; }
      var kinds := TakeKinds(rules.kind);
      if kinds.None? { return None; }
      var installs := TakePaths(InstallProducts, rules.absolute);
      if installs.None? || |paths.value| != p.products || |kinds.value| != p.products || |installs.value| != p.products {
        return None;
      }
      var dependencies := TakePaths(DependencyProducts, rules.absolute);
      if dependencies.None? || |dependencies.value| != DEPENDENCIES { return None; }
      r := Some(Products(paths.value, kinds.value, installs.value, dependencies.value));
    }

    method TakePathFields() returns (paths: map<PathField, string>)
      requires Valid() && next == 15
      modifies this
      ensures Valid() && next == 41
      ensures PathsAre(paths, Texts())
    {
      paths := map[];
      for i := 0 to 26
        invariant Valid() && next == 15 + i
        invariant forall p :: p in paths <==> PathRank(p) < i
        invariant forall p :: p in paths ==> paths[p] == Texts()(PathOf(p))
      {
        PathRankAt(i);
        var p := PATHS[i];
        forall q | PathRank(q) == i ensures q == p { PathRanked(q); }
        var text := TakeNext(PathOf(p));
        paths := paths[p := text];
      }
      forall p ensures PathRank(p) < 26 { PathRanked(p); }
    }

    lemma NothingLeft()
      requires Valid() && next == REQUIRED
      ensures values == map[]
    {
      forall f ensures n.name(f) !in values {
        Ranked(f);
        RemainingHas(table, n, next, f);
      }
      RemainingIsPart(table, n, next);
    }

    method TakeFlags() returns (r: Option<Flags>)
      requires Valid() && next == 41
      modifies this
      ensures Valid() && r == FlagsIn(Texts())
      ensures r.Some? ==> next == REQUIRED
    {
      var c := TakeList(Cflags);
      if c.None? { return None; }
      var cpp := TakeList(Cppflags);
      if cpp.None? { return None; }
      var asm := TakeList(Asflags);
      if asm.None? { return None; }
      var ld := TakeList(Ldflags);
      if ld.None? { return None; }
      r := Some(Flags(c.value, cpp.value, asm.value, ld.value));
    }
  }

  // ----- the whole parser -----

  /** Unknown, then missing names are looked for: together the key set is exactly the required one. */
  method CheckKeys(table: Table, n: Naming) returns (ok: bool)
    requires n.Valid()
    ensures ok <==> ExactFields(table, n)
  {
    var keys := table.Keys;
    while keys != {}
      invariant keys <= table.Keys
      invariant forall k :: k in table && k !in keys ==> n.name(n.field(k)) == k
      decreases keys
    {
      var k :| k in keys;
      if n.name(n.field(k)) != k { return false; }
      keys := keys - {k};
    }
    ok := CheckPresent(table, n);
  }

  method CheckPresent(table: Table, n: Naming) returns (ok: bool)
    ensures ok <==> forall f :: n.name(f) in table
  {
    for i := 0 to REQUIRED
      invariant forall j :: 0 <= j < i ==> n.name(FieldAt(j)) in table
    {
      if n.name(FieldAt(i)) !in table { return false; }
    }
    forall f ensures n.name(f) in table { Ranked(f); }
    ok := true;
  }

  method CheckPathFields(table: Table, n: Naming, rules: Rules) returns (ok: bool)
    ensures ok <==> forall p :: rules.absolute(TextsOf(table, n)(PathOf(p)))
  {
    ghost var t := TextsOf(table, n);
    for i := 0 to 26
      invariant forall j :: 0 <= j < i ==> rules.absolute(t(PathOf(PATHS[j])))
    {
      if !rules.absolute(TextsOf(table, n)(PathOf(PATHS[i]))) { return false; }
    }
    forall p ensures rules.absolute(t(PathOf(p))) { PathRanked(p); }
    ok := true;
  }

  /** All fields are taken in turn; at the end nothing can be left over. */
  method TakeAll(reader: Reader, rules: Rules, derived: Contract -> bool) returns (r: Outcome)
    requires reader.Valid() && reader.next == 0
    requires forall p :: rules.absolute(reader.Texts()(PathOf(p)))
    modifies reader
    ensures r != InternalError
    ensures r.Accepted? ==> Says(reader.Texts(), rules, r.contract) && derived(r.contract)
    ensures r.Refused? ==> forall c :: Says(reader.Texts(), rules, c) ==> !derived(c)
  {
    var identity := reader.TakeIdentity(rules);
    if identity.None? { return Refused; }
    var p := rules.profile(identity.value.mode);
    var inputs := reader.TakeInputs(rules, p);
    if inputs.None? { return Refused; }
    var products := reader.TakeProducts(rules, p);
    if products.None? { return Refused; }
    var paths := reader.TakePathFields();
    var flags := reader.TakeFlags();
    if flags.None? { return Refused; }
    var contract := Contract(identity.value, inputs.value, products.value, flags.value, paths);
    reader.NothingLeft();
    if reader.values != map[] { return InternalError; }
    forall c | Says(reader.Texts(), rules, c) ensures c == contract {
      SaysOneContract(reader.Texts(), rules, c, contract);
    }
    r := if derived(contract) then Accepted(contract) else Refused;
  }

  datatype Outcome = Accepted(contract: Contract) | Refused | InternalError

  /** `Contract::parse` behind the assignment table, with the derived identity checks as a parameter. */
  method ParseTable(table: Table, n: Naming, rules: Rules, derived: Contract -> bool) returns (r: Outcome)
    requires n.Valid()
    ensures r != InternalError
    ensures forall c :: r == Accepted(c) <==> ExactFields(table, n) && Says(TextsOf(table, n), rules, c) && derived(c)
  {
    var exact := CheckKeys(table, n);
    if !exact { return Refused; }
    var safe := CheckPathFields(table, n, rules);
    if !safe { return Refused; }
    var reader := new Reader(n, table);
    r := TakeAll(reader, rules, derived);
    forall c ensures r == Accepted(c) <==> Says(TextsOf(table, n), rules, c) && derived(c) {
      if r.Accepted? && Says(TextsOf(table, n), rules, c) { SaysOneContract(TextsOf(table, n), rules, c, r.contract); }
    }
  }

  /** `Contract::parse`. */
  method ParseContract(text: string, n: Naming, derived: Contract -> bool) returns (r: Outcome)
    requires n.Valid()
    ensures r != InternalError
    ensures forall c :: r == Accepted(c) <==>
      ParsedText(text).Some? && ExactFields(ParsedText(text).value, n)
      && Says(TextsOf(ParsedText(text).value, n), RULES, c) && derived(c)
  {
    var table := ParseAssignments(text);
    if table.None? { return Refused; }
    r := ParseTable(table.value, n, RULES, derived);
  }

  /** The parallel lists of an accepted contract fit together, and its counts are those of its mode. */
  lemma AcceptedListsFit(t: Texts, rules: Rules, c: Contract)
    requires Says(t, rules, c)
    ensures |c.inputs.inputs| == |c.inputs.hashes| && Unique(c.inputs.inputs)
    ensures var k := rules.profile(c.identity.mode).products;
      |c.products.paths| == k && |c.products.kinds| == k && |c.products.installs| == k
    ensures |c.inputs.headers| == rules.profile(c.identity.mode).headers && |c.products.dependencies| == DEPENDENCIES
    ensures Unique(c.products.paths) && Unique(c.products.installs)
  {
  }

  /** The audited numbers of products and headers. */
  lemma AcceptedCounts(t: Texts, c: Contract)
    requires Says(t, RULES, c)
    ensures |c.products.paths| == |c.products.kinds| == |c.products.installs| == if c.identity.mode.X86_64? then 73 else 85
    ensures |c.inputs.headers| == (if c.identity.mode.X86_64? then 2 else 4) && |c.products.dependencies| == 9
    ensures t(ModeName) == "x86_64" || t(ModeName) == "arm" || t(ModeName) == "aarch64"
    ensures t(MmakeId) == "workbench-devs-AHI-subsystem"
    ensures match c.identity.mode
      case X86_64 => t(TargetTriple) == "x86_64-unknown-aros" && t(ElfClass) == "02" && t(ElfMachine) == "3e00"
      case Arm => t(TargetTriple) == "arm-unknown-aros" && t(ElfClass) == "01" && t(ElfMachine) == "2800"
      case Aarch64 => t(TargetTriple) == "aarch64-unknown-aros" && t(ElfClass) == "02" && t(ElfMachine) == "b700"
  {
    AcceptedListsFit(t, RULES, c);
  }

  // ----- printing a contract -----

  function KindTexts(kinds: seq<Kind>, text: Kind -> string): (r: seq<string>)
    ensures |r| == |kinds|
  {
    if kinds == [] then [] else KindTexts(kinds[..|kinds| - 1], text) + [text(kinds[|kinds| - 1])]
  }

  /** The text of every field of a contract. */
  function TextsFor(c: Contract, rules: Rules): Texts {
    (f: Field) => match f
      case MmakeId => rules.mmake
      case ModeName => rules.modeText(c.identity.mode)
      case BuildTriplet => c.identity.buildTriplet
      case TargetTriple => rules.profile(c.identity.mode).triple
      case ElfClass => rules.profile(c.identity.mode).class_
      case ElfMachine => rules.profile(c.identity.mode).machine
      case SourceHash => c.identity.sourceHash
      case ProductHash => c.identity.productHash
      case FeatureHeaders => Join(c.inputs.headers)
      case InputRelative => Join(c.inputs.inputs)
      case InputHashes => Join(c.inputs.hashes)
      case ProductRelative => Join(c.products.paths)
      case ProductKinds => Join(KindTexts(c.products.kinds, rules.kindText))
      case InstallProducts => Join(c.products.installs)
      case DependencyProducts => Join(c.products.dependencies)
      case Cflags => Join(c.flags.c)
      case Cppflags => Join(c.flags.cpp)
      case Asflags => Join(c.flags.asm)
      case Ldflags => Join(c.flags.ld)
      case PathOf(p) => if p in c.paths then c.paths[p] else ""
  }

  ghost predicate PathList(s: seq<string>, safe: string -> bool) { s != [] && All(s, safe) && Unique(s) }

  ghost predicate FlagList(s: seq<string>) { s != [] && All(s, Member) }

  ghost predicate GoodIdentity(i: Identity, rules: Rules) {
    rules.triplet(i.buildTriplet) && Scalar(i.buildTriplet) && rules.digest(i.sourceHash) && rules.digest(i.productHash)
  }

  ghost predicate GoodInputs(i: Inputs, rules: Rules, p: Profile) {
    && PathList(i.headers, rules.absolute) && |i.headers| == p.headers
    && PathList(i.inputs, rules.relative)
    && All(i.hashes, rules.digest) && |i.hashes| == |i.inputs|
  }

  ghost predicate GoodProducts(q: Products, rules: Rules, p: Profile) {
    && PathList(q.paths, rules.relative) && PathList(q.installs, rules.absolute) && PathList(q.dependencies, rules.absolute)
    && |q.paths| == |q.kinds| == |q.installs| == p.products && |q.dependencies| == DEPENDENCIES
  }

  ghost predicate GoodFlags(f: Flags) { FlagList(f.c) && FlagList(f.cpp) && FlagList(f.asm) && FlagList(f.ld) }

  /** A contract that can be written down. */
  ghost predicate WellFormed(c: Contract, rules: Rules) {
    && GoodIdentity(c.identity, rules)
    && GoodInputs(c.inputs, rules, rules.profile(c.identity.mode))
    && GoodProducts(c.products, rules, rules.profile(c.identity.mode))
    && GoodFlags(c.flags)
    && (forall p :: p in c.paths && rules.absolute(c.paths[p]))
  }

  lemma ListRoundTrip(members: seq<string>)
    requires members != [] && All(members, Member)
    ensures ListIn(Join(members)) == Some(members)
  {
    SplitJoin(members);
  }

  lemma {:induction false} JoinIsScalar(members: seq<string>)
    requires members != [] && All(members, Member)
    ensures Scalar(Join(members))
  {
    if |members| > 1 {
      assert All(members[1..], Member);
      JoinIsScalar(members[1..]);
      JoinedText(members[0], Join(members[1..]));
    }
  }

  lemma JoinedText(a: string, b: string)
    requires Scalar(a) && Scalar(b)
    ensures Scalar(a + ";" + b)
  {
  }

  lemma KindsInSnoc(s: seq<string>, last: string, kind: string -> Option<Kind>)
    requires KindsIn(s, kind).Some? && kind(last).Some?
    ensures KindsIn(s + [last], kind) == Some(KindsIn(s, kind).value + [kind(last).value])
  {
    assert (s + [last])[..|s|] == s;
  }

  lemma {:induction false} KindTextsAre(kinds: seq<Kind>, text: Kind -> string, ok: string -> bool)
    requires forall k :: ok(text(k))
    ensures All(KindTexts(kinds, text), ok)
  {
    if kinds != [] { KindTextsAre(kinds[..|kinds| - 1], text, ok); }
  }

  lemma {:induction false} KindsRoundTrip(kinds: seq<Kind>, text: Kind -> string, kind: string -> Option<Kind>)
    requires forall k :: kind(text(k)) == Some(k)
    ensures KindsIn(KindTexts(kinds, text), kind) == Some(kinds)
  {
    if kinds != [] {
      var rest, last := kinds[..|kinds| - 1], kinds[|kinds| - 1];
      KindsRoundTrip(rest, text, kind);
      KindsInSnoc(KindTexts(rest, text), text(last), kind);
      assert kinds == rest + [last];
    }
  }

  lemma PathListRoundTrip(s: seq<string>, safe: string -> bool)
    requires PathList(s, safe) && forall x :: safe(x) ==> Member(x)
    ensures PathsIn(Join(s), safe) == Some(s) && Scalar(Join(s))
  {
    ListRoundTrip(s);
    JoinIsScalar(s);
  }

  lemma InputsRoundTrip(i: Inputs, rules: Rules, p: Profile, t: Texts)
    requires Lawful(rules) && GoodInputs(i, rules, p)
    requires t(FeatureHeaders) == Join(i.headers) && t(InputRelative) == Join(i.inputs) && t(InputHashes) == Join(i.hashes)
    ensures InputsIn(t, rules, p) == Some(i)
    ensures Scalar(t(FeatureHeaders)) && Scalar(t(InputRelative)) && Scalar(t(InputHashes))
  {
    PathListRoundTrip(i.headers, rules.absolute);
    PathListRoundTrip(i.inputs, rules.relative);
    assert All(i.hashes, Member);
    ListRoundTrip(i.hashes);
    JoinIsScalar(i.hashes);
  }

  lemma ProductsRoundTrip(q: Products, rules: Rules, p: Profile, t: Texts)
    requires Lawful(rules) && GoodProducts(q, rules, p)
    requires t(ProductRelative) == Join(q.paths) && t(ProductKinds) == Join(KindTexts(q.kinds, rules.kindText))
    requires t(InstallProducts) == Join(q.installs) && t(DependencyProducts) == Join(q.dependencies)
    ensures ProductsIn(t, rules, p) == Some(q)
    ensures Scalar(t(ProductRelative)) && Scalar(t(ProductKinds)) && Scalar(t(InstallProducts)) && Scalar(t(DependencyProducts))
  {
    PathListRoundTrip(q.paths, rules.relative);
    PathListRoundTrip(q.installs, rules.absolute);
    PathListRoundTrip(q.dependencies, rules.absolute);
    KindsRoundTrip(q.kinds, rules.kindText, rules.kind);
    KindTextsAre(q.kinds, rules.kindText, Member);
    ListRoundTrip(KindTexts(q.kinds, rules.kindText));
    JoinIsScalar(KindTexts(q.kinds, rules.kindText));
  }

  lemma FlagsRoundTrip(f: Flags, t: Texts)
    requires GoodFlags(f)
    requires t(Cflags) == Join(f.c) && t(Cppflags) == Join(f.cpp) && t(Asflags) == Join(f.asm) && t(Ldflags) == Join(f.ld)
    ensures FlagsIn(t) == Some(f)
    ensures Scalar(t(Cflags)) && Scalar(t(Cppflags)) && Scalar(t(Asflags)) && Scalar(t(Ldflags))
  {
    ListRoundTrip(f.c);
    ListRoundTrip(f.cpp);
    ListRoundTrip(f.asm);
    ListRoundTrip(f.ld);
    JoinIsScalar(f.c);
    JoinIsScalar(f.cpp);
    JoinIsScalar(f.asm);
    JoinIsScalar(f.ld);
  }

  lemma IdentityRoundTrip(i: Identity, rules: Rules, t: Texts)
    requires Lawful(rules) && GoodIdentity(i, rules)
    requires t(MmakeId) == rules.mmake && t(ModeName) == rules.modeText(i.mode) && t(BuildTriplet) == i.buildTriplet
    requires var p := rules.profile(i.mode); t(TargetTriple) == p.triple && t(ElfClass) == p.class_ && t(ElfMachine) == p.machine
    requires t(SourceHash) == i.sourceHash && t(ProductHash) == i.productHash
    ensures IdentityIn(t, rules) == Some(i)
  {
  }

  ghost predicate Agrees(t: Texts, c: Contract, rules: Rules) { forall f :: t(f) == TextsFor(c, rules)(f) }

  lemma IdentityAgrees(c: Contract, rules: Rules, t: Texts)
    requires Lawful(rules) && GoodIdentity(c.identity, rules) && Agrees(t, c, rules)
    ensures IdentityIn(t, rules) == Some(c.identity)
  {
    IdentityRoundTrip(c.identity, rules, t);
  }

  lemma InputsAgree(c: Contract, rules: Rules, t: Texts, p: Profile)
    requires Lawful(rules) && GoodInputs(c.inputs, rules, p) && Agrees(t, c, rules)
    ensures InputsIn(t, rules, p) == Some(c.inputs)
    ensures Scalar(t(FeatureHeaders)) && Scalar(t(InputRelative)) && Scalar(t(InputHashes))
  {
    InputsRoundTrip(c.inputs, rules, p, t);
  }

  lemma ProductsAgree(c: Contract, rules: Rules, t: Texts, p: Profile)
    requires Lawful(rules) && GoodProducts(c.products, rules, p) && Agrees(t, c, rules)
    ensures ProductsIn(t, rules, p) == Some(c.products)
    ensures Scalar(t(ProductRelative)) && Scalar(t(ProductKinds)) && Scalar(t(InstallProducts)) && Scalar(t(DependencyProducts))
  {
    ProductsRoundTrip(c.products, rules, p, t);
  }

  lemma FlagsAgree(c: Contract, rules: Rules, t: Texts)
    requires GoodFlags(c.flags) && Agrees(t, c, rules)
    ensures FlagsIn(t) == Some(c.flags)
    ensures Scalar(t(Cflags)) && Scalar(t(Cppflags)) && Scalar(t(Asflags)) && Scalar(t(Ldflags))
  {
    FlagsRoundTrip(c.flags, t);
  }

  lemma PathsAgree(c: Contract, rules: Rules, t: Texts)
    requires (forall p :: p in c.paths && rules.absolute(c.paths[p])) && Agrees(t, c, rules)
    ensures PathsAre(c.paths, t) && forall p :: rules.absolute(t(PathOf(p)))
  {
    forall p ensures t(PathOf(p)) == c.paths[p] { assert t(PathOf(p)) == TextsFor(c, rules)(PathOf(p)); }
  }

  /** Texts that agree with a well-formed contract say that contract. */
  lemma TextsSay(c: Contract, rules: Rules, t: Texts)
    requires Lawful(rules) && WellFormed(c, rules) && Agrees(t, c, rules)
    ensures Says(t, rules, c)
  {
    IdentityAgrees(c, rules, t);
    InputsAgree(c, rules, t, rules.profile(c.identity.mode));
    ProductsAgree(c, rules, t, rules.profile(c.identity.mode));
    FlagsAgree(c, rules, t);
    PathsAgree(c, rules, t);
  }

  /** All texts of a well-formed contract can be printed. */
  lemma TextsAreScalars(c: Contract, rules: Rules, t: Texts, f: Field)
    requires Lawful(rules) && WellFormed(c, rules) && Agrees(t, c, rules)
    ensures Scalar(t(f))
  {
    InputsAgree(c, rules, t, rules.profile(c.identity.mode));
    ProductsAgree(c, rules, t, rules.profile(c.identity.mode));
    FlagsAgree(c, rules, t);
    PathsAgree(c, rules, t);
  }

  /** The entries print every field of the contract once, in any order. */
  ghost predicate Prints(entries: seq<Entry>, n: Naming, t: Texts) {
    && DistinctNames(entries)
    && (forall e :: e in entries ==> exists f :: e == Entry(n.name(f), t(f)))
    && (forall f :: Entry(n.name(f), t(f)) in entries)
  }

  lemma PrintedTable(entries: seq<Entry>, n: Naming, t: Texts)
    requires n.Valid() && Prints(entries, n, t)
    ensures ExactFields(TableOf(entries), n)
    ensures forall f :: TextsOf(TableOf(entries), n)(f) == t(f)
  {
    forall f ensures n.name(f) in TableOf(entries) && TableOf(entries)[n.name(f)].value == t(f) {
      var i :| 0 <= i < |entries| && entries[i] == Entry(n.name(f), t(f));
      TableLookup(entries, i);
    }
    forall k | k in TableOf(entries) ensures n.name(n.field(k)) == k {
      NamesOfTable(entries, k);
      var i :| 0 <= i < |entries| && entries[i].name == k;
      assert entries[i] in entries;
    }
  }

  /**
   * Printing every field of a well-formed contract, the lines in any order, gives a text that
   * `ParseContract` reads back as exactly this contract.
   */
  lemma ContractRoundTrip(c: Contract, n: Naming, entries: seq<Entry>)
    requires WellFormed(c, RULES) && n.Valid() && forall f :: LegalName(n.name(f))
    requires Prints(entries, n, TextsFor(c, RULES))
    ensures var table := ParsedText(Print(entries, PrintLine));
      table.Some? && ExactFields(table.value, n) && Says(TextsOf(table.value, n), RULES, c)
  {
    var t := TextsFor(c, RULES);
    RulesAreLawful();
    forall f ensures Scalar(t(f)) { TextsAreScalars(c, RULES, t, f); }
    PrintableEntries(entries, n, t);
    RoundTrip(entries);
    PrintedTable(entries, n, t);
    TextsSay(c, RULES, TextsOf(TableOf(entries), n));
  }

  lemma PrintableEntries(entries: seq<Entry>, n: Naming, t: Texts)
    requires (forall f :: Scalar(t(f)) && LegalName(n.name(f))) && Prints(entries, n, t)
    ensures AllLegal(entries) && entries != []
  {
    forall i | 0 <= i < |entries| ensures LegalEntry(entries[i]) {
      assert entries[i] in entries;
      var f :| entries[i] == Entry(n.name(f), t(f));
      assert Scalar(t(f));
    }
    assert Entry(n.name(MmakeId), t(MmakeId)) in entries;
  }
}
