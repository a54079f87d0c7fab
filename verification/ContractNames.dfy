/**
 * The spellings of the 45 contract fields, with their inverse, and the printer of whole contracts:
 * the naming that the contract parser is used with.
 */
module ContractNames {
  import opened Wrappers
  import opened ContractFile
  import opened ContractFields
  import opened ContractParse

  function PathName(p: PathField): string {
    match p
    case SourceRoot => "AHI_SOURCE_ROOT"
    case EngineRoot => "AHI_ENGINE_ROOT"
    case BuildRoot => "AHI_BUILD_ROOT"
    case SourceDir => "AHI_SOURCE_DIR"
    case SourceManifest => "AHI_SOURCE_MANIFEST"
    case ProductManifest => "AHI_PRODUCT_MANIFEST"
    case BinaryDir => "AHI_BINARY_DIR"
    case StageSource => "AHI_STAGE_SOURCE"
    case StageBuild => "AHI_STAGE_BUILD"
    case StageLinklibs => "AHI_STAGE_LINKLIBS"
    case InstallPrefix => "AHI_INSTALL_PREFIX"
    case HostSfdc => "AHI_HOST_SFDC"
    case HostPerl => "AHI_HOST_PERL"
    case HostFlexcat => "AHI_HOST_FLEXCAT"
    case Flexcat => "AHI_FLEXCAT"
    case Make => "AHI_MAKE"
    case Cc => "AHI_CC"
    case Collect => "AHI_COLLECT"
    case Assembler => "AHI_AS"
    case Ar => "AHI_AR"
    case Ranlib => "AHI_RANLIB"
    case Objcopy => "AHI_OBJCOPY"
    case Strip => "AHI_STRIP"
    case Lld => "AHI_LLD"
    case SdkInclude => "AHI_SDK_INCLUDE"
    case GenInclude => "AHI_GEN_INCLUDE"
  }

  function Name(f: Field): string {
    match f
    case MmakeId => "AHI_MMAKE_ID"
    case ModeName => "AHI_MODE"
    case BuildTriplet => "AHI_BUILD_TRIPLET"
    case TargetTriple => "AHI_TARGET_TRIPLE"
    case ElfClass => "AHI_ELF_CLASS"
    case ElfMachine => "AHI_ELF_MACHINE_HEX"
    case SourceHash => "AHI_SOURCE_MANIFEST_SHA256"
    case ProductHash => "AHI_PRODUCT_MANIFEST_SHA256"
    case FeatureHeaders => "AHI_FEATURE_HEADERS"
    case InputRelative => "AHI_INPUT_RELATIVE"
    case InputHashes => "AHI_INPUT_SHA256"
    case ProductRelative => "AHI_PRODUCT_RELATIVE"
    case ProductKinds => "AHI_PRODUCT_KINDS"
    case InstallProducts => "AHI_INSTALL_PRODUCTS"
    case DependencyProducts => "AHI_DEPENDENCY_PRODUCTS"
    case Cflags => "AHI_TARGET_CFLAGS"
    case Cppflags => "AHI_TARGET_CPPFLAGS"
    case Asflags => "AHI_TARGET_ASFLAGS"
    case Ldflags => "AHI_TARGET_LDFLAGS"
    case PathOf(p) => PathName(p)
  }

  /** The field of a spelling, told apart by its length and one letter. */
  function FieldNamed(s: string): Field {
    match |s|
    case 6 => if s[5] == 'C' then PathOf(Cc) else if s[5] == 'S' then PathOf(Assembler) else PathOf(Ar)
    case 7 => PathOf(Lld)
    case 8 => if s[5] == 'O' then ModeName else PathOf(Make)
    case 9 => PathOf(Strip)
    case 10 => PathOf(Ranlib)
    case 11 => if s[4] == 'F' then PathOf(Flexcat) else if s[4] == 'C' then PathOf(Collect) else PathOf(Objcopy)
    case 12 => MmakeId
    case 13 => if s[9] == 'L' then ElfClass else if s[9] == 'S' then PathOf(HostSfdc) else PathOf(HostPerl)
    case 14 => if s[5] == 'U' then PathOf(BuildRoot) else if s[5] == 'O' then PathOf(SourceDir) else PathOf(BinaryDir)
    case 15 => if s[5] == 'O' then PathOf(SourceRoot) else if s[5] == 'N' then PathOf(EngineRoot) else if s[5] == 'T' then PathOf(StageBuild) else if s[5] == 'D' then PathOf(SdkInclude) else PathOf(GenInclude)
    case 16 => if s[4] == 'I' then InputHashes else if s[4] == 'S' then PathOf(StageSource) else PathOf(HostFlexcat)
    case 17 => if s[11] == 'R' then BuildTriplet else if s[11] == 'T' then TargetTriple else if s[11] == '_' then ProductKinds else Cflags
    case 18 => if s[11] == 'E' then InputRelative else if s[11] == 'A' then Asflags else if s[11] == 'L' then Ldflags else if s[11] == 'I' then PathOf(StageLinklibs) else PathOf(InstallPrefix)
    case 19 => if s[4] == 'E' then ElfMachine else if s[4] == 'F' then FeatureHeaders else if s[4] == 'T' then Cppflags else PathOf(SourceManifest)
    case 20 => if s[12] == 'R' then ProductRelative else if s[12] == 'P' then InstallProducts else PathOf(ProductManifest)
    case 23 => DependencyProducts
    case 26 => SourceHash
    case 27 => ProductHash
    case _ => MmakeId
  }

  const NAMES: Naming := Naming(Name, FieldNamed)

  lemma RootsNamed(p: PathField)
    requires 0 <= PathRank(p) < 7
    ensures FieldNamed(PathName(p)) == PathOf(p) && LegalName(PathName(p))
  {
  }

  lemma StagesNamed(p: PathField)
    requires 7 <= PathRank(p) < 13
    ensures FieldNamed(PathName(p)) == PathOf(p) && LegalName(PathName(p))
  {
  }

  lemma HostToolsNamed(p: PathField)
    requires 13 <= PathRank(p) < 19
    ensures FieldNamed(PathName(p)) == PathOf(p) && LegalName(PathName(p))
  {
  }

  lemma TargetToolsNamed(p: PathField)
    requires 19 <= PathRank(p) < 26
    ensures FieldNamed(PathName(p)) == PathOf(p) && LegalName(PathName(p))
  {
  }

  lemma IdentityNamed(f: Field)
    requires 0 <= Rank(f) < 4 && !f.PathOf?
    ensures FieldNamed(Name(f)) == f && LegalName(Name(f))
  {
  }

  lemma TargetNamed(f: Field)
    requires 4 <= Rank(f) < 6 && !f.PathOf?
    ensures FieldNamed(Name(f)) == f && LegalName(Name(f))
  {
  }

  lemma HashesNamed(f: Field)
    requires 6 <= Rank(f) < 8 && !f.PathOf?
    ensures FieldNamed(Name(f)) == f && LegalName(Name(f))
  {
  }

  lemma InputsNamed(f: Field)
    requires 8 <= Rank(f) < 10 && !f.PathOf?
    ensures FieldNamed(Name(f)) == f && LegalName(Name(f))
  {
  }

  lemma ListsNamed(f: Field)
    requires 10 <= Rank(f) < 12 && !f.PathOf?
    ensures FieldNamed(Name(f)) == f && LegalName(Name(f))
  {
  }

  lemma ProductsNamed(f: Field)
    requires 12 <= Rank(f) < 15 && !f.PathOf?
    ensures FieldNamed(Name(f)) == f && LegalName(Name(f))
  {
  }

  lemma FlagsNamed(f: Field)
    requires 41 <= Rank(f) < 45 && !f.PathOf?
    ensures FieldNamed(Name(f)) == f && LegalName(Name(f))
  {
  }

  lemma PathNamed(p: PathField)
    ensures FieldNamed(PathName(p)) == PathOf(p) && LegalName(PathName(p))
  {
    PathRanked(p);
    var k := PathRank(p);
    if k < 7 { RootsNamed(p); } else if k < 13 { StagesNamed(p); } else if k < 19 { HostToolsNamed(p); } else { TargetToolsNamed(p); }
  }

  /** Every spelling is a legal name and stands for its own field. */
  lemma Named(f: Field)
    ensures FieldNamed(Name(f)) == f && LegalName(Name(f))
  {
    Ranked(f);
    if f.PathOf? { PathNamed(f.path); }
    else if Rank(f) < 4 { IdentityNamed(f); }
    else if Rank(f) < 6 { TargetNamed(f); }
    else if Rank(f) < 8 { HashesNamed(f); }
    else if Rank(f) < 10 { InputsNamed(f); }
    else if Rank(f) < 12 { ListsNamed(f); }
    else if Rank(f) < 15 { ProductsNamed(f); }
    else { FlagsNamed(f); }
  }

  lemma NamesAreValid()
    ensures NAMES.Valid() && forall f :: LegalName(NAMES.name(f))
  {
    forall f ensures NAMES.field(NAMES.name(f)) == f && LegalName(NAMES.name(f)) { Named(f); }
  }

  // ----- printing a whole contract -----

  /** One line per required field, in the order in which the parser takes them. */
  function EntriesOf(t: Texts, n: Naming): (r: seq<Entry>)
    ensures |r| == REQUIRED
  {
    seq(REQUIRED, i requires 0 <= i < REQUIRED => Entry(n.name(FieldAt(i)), t(FieldAt(i))))
  }

  lemma EntriesPrint(t: Texts, n: Naming)
    requires n.Valid()
    ensures Prints(EntriesOf(t, n), n, t)
  {
    var entries := EntriesOf(t, n);
    forall i, j | 0 <= i < j < |entries| ensures entries[i].name != entries[j].name {
      NameAt(n, i, FieldAt(j));
      RankAt(j);
    }
    DistinctNamesMeans(entries);
    forall f ensures Entry(n.name(f), t(f)) in entries {
      Ranked(f);
      assert entries[Rank(f)] == Entry(n.name(f), t(f));
    }
  }

  /** The contract file of a contract. */
  function PrintContract(c: Contract): string {
    Print(EntriesOf(TextsFor(c, RULES), NAMES), PrintLine)
  }

  /** Every well-formed contract survives being written down and parsed, with the real field names. */
  method WriteAndParse(c: Contract, derived: Contract -> bool) returns (r: Outcome)
    requires WellFormed(c, RULES)
    ensures r == if derived(c) then Accepted(c) else Refused
  {
    NamesAreValid();
    EntriesPrint(TextsFor(c, RULES), NAMES);
    ContractRoundTrip(c, NAMES, EntriesOf(TextsFor(c, RULES), NAMES));
    r := ParseContract(PrintContract(c), NAMES, derived);
    Decided(c, PrintContract(c), NAMES, derived, r);
  }

  /** A text that says one contract is accepted as that contract, or refused by the derived checks. */
  lemma Decided(c: Contract, text: string, n: Naming, derived: Contract -> bool, r: Outcome)
    requires ParsedText(text).Some? && ExactFields(ParsedText(text).value, n)
    requires Says(TextsOf(ParsedText(text).value, n), RULES, c) && r != InternalError
    requires forall d :: r == Accepted(d) <==> Says(TextsOf(ParsedText(text).value, n), RULES, d) && derived(d)
    ensures r == if derived(c) then Accepted(c) else Refused
  {
    if r.Accepted? { SaysOneContract(TextsOf(ParsedText(text).value, n), RULES, c, r.contract); }
  }

  // ----- sample values -----

  function Stripe(n: nat): (s: string)
    ensures |s| == n && forall i :: 0 <= i < n ==> s[i] == 'a'
  {
    seq(n, _ => 'a')
  }

  lemma StripeIsRelative(n: nat)
    requires n > 0
    ensures SafeRelative(Stripe(n))
  {
    var s := Stripe(n);
    FindNothing(s, "/");
    FindNothing(s, "==]");
    assert s[..n] == s && s[0] == 'a';
  }

  lemma StripeIsAbsolute(n: nat)
    ensures SafeAbsolute("/" + Stripe(n))
  {
    var s := "/" + Stripe(n);
    assert forall i :: 0 <= i < |s| ==> s[i] == '/' || s[i] == 'a';
    FindNothing(s, "==]");
  }

  /** As many different safe paths as asked for. */
  function Relatives(n: nat): (r: seq<string>)
    ensures |r| == n
  {
    seq(n, i requires 0 <= i < n => Stripe(i + 1))
  }

  function Absolutes(n: nat): (r: seq<string>)
    ensures |r| == n
  {
    seq(n, i requires 0 <= i < n => "/" + Stripe(i + 1))
  }

  lemma RelativesAreGood(n: nat)
    requires n > 0
    ensures PathList(Relatives(n), SafeRelative)
  {
    var r := Relatives(n);
    forall i | 0 <= i < n ensures SafeRelative(r[i]) { StripeIsRelative(i + 1); }
    forall i, j | 0 <= i < j < n ensures r[i] != r[j] { assert |r[i]| == i + 1 && |r[j]| == j + 1; }
  }

  lemma AbsolutesAreGood(n: nat)
    requires n > 0
    ensures PathList(Absolutes(n), SafeAbsolute)
  {
    var r := Absolutes(n);
    forall i | 0 <= i < n ensures SafeAbsolute(r[i]) { StripeIsAbsolute(i + 1); }
    forall i, j | 0 <= i < j < n ensures r[i] != r[j] { assert |r[i]| == i + 2 && |r[j]| == j + 2; }
  }
}
