/**
 * The typed half of the AHI contract parser: every required field is present, is taken out of the
 * table exactly once, and the parallel lists fit together. Field spellings are any injective naming.
 */
module ContractFields {
  import opened Wrappers
  import opened ContractFile

  datatype PathField =
    | SourceRoot | EngineRoot | BuildRoot | SourceDir | SourceManifest | ProductManifest | BinaryDir | StageSource
    | StageBuild | StageLinklibs | InstallPrefix | HostSfdc | HostPerl | HostFlexcat | Flexcat | Make | Cc | Collect
    | Assembler | Ar | Ranlib | Objcopy | Strip | Lld | SdkInclude | GenInclude

  datatype Field =
    | MmakeId | ModeName | BuildTriplet | TargetTriple | ElfClass | ElfMachine | SourceHash | ProductHash
    | FeatureHeaders | InputRelative | InputHashes | ProductRelative | ProductKinds | InstallProducts
    | DependencyProducts | Cflags | Cppflags | Asflags | Ldflags
    | PathOf(path: PathField)

  /** The order in which the typed parser takes the fields: these, then the paths, then the flags. */
  const TYPED: seq<Field> := [
    MmakeId, ModeName, BuildTriplet, TargetTriple, ElfClass, ElfMachine, SourceHash, ProductHash,
    FeatureHeaders, InputRelative, InputHashes, ProductRelative, ProductKinds, InstallProducts, DependencyProducts]

  const PATHS: seq<PathField> := [
    SourceRoot, EngineRoot, BuildRoot, SourceDir, SourceManifest, ProductManifest, BinaryDir, StageSource,
    StageBuild, StageLinklibs, InstallPrefix, HostSfdc, HostPerl, HostFlexcat, Flexcat, Make, Cc, Collect,
    Assembler, Ar, Ranlib, Objcopy, Strip, Lld, SdkInclude, GenInclude]

  const FLAGS: seq<Field> := [Cflags, Cppflags, Asflags, Ldflags]

  /** The field taken as number `i`. */
  function FieldAt(i: nat): Field
    requires i < REQUIRED
  {
    if i < 15 then TYPED[i] else if i < 41 then PathOf(PATHS[i - 15]) else FLAGS[i - 41]
  }

  const REQUIRED: nat := 45

  function PathRank(p: PathField): nat {
    match p
    case SourceRoot => 0 case EngineRoot => 1 case BuildRoot => 2 case SourceDir => 3 case SourceManifest => 4
    case ProductManifest => 5 case BinaryDir => 6 case StageSource => 7 case StageBuild => 8 case StageLinklibs => 9
    case InstallPrefix => 10 case HostSfdc => 11 case HostPerl => 12 case HostFlexcat => 13 case Flexcat => 14
    case Make => 15 case Cc => 16 case Collect => 17 case Assembler => 18 case Ar => 19 case Ranlib => 20
    case Objcopy => 21 case Strip => 22 case Lld => 23 case SdkInclude => 24 case GenInclude => 25
  }

  function Rank(f: Field): nat {
    match f
    case MmakeId => 0 case ModeName => 1 case BuildTriplet => 2 case TargetTriple => 3 case ElfClass => 4
    case ElfMachine => 5 case SourceHash => 6 case ProductHash => 7 case FeatureHeaders => 8 case InputRelative => 9
    case InputHashes => 10 case ProductRelative => 11 case ProductKinds => 12 case InstallProducts => 13
    case DependencyProducts => 14 case PathOf(p) => 15 + PathRank(p)
    case Cflags => 41 case Cppflags => 42 case Asflags => 43 case Ldflags => 44
  }

  lemma PathRanked(p: PathField)
    ensures PathRank(p) < 26 && PATHS[PathRank(p)] == p
  {
  }

  /** The order is complete: every field is the one taken at its rank. */
  lemma Ranked(f: Field)
    ensures Rank(f) < REQUIRED && FieldAt(Rank(f)) == f
  {
    if f.PathOf? { PathRanked(f.path); }
  }

  /** The paths stand in the order of their ranks. */
  lemma PathRankAt(i: nat)
    requires i < 26
    ensures PathRank(PATHS[i]) == i
  {
  }

  /** No field is taken twice. */
  lemma RankAt(i: nat)
    requires i < REQUIRED
    ensures Rank(FieldAt(i)) == i
  {
    if 15 <= i < 41 { PathRankAt(i - 15); }
  }

  // ----- values -----

  datatype Mode = X86_64 | Arm | Aarch64

  datatype Kind = Elf | Data | ModeFile

  /** What a mode fixes: target triple, ELF class and machine, and the number of products and headers. */
  datatype Profile = Profile(triple: string, class_: string, machine: string, products: nat, headers: nat)

  function ProfileOf(m: Mode): Profile {
    match m
    case X86_64 => Profile("x86_64-unknown-aros", "02", "3e00", 73, 2)
    case Arm => Profile("arm-unknown-aros", "01", "2800", 85, 4)
    case Aarch64 => Profile("aarch64-unknown-aros", "02", "b700", 85, 4)
  }

  const DEPENDENCIES: nat := 9

  /** The checks on single texts. */
  datatype Rules = Rules(
    mmake: string,
    absolute: string -> bool,
    relative: string -> bool,
    digest: string -> bool,
    triplet: string -> bool,
    mode: string -> Option<Mode>,
    modeText: Mode -> string,
    kind: string -> Option<Kind>,
    kindText: Kind -> string,
    profile: Mode -> Profile)

  predicate AnyOf(s: string, bad: string) { exists i :: 0 <= i < |s| && s[i] in bad }

  predicate Contains(s: string, pattern: string)
    requires pattern != []
  {
    Find(s, pattern) < |s|
  }

  predicate SafeAbsolute(s: string) {
    s != [] && s[0] == '/' && !AnyOf(s, ";\"$\\\r\n \t\U{0c}") && !Contains(s, "==]")
  }

  /** Components are separated by slashes; neither the current nor the parent directory may be named. */
  predicate NoDotComponents(s: string)
    decreases |s|
  {
    var i := Find(s, "/");
    s[..i] != "." && s[..i] != ".." && (i < |s| ==> NoDotComponents(s[i + 1..]))
  }

  predicate SafeRelative(s: string) {
    s != [] && s[0] != '/' && NoDotComponents(s) && !AnyOf(s, ";\"$\\\r\n") && !Contains(s, "==]")
  }

  predicate DigestText(s: string) {
    |s| == 64 && forall i :: 0 <= i < |s| ==> '0' <= s[i] <= '9' || 'a' <= s[i] <= 'f'
  }

  predicate TripletText(s: string) {
    forall i :: 0 <= i < |s| ==>
      '0' <= s[i] <= '9' || 'a' <= s[i] <= 'z' || 'A' <= s[i] <= 'Z' || s[i] in "_.+-"
  }

  function ModeText(m: Mode): string {
    match m case X86_64 => "x86_64" case Arm => "arm" case Aarch64 => "aarch64"
  }

  function ParseMode(s: string): Option<Mode> {
    if s == "x86_64" then Some(X86_64) else if s == "arm" then Some(Arm)
    else if s == "aarch64" then Some(Aarch64) else None
  }

  function KindText(k: Kind): string {
    match k case Elf => "elf" case Data => "data" case ModeFile => "mode"
  }

  function ParseKind(s: string): Option<Kind> {
    if s == "elf" then Some(Elf) else if s == "data" then Some(Data)
    else if s == "mode" then Some(ModeFile) else None
  }

  const RULES: Rules := Rules(
    "workbench-devs-AHI-subsystem", SafeAbsolute, SafeRelative, DigestText, TripletText,
    ParseMode, ModeText, ParseKind, KindText, ProfileOf)

  /** A text that can be one member of a list. */
  predicate Member(s: string) { s != [] && NoSeparator(s) && NewlineFree(s) }

  predicate Scalar(s: string) { s != [] && NewlineFree(s) }

  /** What the round trip needs of the checks. */
  ghost predicate Lawful(rules: Rules) {
    && Scalar(rules.mmake)
    && (forall s :: rules.absolute(s) ==> Member(s))
    && (forall s :: rules.relative(s) ==> Member(s))
    && (forall s :: rules.digest(s) ==> Member(s))
    && (forall m :: rules.mode(rules.modeText(m)) == Some(m) && Scalar(rules.modeText(m)))
    && (forall k :: rules.kind(rules.kindText(k)) == Some(k) && Member(rules.kindText(k)))
    && (forall m :: rules.profile(m).products > 0 && rules.profile(m).headers > 0)
    && (forall m :: Scalar(rules.profile(m).triple) && Scalar(rules.profile(m).class_) && Scalar(rules.profile(m).machine))
  }

  lemma CleanTextIsMember(s: string, bad: string)
    requires s != [] && !AnyOf(s, bad) && ';' in bad && '\n' in bad
    ensures Member(s)
  {
  }

  lemma AbsoluteIsMember(s: string)
    requires SafeAbsolute(s)
    ensures Member(s)
  {
    var bad := ";\"$\\\r\n \t\U{0c}";
    assert bad[0] == ';' && bad[5] == '\n';
    CleanTextIsMember(s, bad);
  }

  lemma RelativeIsMember(s: string)
    requires SafeRelative(s)
    ensures Member(s)
  {
    var bad := ";\"$\\\r\n";
    assert bad[0] == ';' && bad[5] == '\n';
    CleanTextIsMember(s, bad);
  }

  lemma ModesParse(m: Mode)
    ensures ParseMode(ModeText(m)) == Some(m) && Scalar(ModeText(m))
  {
    assert "x86_64"[0] == 'x' && "arm"[0] == 'a' && "aarch64"[0] == 'a' && "arm"[1] != "aarch64"[1];
  }

  lemma ProfilesAreScalars(m: Mode)
    ensures var p := ProfileOf(m); Scalar(p.triple) && Scalar(p.class_) && Scalar(p.machine)
  {
  }

  lemma KindsParse(k: Kind)
    ensures ParseKind(KindText(k)) == Some(k) && Member(KindText(k))
  {
    assert "elf"[0] == 'e' && "data"[0] == 'd' && "mode"[0] == 'm';
  }

  /** A character that could end or escape a value is refused anywhere in a path. */
  lemma UnsafeIsRefused(s: string, i: nat)
    requires i < |s|
    ensures s[i] in {';', '\"', '$', '\\', '\r', '\n'} ==> !SafeAbsolute(s) && !SafeRelative(s)
    ensures s[i] == ' ' || s[i] == '\t' ==> !SafeAbsolute(s)
  {
    var a, r := ";\"$\\\r\n \t\U{0c}", ";\"$\\\r\n";
    assert a[0] == ';' && a[1] == '\"' && a[2] == '$' && a[3] == '\\' && a[4] == '\r' && a[5] == '\n' && a[6] == ' ' && a[7] == '\t';
    assert r[0] == ';' && r[1] == '\"' && r[2] == '$' && r[3] == '\\' && r[4] == '\r' && r[5] == '\n';
  }

  lemma {:induction false} DotsInTail(head: string, tail: string)
    requires NoDotComponents(head + "/" + tail)
    ensures NoDotComponents(tail)
    decreases |head|
  {
    var s := head + "/" + tail;
    var i := Find(s, "/");
    SlashFoundBy(s, |head|);
    TailOfJoined(head, tail, i);
    if i < |head| { DotsInTail(head[i + 1..], tail); }
  }

  lemma TailOfJoined(head: string, tail: string, i: nat)
    requires i <= |head|
    ensures (head + "/" + tail)[i + 1..] == if i == |head| then tail else head[i + 1..] + "/" + tail
  {
  }

  lemma {:induction false} SlashFoundBy(s: string, k: nat)
    requires k < |s| && s[k] == '/'
    ensures Find(s, "/") <= k
  {
    if k > 0 && !("/" <= s) { SlashFoundBy(s[1..], k - 1); }
  }

  /** A parent directory component is refused wherever it stands. */
  lemma ParentIsRefused(head: string, tail: string)
    ensures !SafeRelative(head + "/" + ("../" + tail))
  {
    var inner := "../" + tail;
    assert inner == ".." + "/" + tail;
    FindAt("..", "/", tail);
    assert inner[..2] == "..";
    assert !NoDotComponents(inner);
    if NoDotComponents(head + "/" + inner) { DotsInTail(head, inner); }
  }

  /** The contract's own checks are lawful. */
  lemma RulesAreLawful()
    ensures Lawful(RULES)
  {
    forall s | RULES.absolute(s) ensures Member(s) { AbsoluteIsMember(s); }
    forall s | RULES.relative(s) ensures Member(s) { RelativeIsMember(s); }
    forall m ensures ParseMode(ModeText(m)) == Some(m) && Scalar(ModeText(m)) { ModesParse(m); }
    forall m: Mode ensures Scalar(ProfileOf(m).triple) && Scalar(ProfileOf(m).class_) && Scalar(ProfileOf(m).machine) {
      ProfilesAreScalars(m);
    }
    forall k ensures ParseKind(KindText(k)) == Some(k) && Member(KindText(k)) { KindsParse(k); }
  }
}
