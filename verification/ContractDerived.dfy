/**
 * The derived identity of an AHI contract: fifteen paths, the feature headers and the linker name
 * follow from the three roots and the mode. Paths are compared by their components.
 */
module ContractDerived {
  import opened Wrappers
  import opened ContractFile
  import opened ContractFields
  import opened ContractParse
  import opened ContractNames

  type Parts = seq<string>

  /** The components of an absolute path; repeated separators and `.` do not count. */
  function Components(s: string): Parts
    decreases |s|
  {
    var i := Find(s, "/");
    var head := if s[..i] == "" || s[..i] == "." then [] else [s[..i]];
    if i < |s| then head + Components(s[i + 1..]) else head
  }

  function At(c: Contract, p: PathField): Parts {
    if p in c.paths then Components(c.paths[p]) else []
  }

  /** Where a derived path belongs: below which other path, and under which components. */
  datatype Place = Free | Below(base: PathField, suffix: Parts)

  function PlaceOf(p: PathField, mode: string): Place {
    match p
    case SourceDir => Below(SourceRoot, ["workbench", "devs", "AHI"])
    case SourceManifest => Below(SourceRoot, ["workbench", "devs", "AHI", "ahi-build.inputs"])
    case ProductManifest => Below(EngineRoot, ["manifests", "ahi-" + mode + ".install"])
    case BinaryDir => Below(BuildRoot, ["gen", "configure", "workbench", "devs", "AHI", mode])
    case StageSource => Below(BinaryDir, ["source"])
    case StageBuild => Below(BinaryDir, ["build"])
    case StageLinklibs => Below(BinaryDir, ["linklibs"])
    case InstallPrefix => Below(BuildRoot, ["SYS"])
    case HostSfdc => Below(BuildRoot, ["hosttools", "sfdc"])
    case HostFlexcat => Below(BuildRoot, ["hosttools", "flexcat"])
    case Flexcat => Below(BinaryDir, ["ahi-flexcat"])
    case Cc => Below(BinaryDir, ["ahi-cc"])
    case Ar => Below(BinaryDir, ["ahi-ar"])
    case SdkInclude => Below(BuildRoot, ["SDK", "include"])
    case GenInclude => Below(BuildRoot, ["GENINCDIR"])
    case _ => Free
  }

  /** The feature headers of a mode, below the generated and the SDK includes. */
  function HeaderPlaces(m: Mode): seq<Place> {
    [Below(GenInclude, ["libraries", "mui.h"]), Below(SdkInclude, ["asm", "io.h"])]
    + if m.X86_64? then [] else [Below(SdkInclude, ["proto", "dma.h"]), Below(SdkInclude, ["proto", "mbox.h"])]
  }

  const LINKER: string := "ld.lld"

  predicate InPlace(c: Contract, p: PathField, place: Place) {
    place.Below? ==> At(c, p) == At(c, place.base) + place.suffix
  }

  predicate HeaderInPlace(c: Contract, i: nat)
    requires i < |c.inputs.headers| == |HeaderPlaces(c.identity.mode)|
  {
    var place := HeaderPlaces(c.identity.mode)[i];
    place.Below? && Components(c.inputs.headers[i]) == At(c, place.base) + place.suffix
  }

  /** Everything `validate_derived_identity` demands. */
  predicate Derived(c: Contract) {
    && (forall p :: InPlace(c, p, PlaceOf(p, ModeText(c.identity.mode))))
    && |c.inputs.headers| == |HeaderPlaces(c.identity.mode)|
    && (forall i: nat :: i < |c.inputs.headers| ==> HeaderInPlace(c, i))
    && At(c, Lld) != [] && At(c, Lld)[|At(c, Lld)| - 1] == LINKER
  }

  /** The loop over the derived paths. */
  method CheckPlaces(c: Contract) returns (ok: bool)
    ensures ok <==> forall p :: InPlace(c, p, PlaceOf(p, ModeText(c.identity.mode)))
  {
    var mode := ModeText(c.identity.mode);
    for i := 0 to 26
      invariant forall j: nat :: j < i ==> InPlace(c, PATHS[j], PlaceOf(PATHS[j], mode))
    {
      var place := PlaceOf(PATHS[i], mode);
      if place.Below? && At(c, PATHS[i]) != At(c, place.base) + place.suffix { return false; }
    }
    forall p ensures InPlace(c, p, PlaceOf(p, mode)) { PathRanked(p); }
    ok := true;
  }

  method CheckHeaders(c: Contract) returns (ok: bool)
    ensures ok <==> |c.inputs.headers| == |HeaderPlaces(c.identity.mode)|
                    && forall i: nat :: i < |c.inputs.headers| ==> HeaderInPlace(c, i)
  {
    var headers, places := c.inputs.headers, HeaderPlaces(c.identity.mode);
    if |headers| != |places| { return false; }
    for i := 0 to |headers|
      invariant forall j: nat :: j < i ==> HeaderInPlace(c, j)
    {
      if !places[i].Below? || Components(headers[i]) != At(c, places[i].base) + places[i].suffix {
        assert !HeaderInPlace(c, i);
        return false;
      }
    }
    ok := true;
  }

  /** `validate_derived_identity`. */
  method ValidateDerivedIdentity(c: Contract) returns (ok: bool)
    ensures ok <==> Derived(c)
  {
    ok := CheckPlaces(c);
    if !ok { return; }
    ok := CheckHeaders(c);
    if !ok { return; }
    var linker := At(c, Lld);
    ok := linker != [] && linker[|linker| - 1] == LINKER;
  }

  /** The audited places, written out: below the source and engine roots, and below the build root. */
  lemma DerivedFromRoots(c: Contract)
    requires Derived(c)
    ensures var m := ModeText(c.identity.mode);
      && At(c, SourceDir) == At(c, SourceRoot) + ["workbench", "devs", "AHI"]
      && At(c, SourceManifest) == At(c, SourceRoot) + ["workbench", "devs", "AHI", "ahi-build.inputs"]
      && At(c, ProductManifest) == At(c, EngineRoot) + ["manifests", "ahi-" + m + ".install"]
      && At(c, BinaryDir) == At(c, BuildRoot) + ["gen", "configure", "workbench", "devs", "AHI", m]
  {
    var m := ModeText(c.identity.mode);
    assert InPlace(c, SourceDir, PlaceOf(SourceDir, m)) && InPlace(c, SourceManifest, PlaceOf(SourceManifest, m));
    assert InPlace(c, ProductManifest, PlaceOf(ProductManifest, m)) && InPlace(c, BinaryDir, PlaceOf(BinaryDir, m));
  }

  /** The places below the build root. */
  lemma DerivedFromBuild(c: Contract)
    requires Derived(c)
    ensures
      && At(c, InstallPrefix) == At(c, BuildRoot) + ["SYS"]
      && At(c, SdkInclude) == At(c, BuildRoot) + ["SDK", "include"] && At(c, GenInclude) == At(c, BuildRoot) + ["GENINCDIR"]
      && At(c, HostSfdc) == At(c, BuildRoot) + ["hosttools", "sfdc"]
      && At(c, HostFlexcat) == At(c, BuildRoot) + ["hosttools", "flexcat"]
  {
    var m := ModeText(c.identity.mode);
    assert InPlace(c, InstallPrefix, PlaceOf(InstallPrefix, m)) && InPlace(c, SdkInclude, PlaceOf(SdkInclude, m));
    assert InPlace(c, GenInclude, PlaceOf(GenInclude, m)) && InPlace(c, HostSfdc, PlaceOf(HostSfdc, m));
    assert InPlace(c, HostFlexcat, PlaceOf(HostFlexcat, m));
  }

  /** The places below the binary directory. */
  lemma DerivedFromBinary(c: Contract)
    requires Derived(c)
    ensures At(c, StageSource) == At(c, BinaryDir) + ["source"] && At(c, StageBuild) == At(c, BinaryDir) + ["build"]
    ensures At(c, StageLinklibs) == At(c, BinaryDir) + ["linklibs"] && At(c, Flexcat) == At(c, BinaryDir) + ["ahi-flexcat"]
    ensures At(c, Cc) == At(c, BinaryDir) + ["ahi-cc"] && At(c, Ar) == At(c, BinaryDir) + ["ahi-ar"]
  {
    var m := ModeText(c.identity.mode);
    assert InPlace(c, StageSource, PlaceOf(StageSource, m)) && InPlace(c, StageBuild, PlaceOf(StageBuild, m));
    assert InPlace(c, StageLinklibs, PlaceOf(StageLinklibs, m)) && InPlace(c, Flexcat, PlaceOf(Flexcat, m));
    assert InPlace(c, Cc, PlaceOf(Cc, m)) && InPlace(c, Ar, PlaceOf(Ar, m));
  }

  /** Roots, mode and binary directory leave no choice: derived paths of two contracts agree component by component. */
  lemma RootsDetermine(c: Contract, d: Contract, p: PathField)
    requires Derived(c) && Derived(d) && c.identity.mode == d.identity.mode
    requires forall root :: root in {SourceRoot, EngineRoot, BuildRoot} ==> At(c, root) == At(d, root)
    requires PlaceOf(p, ModeText(c.identity.mode)).Below?
    ensures At(c, p) == At(d, p)
  {
    var mode := ModeText(c.identity.mode);
    var base := PlaceOf(p, mode).base;
    assert InPlace(c, p, PlaceOf(p, mode)) && InPlace(d, p, PlaceOf(p, mode));
    assert InPlace(c, BinaryDir, PlaceOf(BinaryDir, mode)) && InPlace(d, BinaryDir, PlaceOf(BinaryDir, mode));
    assert base == BinaryDir || base in {SourceRoot, EngineRoot, BuildRoot};
  }

  // ----- writing a path -----

  predicate PartCharacter(c: char) {
    'a' <= c <= 'z' || 'A' <= c <= 'Z' || '0' <= c <= '9' || c == '-' || c == '_' || c == '.'
  }

  predicate Clean(s: string) { forall i :: 0 <= i < |s| ==> PartCharacter(s[i]) }

  predicate Part(s: string) { s != [] && s != "." && Clean(s) }

  function PathText(parts: Parts): string {
    if parts == [] then "" else "/" + (parts[0] + PathText(parts[1..]))
  }

  ghost predicate AllParts(parts: Parts) { forall i :: 0 <= i < |parts| ==> Part(parts[i]) }

  predicate SlashFree(s: string) { forall i :: 0 <= i < |s| ==> s[i] != '/' }

  lemma PartIsSlashFree(part: string)
    requires Clean(part)
    ensures SlashFree(part)
  {
  }

  lemma OnlyComponent(part: string)
    requires SlashFree(part) && part != "" && part != "."
    ensures Components(part) == [part]
  {
    FindNothing(part, "/");
    assert part[..|part|] == part;
  }

  lemma FirstComponent(part: string, rest: string)
    requires SlashFree(part) && part != "" && part != "."
    ensures Components(part + "/" + rest) == [part] + Components(rest)
  {
    var s := part + "/" + rest;
    FindAt(part, "/", rest);
    assert s[..|part|] == part && s[|part| + 1..] == rest;
  }

  lemma Associative(a: string, b: string, c: string)
    ensures a + (b + c) == a + b + c
  {
  }

  lemma {:induction false} ComponentsOfParts(part: string, parts: Parts)
    requires Part(part) && AllParts(parts)
    ensures Components(part + PathText(parts)) == [part] + parts
    decreases |parts|
  {
    PartIsSlashFree(part);
    if parts == [] {
      assert part + PathText(parts) == part;
      OnlyComponent(part);
    } else {
      var rest := parts[0] + PathText(parts[1..]);
      ComponentsOfParts(parts[0], parts[1..]);
      Associative(part, "/", rest);
      FirstComponent(part, rest);
      assert [parts[0]] + parts[1..] == parts;
    }
  }

  lemma LeadingSlash(rest: string)
    ensures Components("/" + rest) == Components(rest)
  {
    var s := "/" + rest;
    assert Find(s, "/") == 0 && s[..0] == "" && s[1..] == rest;
  }

  /** Writing clean components and reading them gives them back. */
  lemma ComponentsOfText(parts: Parts)
    requires AllParts(parts) && parts != []
    ensures Components(PathText(parts)) == parts
  {
    var rest := parts[0] + PathText(parts[1..]);
    assert PathText(parts) == "/" + rest;
    LeadingSlash(rest);
    ComponentsOfParts(parts[0], parts[1..]);
    assert [parts[0]] + parts[1..] == parts;
  }

  lemma {:induction false} PathTextCharacters(parts: Parts)
    requires AllParts(parts)
    ensures forall i :: 0 <= i < |PathText(parts)| ==> PathText(parts)[i] == '/' || PartCharacter(PathText(parts)[i])
  {
    if parts != [] { PathTextCharacters(parts[1..]); }
  }

  lemma PathTextIsSafe(parts: Parts)
    requires AllParts(parts) && parts != []
    ensures SafeAbsolute(PathText(parts))
  {
    var s := PathText(parts);
    PathTextCharacters(parts);
    assert s[0] == '/';
    forall i | 0 <= i < |s| ensures s[i] != '=' && s[i] !in ";\"$\\\r\n \t\U{0c}" {
      NoBadCharacter(s[i]);
    }
    FindNothing(s, "==]");
  }

  lemma NoBadCharacter(c: char)
    requires c == '/' || PartCharacter(c)
    ensures c != '=' && c !in ";\"$\\\r\n \t\U{0c}"
  {
  }

  // ----- an accepted contract for every mode -----

  function RootParts(p: PathField): Parts {
    if p == SourceRoot then ["s"] else if p == EngineRoot then ["e"] else if p == BuildRoot then ["b"]
    else if p == Lld then [LINKER] else ["t"]
  }

  function BinaryParts(mode: string): Parts {
    RootParts(BuildRoot) + ["gen", "configure", "workbench", "devs", "AHI", mode]
  }

  function BaseParts(p: PathField, mode: string): Parts {
    if p == BinaryDir then BinaryParts(mode) else RootParts(p)
  }

  function SampleParts(p: PathField, mode: string): Parts {
    match PlaceOf(p, mode)
    case Free => RootParts(p)
    case Below(base, suffix) => BaseParts(base, mode) + suffix
  }

  lemma CleanConcat(a: string, b: string)
    requires Clean(a) && Clean(b)
    ensures Clean(a + b)
  {
  }

  lemma ModeIsPart(m: Mode)
    ensures Part(ModeText(m)) && Part("ahi-" + ModeText(m) + ".install")
  {
    var mode := ModeText(m);
    assert |"."| == 1 && Clean(mode) && Clean("ahi-") && Clean(".install");
    CleanConcat("ahi-", mode);
    CleanConcat("ahi-" + mode, ".install");
  }

  lemma RootsAreParts(p: PathField)
    ensures AllParts(RootParts(p))
  {
    assert |LINKER| == 6 && Clean(LINKER) && Clean("s") && Clean("e") && Clean("b") && Clean("t");
    assert "s"[0] != '.' && "e"[0] != '.' && "b"[0] != '.' && "t"[0] != '.';
  }

  lemma TreeIsParts()
    ensures Part("gen") && Part("configure") && Part("workbench") && Part("devs") && Part("AHI") && Part("ahi-build.inputs")
  {
    assert |"."| == 1;
  }

  lemma StagesAreParts()
    ensures Part("source") && Part("build") && Part("linklibs") && Part("SYS") && Part("manifests")
  {
    assert |"."| == 1;
  }

  lemma ToolsAreParts()
    ensures Part("hosttools") && Part("sfdc") && Part("flexcat") && Part("ahi-flexcat") && Part("ahi-cc") && Part("ahi-ar")
  {
    assert |"."| == 1;
  }

  lemma IncludesAreParts()
    ensures Part("SDK") && Part("include") && Part("GENINCDIR")
    ensures Part("libraries") && Part("mui.h") && Part("asm") && Part("io.h")
  {
    assert |"."| == 1;
  }

  lemma ProtosAreParts()
    ensures Part("proto") && Part("dma.h") && Part("mbox.h")
  {
    assert |"."| == 1;
  }

  lemma BinaryIsParts(m: Mode)
    ensures AllParts(BinaryParts(ModeText(m)))
  {
    TreeIsParts();
    ModeIsPart(m);
    RootsAreParts(BuildRoot);
    PartsConcat(RootParts(BuildRoot), ["gen", "configure", "workbench", "devs", "AHI", ModeText(m)]);
  }

  lemma PartsConcat(a: Parts, b: Parts)
    requires AllParts(a) && AllParts(b)
    ensures AllParts(a + b)
  {
  }

  ghost predicate EachIs(parts: Parts, ok: string -> bool) { forall i :: 0 <= i < |parts| ==> ok(parts[i]) }

  /** The components of every place, whatever a good component is. */
  lemma SuffixIs(p: PathField, mode: string, ok: string -> bool)
    requires ok("gen") && ok("configure") && ok("workbench") && ok("devs") && ok("AHI") && ok("ahi-build.inputs")
    requires ok("source") && ok("build") && ok("linklibs") && ok("SYS") && ok("manifests")
    requires ok("hosttools") && ok("sfdc") && ok("flexcat") && ok("ahi-flexcat") && ok("ahi-cc") && ok("ahi-ar")
    requires ok("SDK") && ok("include") && ok("GENINCDIR") && ok(mode) && ok("ahi-" + mode + ".install")
    ensures PlaceOf(p, mode).Below? ==> EachIs(PlaceOf(p, mode).suffix, ok)
  {
  }

  lemma SuffixIsParts(p: PathField, m: Mode)
    ensures PlaceOf(p, ModeText(m)).Below? ==> AllParts(PlaceOf(p, ModeText(m)).suffix)
  {
    TreeIsParts();
    StagesAreParts();
    ToolsAreParts();
    IncludesAreParts();
    ModeIsPart(m);
    SuffixIs(p, ModeText(m), Part);
  }

  lemma HeaderIs(m: Mode, i: nat, ok: string -> bool)
    requires ok("libraries") && ok("mui.h") && ok("asm") && ok("io.h") && ok("proto") && ok("dma.h") && ok("mbox.h")
    requires i < |HeaderPlaces(m)|
    ensures HeaderPlaces(m)[i].Below? && HeaderPlaces(m)[i].base in {GenInclude, SdkInclude} && EachIs(HeaderPlaces(m)[i].suffix, ok)
  {
  }

  lemma SampleIsParts(p: PathField, m: Mode)
    ensures AllParts(SampleParts(p, ModeText(m))) && SampleParts(p, ModeText(m)) != []
  {
    var mode := ModeText(m);
    var place := PlaceOf(p, mode);
    RootsAreParts(p);
    if place.Below? {
      SuffixIsParts(p, m);
      BinaryIsParts(m);
      RootsAreParts(place.base);
      PartsConcat(BaseParts(place.base, mode), place.suffix);
    }
  }

  /** The sample paths stand where they belong. */
  lemma SampleInPlace(p: PathField, mode: string)
    ensures var place := PlaceOf(p, mode);
      place.Below? ==> SampleParts(p, mode) == SampleParts(place.base, mode) + place.suffix
  {
  }

  function HeaderParts(m: Mode, i: nat): Parts
    requires i < |HeaderPlaces(m)|
  {
    var place := HeaderPlaces(m)[i];
    if place.Below? then SampleParts(place.base, ModeText(m)) + place.suffix else []
  }

  function SampleHeaders(m: Mode): (r: seq<string>)
    ensures |r| == |HeaderPlaces(m)|
  {
    seq(|HeaderPlaces(m)|, i requires 0 <= i < |HeaderPlaces(m)| => PathText(HeaderParts(m, i)))
  }

  lemma HeaderIsParts(m: Mode, i: nat)
    requires i < |HeaderPlaces(m)|
    ensures HeaderPlaces(m)[i].Below? && AllParts(HeaderParts(m, i)) && HeaderParts(m, i) != []
    ensures SafeAbsolute(SampleHeaders(m)[i]) && Components(SampleHeaders(m)[i]) == HeaderParts(m, i)
  {
    IncludesAreParts();
    ProtosAreParts();
    HeaderIs(m, i, Part);
    var place := HeaderPlaces(m)[i];
    SampleIsParts(place.base, m);
    PartsConcat(SampleParts(place.base, ModeText(m)), place.suffix);
    PathTextIsSafe(HeaderParts(m, i));
    ComponentsOfText(HeaderParts(m, i));
  }

  /** Different places give different headers: they differ in their last component. */
  lemma HeadersDiffer(m: Mode, i: nat, j: nat)
    requires i < j < |HeaderPlaces(m)|
    ensures HeaderParts(m, i) != HeaderParts(m, j)
  {
    var a, b := HeaderParts(m, i), HeaderParts(m, j);
    assert "mui.h"[1] == 'u' && "io.h"[1] == 'o' && "dma.h"[1] == 'm' && "mbox.h"[1] == 'b';
    assert a[|a| - 1][1] != b[|b| - 1][1];
  }

  lemma HeadersAreGood(m: Mode)
    ensures PathList(SampleHeaders(m), SafeAbsolute)
  {
    var r := SampleHeaders(m);
    forall i | 0 <= i < |r| ensures SafeAbsolute(r[i]) { HeaderIsParts(m, i); }
    forall i, j | 0 <= i < j < |r| ensures r[i] != r[j] {
      HeaderIsParts(m, i);
      HeaderIsParts(m, j);
      HeadersDiffer(m, i, j);
    }
  }

  function SamplePaths(m: Mode): map<PathField, string> {
    map q | q in PATHS :: PathText(SampleParts(q, ModeText(m)))
  }

  lemma SamplePath(m: Mode, p: PathField)
    ensures p in SamplePaths(m) && SafeAbsolute(SamplePaths(m)[p])
    ensures Components(SamplePaths(m)[p]) == SampleParts(p, ModeText(m))
  {
    PathRanked(p);
    SampleIsParts(p, m);
    PathTextIsSafe(SampleParts(p, ModeText(m)));
    ComponentsOfText(SampleParts(p, ModeText(m)));
  }

  ghost predicate IsSample(c: Contract) {
    c.paths == SamplePaths(c.identity.mode) && c.inputs.headers == SampleHeaders(c.identity.mode)
  }

  lemma SampleAt(c: Contract, p: PathField)
    requires IsSample(c)
    ensures At(c, p) == SampleParts(p, ModeText(c.identity.mode))
  {
    SamplePath(c.identity.mode, p);
  }

  lemma SamplePlaced(c: Contract, p: PathField)
    requires IsSample(c)
    ensures InPlace(c, p, PlaceOf(p, ModeText(c.identity.mode)))
  {
    var place := PlaceOf(p, ModeText(c.identity.mode));
    SampleInPlace(p, ModeText(c.identity.mode));
    SampleAt(c, p);
    if place.Below? { SampleAt(c, place.base); }
  }

  lemma SampleHeaderPlaced(c: Contract, i: nat)
    requires IsSample(c) && i < |c.inputs.headers|
    ensures HeaderInPlace(c, i)
  {
    HeaderIsParts(c.identity.mode, i);
    SampleAt(c, HeaderPlaces(c.identity.mode)[i].base);
  }

  lemma SampleLinker(c: Contract)
    requires IsSample(c)
    ensures At(c, Lld) == [LINKER]
  {
    SampleAt(c, Lld);
  }

  /** The sample paths pass the derived checks, for every mode. */
  lemma SampleIsDerived(c: Contract)
    requires IsSample(c)
    ensures Derived(c)
  {
    forall p ensures InPlace(c, p, PlaceOf(p, ModeText(c.identity.mode))) { SamplePlaced(c, p); }
    forall i: nat | i < |c.inputs.headers| ensures HeaderInPlace(c, i) { SampleHeaderPlaced(c, i); }
    SampleLinker(c);
  }

  /** With the real names and the real derived checks a contract file is accepted in every mode. */
  method AcceptedInEveryMode(m: Mode) returns (c: Contract, r: Outcome)
    ensures c.identity.mode == m && r == Accepted(c)
  {
    var digest := Stripe(64);
    var n := ProfileOf(m).products;
    c := Contract(
      Identity(m, "a", digest, digest),
      Inputs(SampleHeaders(m), Relatives(1), [digest]),
      Products(Relatives(n), seq(n, _ => Data), Absolutes(n), Absolutes(DEPENDENCIES)),
      Flags(["a"], ["a"], ["a"], ["a"]),
      SamplePaths(m));
    SampleIsWellFormed(c);
    SampleIsDerived(c);
    r := WriteAndParse(c, Derived);
  }

  lemma SampleIsWellFormed(c: Contract)
    requires var m := c.identity.mode; var n := ProfileOf(m).products;
      c == Contract(
        Identity(m, "a", Stripe(64), Stripe(64)),
        Inputs(SampleHeaders(m), Relatives(1), [Stripe(64)]),
        Products(Relatives(n), seq(n, _ => Data), Absolutes(n), Absolutes(DEPENDENCIES)),
        Flags(["a"], ["a"], ["a"], ["a"]),
        SamplePaths(m))
    ensures WellFormed(c, RULES)
  {
    var m := c.identity.mode;
    var p := ProfileOf(m);
    RelativesAreGood(1);
    RelativesAreGood(p.products);
    AbsolutesAreGood(p.products);
    AbsolutesAreGood(DEPENDENCIES);
    HeadersAreGood(m);
    forall q ensures q in c.paths && SafeAbsolute(c.paths[q]) { SamplePath(m, q); }
    assert GoodIdentity(c.identity, RULES) && GoodInputs(c.inputs, RULES, p) && GoodProducts(c.products, RULES, p);
    assert GoodFlags(c.flags);
  }
}
