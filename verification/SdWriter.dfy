/**
 * The verified SD write: re-verify, bind the board, rescan, compare the token, claim and open,
 * re-check, copy, sync, read back, release. The environment (image file, inventory, device and
 * platform answers) is an arbitrary input, so every statement holds against every behaviour of it.
 */
module SdWriter {
  import opened Wrappers
  import opened Bytes
  import opened DiskNames
  import opened DiskTopology

  /** SHA-256 as an injective function: a digest determines the bytes it was computed from. */
  datatype Digest = Sha256(preimage: seq<byte>)

  datatype Platform = Macos | Linux

  datatype Candidate = Candidate(
    scanId: string, fingerprint: Digest, platform: Platform, device: string, raw: string, sizeBytes: nat,
    identity: string, model: string, transport: string,
    wholeDisk: bool, removable: bool, writable: bool, mounted: bool, rdev: Option<nat>)

  predicate ValidForWrite(c: Candidate, minimum: nat) {
    && c.scanId != [] && SafeMetadata(c.identity) && SafeMetadata(c.model) && SafeMetadata(c.transport)
    && c.wholeDisk && c.removable && c.writable && !c.mounted
    && c.sizeBytes >= minimum
  }

  datatype Board = Board(name: string, model: string, transport: string, usbEcm: Option<string>)

  datatype Manifest = Manifest(digest: Digest, board: Board, imageDigest: Digest, imageSize: nat, minimumDevice: nat)

  datatype Artifact = Artifact(
    location: string, manifestDigest: Digest, board: Board, imageDigest: Digest, imageSize: nat, minimumDevice: nat)

  /** `verify_image_artifact`: the manifest if it parses, and the image bytes present at that moment. */
  function VerifyArtifact(location: string, manifest: Option<Manifest>, image: seq<byte>): (r: Option<Artifact>)
    ensures r.Some? ==> r.value.imageDigest == Sha256(image) && 0 < |image| == r.value.imageSize <= r.value.minimumDevice
  {
    if manifest.None? then None
    else
      var m := manifest.value;
      if m.imageSize == 0 || m.minimumDevice < m.imageSize || |image| != m.imageSize || Sha256(image) != m.imageDigest
      then None
      else Some(Artifact(location, m.digest, m.board, m.imageDigest, m.imageSize, m.minimumDevice))
  }

  /** `confirmation_token`: the hash input binds the manifest, the image, both sizes and the disk. */
  datatype Token = Token(manifest: Digest, image: Digest, imageSize: nat, minimumDevice: nat, disk: Digest)

  function TokenFor(a: Artifact, c: Candidate): Token {
    Token(a.manifestDigest, a.imageDigest, a.imageSize, a.minimumDevice, c.fingerprint)
  }

  /** Everything a confirmation stands for: the manifest, the image, both sizes. */
  ghost predicate SameArtifact(a: Artifact, b: Artifact) {
    && a.manifestDigest == b.manifestDigest && a.imageDigest == b.imageDigest
    && a.imageSize == b.imageSize && a.minimumDevice == b.minimumDevice
  }

  /** A token is good for one artifact on one disk only. */
  lemma TokensDetermine(a: Artifact, c: Candidate, b: Artifact, d: Candidate)
    ensures TokenFor(a, c) == TokenFor(b, d) <==> SameArtifact(a, b) && c.fingerprint == d.fingerprint
  {
  }

  /** Exactly when a re-verification yields an artifact, and which one. */
  lemma VerifiedExactly(location: string, manifest: Option<Manifest>, image: seq<byte>, a: Artifact)
    ensures VerifyArtifact(location, manifest, image) == Some(a) <==>
      && manifest.Some? && manifest.value.imageDigest == Sha256(image) && manifest.value.imageSize == |image| > 0
      && manifest.value.minimumDevice >= |image|
      && a == Artifact(location, manifest.value.digest, manifest.value.board, Sha256(image), |image|, manifest.value.minimumDevice)
  {
  }

  /** One match means: one record of the scan has this ID, and no other one does. */
  lemma {:induction false} MatchesOne(scan: seq<Candidate>, id: string, c: Candidate)
    ensures Matches(scan, id) == [c] <==>
      exists i :: 0 <= i < |scan| && scan[i] == c && c.scanId == id
                  && forall j :: 0 <= j < |scan| && j != i ==> scan[j].scanId != id
  {
    if scan != [] {
      var rest := scan[1..];
      assert forall j :: 0 <= j < |rest| ==> rest[j] == scan[j + 1];
      MatchesNone(rest, id);
      if scan[0].scanId == id {
        assert Matches(scan, id) == [scan[0]] + Matches(rest, id);
        assert Matches(scan, id) == [c] <==> scan[0] == c && Matches(rest, id) == [];
      } else {
        MatchesOne(rest, id, c);
        assert Matches(scan, id) == Matches(rest, id);
        OneShifted(scan, id, c);
      }
    }
  }

  lemma {:induction false} MatchesNone(scan: seq<Candidate>, id: string)
    ensures Matches(scan, id) == [] <==> forall j :: 0 <= j < |scan| ==> scan[j].scanId != id
  {
    if scan != [] {
      MatchesNone(scan[1..], id);
      assert forall j :: 0 <= j < |scan[1..]| ==> scan[1..][j] == scan[j + 1];
    }
  }

  lemma OneShifted(scan: seq<Candidate>, id: string, c: Candidate)
    requires scan != [] && scan[0].scanId != id
    ensures (exists i :: 0 <= i < |scan| && scan[i] == c && c.scanId == id
                         && forall j :: 0 <= j < |scan| && j != i ==> scan[j].scanId != id)
       <==> (exists i :: 0 <= i < |scan[1..]| && scan[1..][i] == c && c.scanId == id
                         && forall j :: 0 <= j < |scan[1..]| && j != i ==> scan[1..][j].scanId != id)
  {
    var rest := scan[1..];
    if i :| 0 <= i < |scan| && scan[i] == c && c.scanId == id
            && forall j :: 0 <= j < |scan| && j != i ==> scan[j].scanId != id
    {
      assert rest[i - 1] == c;
      forall j | 0 <= j < |rest| && j != i - 1 ensures rest[j].scanId != id { assert rest[j] == scan[j + 1]; }
    }
    if i :| 0 <= i < |rest| && rest[i] == c && c.scanId == id
            && forall j :: 0 <= j < |rest| && j != i ==> rest[j].scanId != id
    {
      assert scan[i + 1] == c;
      forall j | 0 <= j < |scan| && j != i + 1 ensures scan[j].scanId != id { assert j > 0 ==> rest[j - 1] == scan[j]; }
    }
  }

  /** The candidates with the selected scan ID, in scan order. */
  function Matches(scan: seq<Candidate>, id: string): (r: seq<Candidate>)
    ensures forall c <- r :: c in scan && c.scanId == id
  {
    if scan == [] then []
    else (if scan[0].scanId == id then [scan[0]] else []) + Matches(scan[1..], id)
  }

  /** The comparison after the open: whole record on macOS, identity fields on Linux. */
  predicate StillSame(c: Candidate, current: Candidate) {
    && ValidForWrite(current, 1)
    && match c.platform
       case Macos => current == c
       case Linux => current.fingerprint == c.fingerprint && current.device == c.device
                     && current.raw == c.raw && current.rdev == c.rdev
  }

  // ----- what a run does, seen from outside -----

  datatype Event =
    | ArtifactVerified(artifact: Artifact, image: seq<byte>)
    | BoardMatched(artifact: Artifact, expected: Board)
    | DiskSelected(artifact: Artifact, scan: seq<Candidate>, id: string, candidate: Candidate)
    | TokenMatched(artifact: Artifact, candidate: Candidate, token: Token)
    | Claimed(device: string)
    | Opened(candidate: Candidate)
    | Rechecked(candidate: Candidate, scan: seq<Candidate>)
    | Wrote(plan: Plan, at: nat, bytes: seq<byte>)
    | Closed
    | Released

  /** Everything that has to hold before the first byte may change. */
  datatype Plan = Plan(
    artifact: Artifact, image: seq<byte>, expected: Board,
    scan: seq<Candidate>, id: string, candidate: Candidate, token: Token, rescan: seq<Candidate>)

  /** An event is recorded truthfully: the data it carries satisfies the check it stands for. */
  ghost predicate Genuine(e: Event) {
    match e
    case ArtifactVerified(a, image) => a.imageDigest == Sha256(image) && a.imageSize == |image|
    case BoardMatched(a, expected) => a.board == expected
    case DiskSelected(a, scan, id, c) => Matches(scan, id) == [c] && ValidForWrite(c, a.minimumDevice)
    case TokenMatched(a, c, token) => token == TokenFor(a, c)
    case Rechecked(c, scan) =>
      |Matches(scan, c.scanId)| == 1 && StillSame(c, Matches(scan, c.scanId)[0])
    case _ => true
  }

  ghost predicate Cleared(t: seq<Event>, p: Plan) {
    && ArtifactVerified(p.artifact, p.image) in t
    && BoardMatched(p.artifact, p.expected) in t
    && DiskSelected(p.artifact, p.scan, p.id, p.candidate) in t
    && TokenMatched(p.artifact, p.candidate, p.token) in t
    && Opened(p.candidate) in t
    && Rechecked(p.candidate, p.rescan) in t
  }

  ghost function Init(t: seq<Event>): seq<Event>
    requires t != []
  {
    t[..|t| - 1]
  }

  ghost function Last(t: seq<Event>): Event
    requires t != []
  {
    t[|t| - 1]
  }

  ghost predicate HandleOpen(t: seq<Event>) {
    t != [] && (Last(t).Opened? || (!Last(t).Closed? && HandleOpen(Init(t))))
  }

  ghost function ClaimHeld(t: seq<Event>): Option<string> {
    if t == [] then None
    else if Last(t).Claimed? then Some(Last(t).device)
    else if Last(t).Released? then None
    else ClaimHeld(Init(t))
  }

  ghost function Opens(t: seq<Event>): nat {
    if t == [] then 0 else Opens(Init(t)) + if Last(t).Opened? then 1 else 0
  }

  /** What may follow a trace: the local rules, from which the whole-run statements are derived below. */
  ghost predicate MayFollow(t: seq<Event>, e: Event, platform: Platform) {
    && Genuine(e)
    && match e
       case Wrote(plan, _, _) => HandleOpen(t) && Cleared(t, plan)
       case Opened(c) => Opens(t) == 0 && (platform.Macos? ==> ClaimHeld(t) == Some(c.device))
       case Claimed(_) => !HandleOpen(t) && ClaimHeld(t).None?
       case Released => !HandleOpen(t)
       case _ => true
  }

  ghost predicate Disciplined(t: seq<Event>, platform: Platform) {
    t == [] || (Disciplined(Init(t), platform) && MayFollow(Init(t), Last(t), platform))
  }

  lemma {:induction false} DisciplinedPrefix(t: seq<Event>, n: nat, platform: Platform)
    requires Disciplined(t, platform) && n <= |t|
    ensures Disciplined(t[..n], platform)
  {
    if n == |t| {
      assert t[..n] == t;
    } else {
      DisciplinedPrefix(Init(t), n, platform);
      assert Init(t)[..n] == t[..n];
    }
  }

  /** No byte changes before every check has passed, truthfully, for that same candidate. */
  lemma WritesAreCleared(t: seq<Event>, i: nat, platform: Platform)
    requires Disciplined(t, platform) && i < |t| && t[i].Wrote?
    ensures Cleared(t[..i], t[i].plan) && HandleOpen(t[..i])
    ensures var p := t[i].plan;
            && p.artifact.imageDigest == Sha256(p.image) && p.artifact.board == p.expected
            && Matches(p.scan, p.id) == [p.candidate] && p.token == TokenFor(p.artifact, p.candidate)
            && |Matches(p.rescan, p.candidate.scanId)| == 1
            && StillSame(p.candidate, Matches(p.rescan, p.candidate.scanId)[0])
  {
    DisciplinedPrefix(t, i + 1, platform);
    assert Init(t[..i + 1]) == t[..i] && Last(t[..i + 1]) == t[i];
    var p := t[i].plan;
    AllGenuine(t[..i], ArtifactVerified(p.artifact, p.image), platform);
    AllGenuine(t[..i], BoardMatched(p.artifact, p.expected), platform);
    AllGenuine(t[..i], DiskSelected(p.artifact, p.scan, p.id, p.candidate), platform);
    AllGenuine(t[..i], TokenMatched(p.artifact, p.candidate, p.token), platform);
    AllGenuine(t[..i], Rechecked(p.candidate, p.rescan), platform);
  }

  /** Every written disk is whole, removable, writable, unmounted and large enough, when selected and again under the handle. */
  lemma WrittenDiskIsSafe(t: seq<Event>, i: nat, platform: Platform)
    requires Disciplined(t, platform) && i < |t| && t[i].Wrote?
    ensures var p := t[i].plan;
      var again := Matches(p.rescan, p.candidate.scanId);
      && p.candidate.wholeDisk && p.candidate.removable && p.candidate.writable && !p.candidate.mounted
      && p.candidate.sizeBytes >= p.artifact.minimumDevice
      && |again| == 1 && again[0].wholeDisk && again[0].removable && again[0].writable && !again[0].mounted
      && again[0].fingerprint == p.candidate.fingerprint && again[0].device == p.candidate.device
      && again[0].raw == p.candidate.raw && again[0].rdev == p.candidate.rdev
  {
    WritesAreCleared(t, i, platform);
    DisciplinedPrefix(t, i, platform);
    var p := t[i].plan;
    AllGenuine(t[..i], DiskSelected(p.artifact, p.scan, p.id, p.candidate), platform);
  }

  lemma {:induction false} AllGenuine(t: seq<Event>, e: Event, platform: Platform)
    requires Disciplined(t, platform) && e in t
    ensures Genuine(e)
  {
    if e != Last(t) {
      assert e in Init(t);
      AllGenuine(Init(t), e, platform);
    }
  }

  /** The candidate whose raw handle is open. */
  ghost function OpenCandidate(t: seq<Event>): (r: Option<Candidate>)
    ensures HandleOpen(t) <==> r.Some?
  {
    if t == [] then None
    else if Last(t).Opened? then Some(Last(t).candidate)
    else if Last(t).Closed? then None
    else OpenCandidate(Init(t))
  }

  /** At every moment of the run, a macOS raw handle is open only while exactly its disk is claimed. */
  lemma {:induction false} ClaimCoversHandle(t: seq<Event>, n: nat)
    requires Disciplined(t, Macos) && n <= |t|
    ensures HandleOpen(t[..n]) ==> ClaimHeld(t[..n]) == Some(OpenCandidate(t[..n]).value.device)
  {
    if n > 0 {
      DisciplinedPrefix(t, n, Macos);
      assert Init(t[..n]) == t[..n - 1];
      ClaimCoversHandle(t, n - 1);
    }
  }

  lemma {:induction false} NeverOpened(t: seq<Event>, c: Candidate)
    requires Opens(t) == 0
    ensures Opened(c) !in t
  {
    if t != [] {
      NeverOpened(Init(t), c);
      assert t == Init(t) + [Last(t)];
    }
  }

  /** One open per run: an open handle is that of any candidate the run has opened. */
  lemma {:induction false} OpenIsTheOpened(t: seq<Event>, c: Candidate, platform: Platform)
    requires Disciplined(t, platform) && Opened(c) in t && HandleOpen(t)
    ensures OpenCandidate(t) == Some(c)
  {
    assert t == Init(t) + [Last(t)];
    if Last(t).Opened? { NeverOpened(Init(t), c); } else { OpenIsTheOpened(Init(t), c, platform); }
  }

  // ----- the disks are what the trace made of them -----

  type Disks = map<string, seq<byte>>

  /** One event's effect on the disks: only a write changes bytes, and only those it names. */
  ghost function Effect(disks: Disks, e: Event): Disks {
    if e.Wrote? && e.plan.candidate.raw in disks && e.at + |e.bytes| <= |disks[e.plan.candidate.raw]|
    then disks[e.plan.candidate.raw := Overwrite(disks[e.plan.candidate.raw], e.at, e.bytes)]
    else disks
  }

  /** The disks after a trace. */
  ghost function Applied(initial: Disks, t: seq<Event>): (r: Disks)
    ensures r.Keys == initial.Keys
  {
    if t == [] then initial else Effect(Applied(initial, Init(t)), Last(t))
  }

  /**
   * Whenever a step of a run changes a disk, that step is a write through the open handle of this
   * very disk, and everything has been cleared, truthfully, for its plan before.
   */
  lemma ChangeIsCleared(initial: Disks, t: seq<Event>, n: nat, d: string, platform: Platform)
    requires Disciplined(t, platform) && n < |t| && d in initial
    requires Applied(initial, t[..n + 1])[d] != Applied(initial, t[..n])[d]
    ensures t[n].Wrote? && t[n].plan.candidate.raw == d && Cleared(t[..n], t[n].plan)
    ensures OpenCandidate(t[..n]) == Some(t[n].plan.candidate)
    ensures forall e <- t[..n] :: Genuine(e)
    ensures var before, after := Applied(initial, t[..n])[d], Applied(initial, t[..n + 1])[d];
      && |after| == |before|
      && forall k :: 0 <= k < |before| && !(t[n].at <= k < t[n].at + |t[n].bytes|) ==> after[k] == before[k]
  {
    assert Init(t[..n + 1]) == t[..n] && Last(t[..n + 1]) == t[n];
    EffectIsWrite(Applied(initial, t[..n]), t[n], d);
    WritesAreCleared(t, n, platform);
    DisciplinedPrefix(t, n, platform);
    OpenIsTheOpened(t[..n], t[n].plan.candidate, platform);
    forall e | e in t[..n] ensures Genuine(e) { AllGenuine(t[..n], e, platform); }
  }

  /** An event that changes a disk is a write to it, and it changes only the bytes it names. */
  lemma EffectIsWrite(disks: Disks, e: Event, d: string)
    requires d in disks && Effect(disks, e)[d] != disks[d]
    ensures e.Wrote? && e.plan.candidate.raw == d
    ensures var after := Effect(disks, e)[d];
      && |after| == |disks[d]|
      && forall k :: 0 <= k < |after| && !(e.at <= k < e.at + |e.bytes|) ==> after[k] == disks[d][k]
  {
    forall k | 0 <= k < |disks[d]| && !(e.at <= k < e.at + |e.bytes|) ensures Effect(disks, e)[d][k] == disks[d][k] {
      OverwriteAt(disks[d], e.at, e.bytes, k);
    }
  }

  /** At every moment of a run a disk holds its initial bytes as long as no plan for it is cleared. */
  lemma {:induction false} UntouchedUntilCleared(initial: Disks, t: seq<Event>, n: nat, d: string, platform: Platform)
    requires Disciplined(t, platform) && n <= |t| && d in initial && NothingCleared(t[..n], d)
    ensures Applied(initial, t[..n])[d] == initial[d]
  {
    if n > 0 {
      NothingClearedBefore(t, n, d);
      UntouchedUntilCleared(initial, t, n - 1, d, platform);
      StepKeepsUncleared(initial, t, n - 1, d, platform);
    }
  }

  ghost predicate NothingCleared(t: seq<Event>, d: string) {
    forall p: Plan :: p.candidate.raw == d ==> !Cleared(t, p)
  }

  lemma StepKeepsUncleared(initial: Disks, t: seq<Event>, n: nat, d: string, platform: Platform)
    requires Disciplined(t, platform) && n < |t| && d in initial && NothingCleared(t[..n], d)
    ensures Applied(initial, t[..n + 1])[d] == Applied(initial, t[..n])[d]
  {
    if Applied(initial, t[..n + 1])[d] != Applied(initial, t[..n])[d] { ChangeIsCleared(initial, t, n, d, platform); }
  }

  lemma NothingClearedBefore(t: seq<Event>, n: nat, d: string)
    requires 0 < n <= |t| && NothingCleared(t[..n], d)
    ensures NothingCleared(t[..n - 1], d)
  {
    assert t[..n] == t[..n - 1] + [t[n - 1]];
    forall p: Plan | p.candidate.raw == d ensures !Cleared(t[..n - 1], p) { ClearedGrows(t[..n - 1], t[n - 1], p); }
  }

  lemma ClearedGrows(t: seq<Event>, e: Event, p: Plan)
    ensures Cleared(t, p) ==> Cleared(t + [e], p)
  {
  }

  /** At most one device is opened in a run. */
  lemma {:induction false} OneOpen(t: seq<Event>, platform: Platform)
    requires Disciplined(t, platform)
    ensures Opens(t) <= 1
  {
    if t != [] { OneOpen(Init(t), platform); }
  }

  // ----- the environment of one run -----

  datatype ClaimIdentity = ClaimIdentity(bsdName: string, device: string, raw: string)

  datatype OpenAnswers = OpenAnswers(
    rdevBefore: Option<nat>, claim: Option<ClaimIdentity>, rdevClaimed: Option<nat>,
    opens: bool, rdevOpened: Option<nat>, releases: bool)

  datatype RecheckAnswers = RecheckAnswers(
    claim: ClaimIdentity, rdevPath: Option<nat>, rdevHandle: Option<nat>, scan: Option<seq<Candidate>>)

  /** One read of the image file, whose content may change under the copy. */
  datatype ImageRead = Chunk(bytes: seq<byte>) | ReadError

  /** One `write_all`: the device may store other bytes in the requested range, or stop part way. */
  datatype DeviceWrite = Stores(bytes: seq<byte>) | Stops(bytes: seq<byte>)

  datatype DeviceRead = Grants(count: nat) | ReadFails

  datatype Environment = Environment(
    manifest: Option<Manifest>, image: seq<byte>,
    scan: Option<seq<Candidate>>, open: OpenAnswers, recheck: RecheckAnswers,
    seeks: bool, imageReads: seq<ImageRead>, deviceWrites: seq<DeviceWrite>, syncs: bool,
    rewinds: bool, readback: seq<DeviceRead>)

  datatype Failure =
    | NoScanId | NoToken | ArtifactInvalid | ArtifactChanged | BoardMismatch | ScanFailed | NoSuchDisk | AmbiguousDisk
    | UnsafeDisk | TokenMismatch | OpenFailed | RecheckFailed | SeekFailed | CopyFailed | ImageChanged | SyncFailed
    | ReadbackFailed | ReadbackMismatch | ReleaseFailed

  datatype Report = Failed(why: Failure) | Written(scanId: string, fingerprint: Digest, bytesWritten: nat, readback: Digest)

  /** The record itself may be opened on this platform, and its path still names the same device. */
  predicate Presentable(c: Candidate, platform: Platform, answers: OpenAnswers) {
    && ValidForWrite(c, 1) && c.platform == platform && ExpectedRaw(c) == Some(c.raw)
    && c.rdev.Some? && answers.rdevBefore == c.rdev
  }

  /** The claim was granted for this very disk. */
  predicate ClaimHolds(c: Candidate, answers: OpenAnswers) {
    answers.claim.Some? && ClaimMatches(answers.claim.value, c) && answers.rdevClaimed == c.rdev
  }

  /** The answers after the open still describe this candidate, and only it. */
  ghost predicate Confirms(c: Candidate, answers: RecheckAnswers) {
    && (c.platform.Macos? ==> ClaimMatches(answers.claim, c) && answers.rdevPath == c.rdev)
    && c.rdev.Some? && answers.rdevHandle == c.rdev && answers.scan.Some?
    && |Matches(answers.scan.value, c.scanId)| == 1 && StillSame(c, Matches(answers.scan.value, c.scanId)[0])
  }

  /** All reads succeed and all writes are stored as they are. */
  ghost predicate Reliable(chunks: seq<ImageRead>, writes: seq<DeviceWrite>) {
    |chunks| <= |writes| && forall i :: 0 <= i < |chunks| ==> chunks[i].Chunk? && writes[i] == Stores([])
  }

  /** The read-back always makes progress. */
  ghost predicate Granting(grants: seq<DeviceRead>, size: nat) {
    size <= |grants| && forall i :: 0 <= i < |grants| ==> grants[i].Grants? && grants[i].count > 0
  }

  /** Nothing goes wrong after the open, the image is still the same and fits. */
  ghost predicate Cooperates(env: Environment, image: seq<byte>, room: nat) {
    && env.seeks && env.syncs && env.rewinds && env.open.releases && |image| <= room
    && Reliable(env.imageReads, env.deviceWrites) && Delivered(env.imageReads) == image
    && Granting(env.readback, |image|)
  }

  datatype Preparation = Unprepared(why: Failure) | Prepared(candidate: Candidate)

  /** `expected_system_raw_device_path`. */
  function ExpectedRaw(c: Candidate): Option<string> {
    match c.platform
    case Macos =>
      if "/dev/" <= c.device && IsMacosWholeDisk(c.device[5..]) then Some("/dev/r" + c.device[5..]) else None
    case Linux => if IsLinuxWholePath(c.device) then Some(c.device) else None
  }

  /** The raw node belongs to the disk: `/dev/rdiskN` to `/dev/diskN` on macOS, the node itself on Linux. */
  lemma RawOfDevice(c: Candidate, answers: OpenAnswers, platform: Platform)
    requires Presentable(c, platform, answers)
    ensures c.platform == platform && "/dev/" <= c.device
    ensures platform.Macos? ==> IsMacosWholeDisk(c.device[5..]) && c.raw == "/dev/r" + c.device[5..]
    ensures platform.Linux? ==> IsLinuxWholeName(c.device[5..]) && c.raw == c.device
    ensures c.rdev.Some? && answers.rdevBefore == c.rdev
  {
  }

  predicate ClaimMatches(claim: ClaimIdentity, c: Candidate) {
    "/dev/" <= c.device && claim.bsdName == c.device[5..] && claim.device == c.device && claim.raw == c.raw
  }

  /** A matching claim names the disk three times: by BSD name, by device and by raw device. */
  lemma ClaimNamesDisk(claim: ClaimIdentity, c: Candidate)
    requires ClaimMatches(claim, c)
    ensures claim == ClaimIdentity(c.device[5..], c.device, c.raw) && "/dev/" + claim.bsdName == c.device
  {
  }

  /** What the device holds after a write of `chunk`: arbitrary content, but only inside the range. */
  function Settle(chunk: seq<byte>, stored: seq<byte>): (r: seq<byte>)
    ensures |r| == |chunk|
  {
    seq(|chunk|, i requires 0 <= i < |chunk| => if i < |stored| then stored[i] else chunk[i])
  }

  datatype StoredChunk = StoredChunk(bytes: seq<byte>, complete: bool)

  /** One `write_all` at `at`: what it stores there, never past the device end. */
  function WriteChunk(device: seq<byte>, at: nat, chunk: seq<byte>, w: DeviceWrite): (r: StoredChunk)
    requires at <= |device|
    ensures |r.bytes| <= |chunk| && at + |r.bytes| <= |device|
    ensures r.complete ==> |r.bytes| == |chunk|
    ensures w == Stores([]) && at + |chunk| <= |device| ==> r == StoredChunk(chunk, true)
  {
    var complete := w.Stores? && |chunk| <= |device| - at;
    var count := if complete then |chunk| else Min(|w.bytes|, Min(|chunk|, |device| - at));
    assert chunk[..|chunk|] == chunk && Settle(chunk, []) == chunk;
    StoredChunk(Settle(chunk[..count], w.bytes), complete)
  }

  /** Behind an overwrite the device still is what it was at the open; in front of it nothing changed. */
  lemma TailAfter(before: seq<byte>, original: seq<byte>, at: nat, bytes: seq<byte>)
    requires |before| == |original| && at + |bytes| <= |before| && before[at..] == original[at..]
    ensures var after := Overwrite(before, at, bytes);
      && |after| == |original| && after[at + |bytes|..] == original[at + |bytes|..]
      && after[..at + |bytes|] == before[..at] + bytes
  {
    assert before[at..][|bytes|..] == before[at + |bytes|..];
    assert original[at..][|bytes|..] == original[at + |bytes|..];
    var after := Overwrite(before, at, bytes);
    assert after[..at + |bytes|] == after[..at] + after[at..at + |bytes|];
  }

  /** How far a copy has come: behind it the device is as it was, and a reliable one holds what was hashed. */
  ghost predicate Copied(device: seq<byte>, now: seq<byte>, hashed: seq<byte>, reliable: bool) {
    && |hashed| <= |now| == |device| && now[|hashed|..] == device[|hashed|..]
    && (reliable ==> now[..|hashed|] == hashed)
  }

  lemma CopiedNext(device: seq<byte>, now: seq<byte>, hashed: seq<byte>, done: StoredChunk, chunk: seq<byte>, reliable: bool)
    requires |hashed| + |done.bytes| <= |now| && Copied(device, now, hashed, reliable)
    requires done.complete ==> |done.bytes| == |chunk|
    requires reliable && |hashed| + |chunk| <= |now| ==> done.bytes == chunk
    ensures var after := Overwrite(now, |hashed|, done.bytes);
      |after| == |device| && (done.complete ==> Copied(device, after, hashed + chunk, reliable))
  {
    TailAfter(now, device, |hashed|, done.bytes);
  }

  /** What the image file handed out until its end, whatever the size of the single reads. */
  function Delivered(chunks: seq<ImageRead>): seq<byte> {
    if chunks == [] || chunks[0].ReadError? || chunks[0].bytes == [] then []
    else chunks[0].bytes + Delivered(chunks[1..])
  }

  lemma DeliveredNext(chunks: seq<ImageRead>, i: nat, hashed: seq<byte>)
    requires i < |chunks| && !chunks[i].ReadError? && Delivered(chunks) == hashed + Delivered(chunks[i..])
    ensures chunks[i].bytes == [] ==> Delivered(chunks) == hashed
    ensures chunks[i].bytes != [] ==> Delivered(chunks) == hashed + chunks[i].bytes + Delivered(chunks[i + 1..])
  {
    assert chunks[i..][1..] == chunks[i + 1..];
  }

  /** `hash_target_prefix`: the chunked read-back hashes exactly the first `size` bytes of the target. */
  method HashTargetPrefix(target: seq<byte>, size: nat, grants: seq<DeviceRead>) returns (r: Option<Digest>)
    ensures r.Some? ==> size <= |target| && r.value == Sha256(target[..size])
    ensures Granting(grants, size) && size <= |target| ==> r.Some?
  {
    var hashed: seq<byte> := [];
    var remaining, i := size, 0;
    while remaining != 0
      invariant |hashed| + remaining == size && i <= |grants| && i <= |hashed|
      invariant |hashed| <= |target| && hashed == target[..|hashed|]
      decreases |grants| - i
    {
      if i == |grants| || grants[i].ReadFails? { return None; }
      var read := Min(grants[i].count, Min(Min(remaining, 1024 * 1024), |target| - |hashed|));
      if read == 0 { return None; }
      assert target[..|hashed|] + target[|hashed|..|hashed| + read] == target[..|hashed| + read];
      hashed := hashed + target[|hashed|..|hashed| + read];
      remaining, i := remaining - read, i + 1;
    }
    r := Some(Sha256(hashed));
  }

  class Host {
    const platform: Platform
    ghost const initial: Disks
    var disks: Disks
    var trace: seq<Event>

    constructor (platform: Platform, disks: Disks)
      ensures this.platform == platform && initial == this.disks == disks && trace == [] && Sound()
    {
      this.platform, this.initial, this.disks, this.trace := platform, disks, disks, [];
    }

    /** Kept by every method: the run is disciplined, and the disks are exactly what its trace made of them. */
    ghost predicate Sound()
      reads this
    {
      Disciplined(trace, platform) && disks == Applied(initial, trace)
    }

    /** Everything but a write leaves the disks alone. */
    method Record(e: Event)
      requires Sound() && MayFollow(trace, e, platform) && !e.Wrote?
      modifies this`trace
      ensures trace == old(trace) + [e] && Sound()
      ensures forall x :: x in trace <==> x in old(trace) || x == e
      ensures HandleOpen(trace) <==> e.Opened? || (!e.Closed? && HandleOpen(old(trace)))
      ensures ClaimHeld(trace) == if e.Claimed? then Some(e.device) else if e.Released? then None else ClaimHeld(old(trace))
      ensures Opens(trace) == Opens(old(trace)) + if e.Opened? then 1 else 0
    {
      assert Init(trace + [e]) == trace;
      trace := trace + [e];
    }

    /** The only place where bytes change: together with the event that says so. */
    method Store(e: Event)
      requires Sound() && MayFollow(trace, e, platform) && e.Wrote?
      requires e.plan.candidate.raw in disks && e.at + |e.bytes| <= |disks[e.plan.candidate.raw]|
      modifies this
      ensures trace == old(trace) + [e] && Sound()
      ensures disks == old(disks)[e.plan.candidate.raw := Overwrite(old(disks)[e.plan.candidate.raw], e.at, e.bytes)]
      ensures forall x :: x in trace <==> x in old(trace) || x == e
      ensures HandleOpen(trace) == HandleOpen(old(trace)) && ClaimHeld(trace) == ClaimHeld(old(trace))
      ensures Opens(trace) == Opens(old(trace))
    {
      var raw := e.plan.candidate.raw;
      assert Init(trace + [e]) == trace;
      trace := trace + [e];
      disks := disks[raw := Overwrite(disks[raw], e.at, e.bytes)];
    }

    ghost predicate Idle()
      reads this
    {
      Sound() && !HandleOpen(trace) && ClaimHeld(trace).None? && Opens(trace) == 0
    }

    ghost predicate Holding(c: Candidate)
      reads this
    {
      && Sound() && HandleOpen(trace) && Opens(trace) == 1 && Opened(c) in trace
      && (platform.Macos? ==> ClaimHeld(trace) == Some(c.device))
      && (platform.Linux? ==> ClaimHeld(trace).None?)
    }

    /** The end of a run: nothing is open, and the claim is as given. */
    ghost predicate Finished(claim: Option<string>)
      reads this
    {
      Sound() && !HandleOpen(trace) && ClaimHeld(trace) == claim
    }

    /** The claim that outlives a run: granted, and its release not confirmed in time. */
    ghost function Lingering(c: Candidate, answers: OpenAnswers): Option<string> {
      if platform.Macos? && Presentable(c, platform, answers) && answers.claim.Some? && !answers.releases
      then Some(answers.claim.value.device) else None
    }

    /** Dropping or finishing an `OpenedTarget`: the handle closes before the claim is released. */
    method Drop(c: Candidate, releases: bool)
      requires Holding(c)
      modifies this`trace
      ensures Finished(if platform.Macos? && !releases then Some(c.device) else None)
      ensures forall x :: x in old(trace) ==> x in trace
      ensures forall x :: x in trace && x !in old(trace) ==> !x.Wrote?
    {
      Record(Closed);
      if platform.Macos? && releases { Record(Released); }
    }

    /** The claim has been taken where the platform has one, and nothing is open yet. */
    ghost predicate Claiming(c: Candidate)
      reads this
    {
      && Sound() && !HandleOpen(trace) && Opens(trace) == 0
      && ClaimHeld(trace) == if platform.Macos? then Some(c.device) else None
    }

    /** Everything the platform answers before the raw open allows it. */
    ghost predicate CanClaim(c: Candidate, answers: OpenAnswers)
      reads this
    {
      Presentable(c, platform, answers) && (platform.Macos? ==> ClaimHolds(c, answers)) && answers.opens && c.raw in disks
    }

    /** On macOS the whole-disk claim comes first; it is given back when a check under it fails. */
    method ClaimMacos(c: Candidate, answers: OpenAnswers) returns (claimed: bool)
      requires Idle() && platform.Macos? && Presentable(c, platform, answers)
      modifies this`trace
      ensures forall x :: x in old(trace) ==> x in trace
      ensures forall x :: x in trace && x !in old(trace) ==> !x.Wrote?
      ensures claimed <==> ClaimHolds(c, answers) && answers.opens && c.raw in disks
      ensures if claimed then Claiming(c) else Finished(Lingering(c, answers))
    {
      if answers.claim.None? { return false; }
      Record(Claimed(answers.claim.value.device));
      claimed := ClaimHolds(c, answers) && answers.opens && c.raw in disks;
      if !claimed && answers.releases { Record(Released); }
    }

    /** The checks before the raw open. */
    method ClaimTarget(c: Candidate, answers: OpenAnswers) returns (claimed: bool)
      requires Idle()
      modifies this`trace
      ensures forall x :: x in old(trace) ==> x in trace
      ensures forall x :: x in trace && x !in old(trace) ==> !x.Wrote?
      ensures claimed <==> CanClaim(c, answers)
      ensures if claimed then Claiming(c) else Finished(Lingering(c, answers))
    {
      if !Presentable(c, platform, answers) { return false; }
      if platform.Macos? {
        claimed := ClaimMacos(c, answers);
      } else {
        claimed := answers.opens && c.raw in disks;
      }
    }

    /** `open_linux_raw_device_exclusively` and `open_macos_raw_device_with_claim`. */
    method OpenVerifiedTarget(c: Candidate, answers: OpenAnswers) returns (isOpen: bool)
      requires Idle()
      modifies this`trace
      ensures forall x :: x in old(trace) ==> x in trace
      ensures forall x :: x in trace && x !in old(trace) ==> !x.Wrote?
      ensures isOpen <==> CanClaim(c, answers) && answers.rdevOpened == c.rdev
      ensures isOpen ==> Holding(c) && c.platform == platform && c.raw in disks
      ensures !isOpen ==> Finished(Lingering(c, answers))
    {
      var claimed := ClaimTarget(c, answers);
      if !claimed { return false; }
      Record(Opened(c));
      isOpen := answers.rdevOpened == c.rdev;
      if !isOpen { Drop(c, answers.releases); }
    }

    /** The structured re-scan while the exact handle, and on macOS the claim, are held. */
    method VerifyTargetSafe(c: Candidate, answers: RecheckAnswers) returns (safe: bool)
      requires Holding(c) && c.platform == platform
      modifies this`trace
      ensures Holding(c) && (forall x :: x in old(trace) ==> x in trace)
      ensures forall x :: x in trace && x !in old(trace) ==> !x.Wrote?
      ensures safe <==> Confirms(c, answers)
      ensures safe ==> answers.scan.Some? && Rechecked(c, answers.scan.value) in trace
    {
      safe := false;
      if platform.Macos? && (!ClaimMatches(answers.claim, c) || answers.rdevPath != c.rdev) { return; }
      if c.rdev.None? || answers.rdevHandle != c.rdev || answers.scan.None? { return; }
      var current := Matches(answers.scan.value, c.scanId);
      if |current| != 1 || !StillSame(c, current[0]) { return; }
      Record(Rechecked(c, answers.scan.value));
      safe := true;
    }

    /** One `write_all` of the copy loop: it may change only the bytes of its own chunk. */
    method CopyChunk(
        plan: Plan, hashed: seq<byte>, chunk: seq<byte>, w: DeviceWrite, ghost device: seq<byte>, ghost reliable: bool)
      returns (complete: bool)
      requires Holding(plan.candidate) && Cleared(trace, plan) && plan.candidate.raw in disks
      requires Copied(device, disks[plan.candidate.raw], hashed, reliable)
      modifies this
      ensures Holding(plan.candidate) && Cleared(trace, plan) && disks.Keys == old(disks.Keys)
      ensures forall x :: x in old(trace) ==> x in trace
      ensures forall d :: d in disks && d != plan.candidate.raw ==> disks[d] == old(disks)[d]
      ensures |disks[plan.candidate.raw]| == |device|
      ensures complete ==> Copied(device, disks[plan.candidate.raw], hashed + chunk, reliable && w == Stores([]))
      ensures w == Stores([]) && |hashed + chunk| <= |device| ==> complete
    {
      var raw := plan.candidate.raw;
      var done := WriteChunk(disks[raw], |hashed|, chunk, w);
      CopiedNext(device, disks[raw], hashed, done, chunk, reliable && w == Stores([]));
      Store(Wrote(plan, |hashed|, done.bytes));
      complete := done.complete;
    }

    /**
     * `copy_image_to_target`: the digest covers exactly the bytes handed to the device, which
     * occupy the front of the target; nothing behind them and no other disk is touched.
     */
    method CopyImage(plan: Plan, chunks: seq<ImageRead>, writes: seq<DeviceWrite>) returns (r: Option<Digest>)
      requires Holding(plan.candidate) && Cleared(trace, plan) && plan.candidate.raw in disks
      modifies this
      ensures Holding(plan.candidate) && disks.Keys == old(disks.Keys)
      ensures forall x :: x in old(trace) ==> x in trace
      ensures forall d :: d in disks && d != plan.candidate.raw ==> disks[d] == old(disks)[d]
      ensures |disks[plan.candidate.raw]| == |old(disks)[plan.candidate.raw]|
      ensures r.Some? ==> r.value == Sha256(Delivered(chunks))
      ensures Reliable(chunks, writes) && |Delivered(chunks)| <= |old(disks)[plan.candidate.raw]| ==>
        r.Some? && disks[plan.candidate.raw][..|Delivered(chunks)|] == Delivered(chunks)
      ensures r.Some? ==>
        var n := |r.value.preimage|;
        && n <= |disks[plan.candidate.raw]|
        && disks[plan.candidate.raw][n..] == old(disks)[plan.candidate.raw][n..]
    {
      var raw := plan.candidate.raw;
      var hashed: seq<byte> := [];
      ghost var device := disks[raw];
      for i := 0 to |chunks|
        invariant Holding(plan.candidate) && Cleared(trace, plan) && disks.Keys == old(disks.Keys)
        invariant forall x :: x in old(trace) ==> x in trace
        invariant forall d :: d in disks && d != raw ==> disks[d] == old(disks)[d]
        invariant Delivered(chunks) == hashed + Delivered(chunks[i..])
        invariant Copied(device, disks[raw], hashed, Reliable(chunks, writes))
      {
        if chunks[i].ReadError? { return None; }
        DeliveredNext(chunks, i, hashed);
        var chunk := chunks[i].bytes;
        if chunk == [] { return Some(Sha256(hashed)); }
        var done := CopyChunk(
          plan, hashed, chunk, if i < |writes| then writes[i] else Stops([]), device, Reliable(chunks, writes));
        if !done { return None; }
        hashed := hashed + chunk;
      }
      r := Some(Sha256(hashed));
    }

    /** Copy, sync and read-back, while the target stays open. */
    method CopyAndVerify(plan: Plan, env: Environment) returns (problem: Option<Failure>)
      requires Holding(plan.candidate) && Cleared(trace, plan) && plan.candidate.raw in disks
      requires plan.artifact.imageDigest == Sha256(plan.image) && plan.artifact.imageSize == |plan.image|
      modifies this
      ensures Holding(plan.candidate) && disks.Keys == old(disks.Keys)
      ensures forall x :: x in old(trace) ==> x in trace
      ensures Cooperates(env, plan.image, |old(disks)[plan.candidate.raw]|) ==> problem.None?
      ensures forall d :: d in disks && d != plan.candidate.raw ==> disks[d] == old(disks)[d]
      ensures problem.None? ==>
        && |plan.image| <= |old(disks)[plan.candidate.raw]|
        && disks[plan.candidate.raw] == plan.image + old(disks)[plan.candidate.raw][|plan.image|..]
    {
      var raw, a := plan.candidate.raw, plan.artifact;
      if !env.seeks { return Some(SeekFailed); }
      var copied := CopyImage(plan, env.imageReads, env.deviceWrites);
      if copied.None? { return Some(CopyFailed); }
      if copied.value != a.imageDigest { return Some(ImageChanged); }
      if !env.syncs { return Some(SyncFailed); }
      if !env.rewinds { return Some(ReadbackFailed); }
      var back := HashTargetPrefix(disks[raw], a.imageSize, env.readback);
      if back.None? { return Some(ReadbackFailed); }
      if back.value != a.imageDigest { return Some(ReadbackMismatch); }
      assert disks[raw] == disks[raw][..|plan.image|] + disks[raw][|plan.image|..];
      problem := None;
    }

    /** The part of the writer that owns the opened target; it closes and releases on every path. */
    method WriteHeld(plan: Plan, env: Environment) returns (r: Report)
      requires Holding(plan.candidate) && Cleared(trace, plan) && plan.candidate.raw in disks
      requires plan.artifact.imageDigest == Sha256(plan.image) && plan.artifact.imageSize == |plan.image|
      modifies this
      ensures Finished(if platform.Macos? && !env.open.releases then Some(plan.candidate.device) else None)
      ensures disks.Keys == old(disks.Keys)
      ensures forall x :: x in old(trace) ==> x in trace
      ensures Cooperates(env, plan.image, |old(disks)[plan.candidate.raw]|) ==> r.Written?
      ensures forall d :: d in disks && d != plan.candidate.raw ==> disks[d] == old(disks)[d]
      ensures r.Written? ==>
        && |plan.image| <= |old(disks)[plan.candidate.raw]|
        && disks[plan.candidate.raw] == plan.image + old(disks)[plan.candidate.raw][|plan.image|..]
        && r == Written(plan.candidate.scanId, plan.candidate.fingerprint, |plan.image|, plan.artifact.imageDigest)
        && ClaimHeld(trace).None?
    {
      var c, a := plan.candidate, plan.artifact;
      var problem := CopyAndVerify(plan, env);
      Drop(c, env.open.releases);
      if problem.Some? { return Failed(problem.value); }
      if platform.Macos? && !env.open.releases { return Failed(ReleaseFailed); }
      r := Written(c.scanId, c.fingerprint, a.imageSize, a.imageDigest);
    }

    /** The artifact is hashed again and compared with the selected one, then bound to the board. */
    method Reverify(a: Artifact, expected: Board, env: Environment) returns (problem: Option<Failure>)
      requires Sound() && trace == []
      modifies this`trace
      ensures Idle() && forall x <- trace :: x.ArtifactVerified? || x.BoardMatched?
      ensures problem.None? <==> VerifyArtifact(a.location, env.manifest, env.image) == Some(a) && a.board == expected
      ensures problem.None? ==> ArtifactVerified(a, env.image) in trace && BoardMatched(a, expected) in trace
    {
      var reverified := VerifyArtifact(a.location, env.manifest, env.image);
      if reverified.None? { return Some(ArtifactInvalid); }
      if reverified.value != a { return Some(ArtifactChanged); }
      Record(ArtifactVerified(a, env.image));
      if a.board != expected { return Some(BoardMismatch); }
      Record(BoardMatched(a, expected));
      problem := None;
    }

    /** `prepare_verified_write_with_backend`: exactly one current disk with this ID, fit for the image. */
    method PrepareWrite(a: Artifact, id: string, scan: Option<seq<Candidate>>) returns (r: Preparation)
      requires Idle()
      modifies this`trace
      ensures Idle() && (forall x :: x in old(trace) ==> x in trace)
      ensures forall x :: x in trace && x !in old(trace) ==> x.DiskSelected?
      ensures r.Prepared? <==>
        scan.Some? && |Matches(scan.value, id)| == 1 && ValidForWrite(Matches(scan.value, id)[0], a.minimumDevice)
      ensures r.Prepared? ==> r.candidate == Matches(scan.value, id)[0]
      ensures r.Prepared? ==> DiskSelected(a, scan.value, id, r.candidate) in trace
    {
      if scan.None? { return Unprepared(ScanFailed); }
      var selected := Matches(scan.value, id);
      if |selected| == 0 { return Unprepared(NoSuchDisk); }
      if |selected| > 1 { return Unprepared(AmbiguousDisk); }
      if !ValidForWrite(selected[0], a.minimumDevice) { return Unprepared(UnsafeDisk); }
      Record(DiskSelected(a, scan.value, id, selected[0]));
      r := Prepared(selected[0]);
    }

    /** Everything that has to be right before a device is opened, for one and the same candidate. */
    ghost predicate Authorised(a: Artifact, id: string, token: Option<Token>, expected: Board, env: Environment) {
      && !Blank(id) && VerifyArtifact(a.location, env.manifest, env.image) == Some(a) && a.board == expected
      && env.scan.Some? && |Matches(env.scan.value, id)| == 1
      && var c := Matches(env.scan.value, id)[0];
      ValidForWrite(c, a.minimumDevice) && token == Some(TokenFor(a, c))
    }

    method Authorise(a: Artifact, id: string, token: Option<Token>, expected: Board, env: Environment) returns (r: Preparation)
      requires Sound() && trace == []
      modifies this`trace
      ensures Idle() && forall x <- trace :: !x.Wrote?
      ensures r.Prepared? <==> Authorised(a, id, token, expected, env)
      ensures r.Prepared? ==>
        && r.candidate == Matches(env.scan.value, id)[0] && token.Some?
        && ArtifactVerified(a, env.image) in trace && BoardMatched(a, expected) in trace
        && DiskSelected(a, env.scan.value, id, r.candidate) in trace && TokenMatched(a, r.candidate, token.value) in trace
    {
      if Blank(id) { return Unprepared(NoScanId); }
      if token.None? { return Unprepared(NoToken); }
      var problem := Reverify(a, expected, env);
      if problem.Some? { return Unprepared(problem.value); }
      r := PrepareWrite(a, id, env.scan);
      if r.Unprepared? { return; }
      if token.value != TokenFor(a, r.candidate) { return Unprepared(TokenMismatch); }
      Record(TokenMatched(a, r.candidate, token.value));
    }

    /** From the first raw open on: open, re-check under the open handle, then write. */
    method OpenAndWrite(a: Artifact, id: string, token: Token, expected: Board, env: Environment, c: Candidate)
      returns (r: Report, ghost plan: Option<Plan>)
      requires Idle() && (forall x <- trace :: !x.Wrote?)
      requires ArtifactVerified(a, env.image) in trace && BoardMatched(a, expected) in trace
      requires env.scan.Some? && DiskSelected(a, env.scan.value, id, c) in trace && TokenMatched(a, c, token) in trace
      requires a.imageDigest == Sha256(env.image) && a.imageSize == |env.image|
      modifies this
      ensures Finished(Lingering(c, env.open)) && disks.Keys == old(disks.Keys)
      ensures plan.Some? <==> old(CanClaim(c, env.open)) && env.open.rdevOpened == c.rdev && Confirms(c, env.recheck)
      ensures plan.Some? && Cooperates(env, env.image, |old(disks)[c.raw]|) ==> r.Written?
      ensures plan.None? ==> r.Failed? && disks == old(disks) && forall x <- trace :: !x.Wrote?
      ensures plan.Some? ==>
        && Cleared(trace, plan.value) && c.raw in disks
        && plan.value == Plan(a, env.image, expected, env.scan.value, id, c, token, plan.value.rescan)
        && (forall d :: d in disks && d != c.raw ==> disks[d] == old(disks)[d])
      ensures r.Written? ==>
        && plan.Some? && c.raw in disks && |env.image| <= |old(disks)[c.raw]|
        && disks[c.raw] == env.image + old(disks)[c.raw][|env.image|..]
        && r.readback == Sha256(env.image) && r.bytesWritten == |env.image| && ClaimHeld(trace).None?
    {
      plan := None;
      var isOpen := OpenVerifiedTarget(c, env.open);
      if !isOpen { return Failed(OpenFailed), None; }
      var safe := VerifyTargetSafe(c, env.recheck);
      if !safe { Drop(c, env.open.releases); return Failed(RecheckFailed), None; }
      ghost var p := Plan(a, env.image, expected, env.scan.value, id, c, token, env.recheck.scan.value);
      plan := Some(p);
      r := WriteHeld(Plan(a, env.image, expected, env.scan.value, id, c, token, env.recheck.scan.value), env);
    }

    /** Exactly when a claim outlives the run: it was asked for and granted, and its release failed. */
    ghost function Outliving(a: Artifact, id: string, token: Option<Token>, expected: Board, env: Environment): Option<string> {
      if Authorised(a, id, token, expected, env) then Lingering(Matches(env.scan.value, id)[0], env.open) else None
    }

    /** Exactly when writing begins. */
    ghost predicate Admitted(a: Artifact, id: string, token: Option<Token>, expected: Board, env: Environment)
      reads this
    {
      && Authorised(a, id, token, expected, env)
      && var c := Matches(env.scan.value, id)[0];
      && CanClaim(c, env.open) && env.open.rdevOpened == c.rdev && Confirms(c, env.recheck)
    }

    /**
     * `write_verified_image_with_backend_and_expectation`. Success means that the target holds the
     * re-verified image followed by its own old bytes. Every run is disciplined, its disks are what
     * its trace made of the initial ones, its handle is closed at the end, and a claim is left exactly
     * when it was granted and its release failed.
     */
    method WriteVerifiedImage(artifact: Artifact, id: string, token: Option<Token>, expected: Board, env: Environment)
      returns (r: Report, ghost plan: Option<Plan>)
      requires Sound() && trace == []
      modifies this
      ensures Sound() && disks.Keys == old(disks.Keys) && disks == Applied(old(disks), trace)
      ensures !HandleOpen(trace) && ClaimHeld(trace) == Outliving(artifact, id, token, expected, env)
      ensures plan.Some? <==> old(Admitted(artifact, id, token, expected, env))
      ensures forall b: Artifact, d: Candidate :: plan.Some? && token == Some(TokenFor(b, d)) ==>
        SameArtifact(artifact, b) && plan.value.candidate.fingerprint == d.fingerprint
      ensures plan.None? ==> r.Failed? && disks == old(disks) && forall x <- trace :: !x.Wrote?
      ensures plan.Some? ==>
        && Cleared(trace, plan.value) && plan.value.artifact == artifact && plan.value.image == env.image
        && plan.value.candidate.raw in disks && plan.value.expected == expected && plan.value.id == id && Some(plan.value.token) == token
        && (forall d :: d in disks && d != plan.value.candidate.raw ==> disks[d] == old(disks)[d])
        && (Cooperates(env, env.image, |old(disks)[plan.value.candidate.raw]|) ==> r.Written?)
      ensures r.Written? ==>
        && plan.Some? && plan.value.candidate.raw in disks
        && |env.image| <= |old(disks)[plan.value.candidate.raw]|
        && disks[plan.value.candidate.raw]
           == env.image + old(disks)[plan.value.candidate.raw][|env.image|..]
        && r.readback == Sha256(env.image) && r.bytesWritten == |env.image| && ClaimHeld(trace).None?
    {
      plan := None;
      var authorised := Authorise(artifact, id, token, expected, env);
      if authorised.Unprepared? { return Failed(authorised.why), None; }
      r, plan := OpenAndWrite(artifact, id, token.value, expected, env, authorised.candidate);
      forall b: Artifact, d: Candidate | token == Some(TokenFor(b, d))
        ensures SameArtifact(artifact, b) && authorised.candidate.fingerprint == d.fingerprint
      {
        TokensDetermine(artifact, authorised.candidate, b, d);
      }
    }
  }

  // ----- two concrete runs -----

  const CARD: Candidate :=
    Candidate("s", Sha256([2]), Macos, "/dev/disk2", "/dev/rdisk2", 1, "i", "m", "t", true, true, true, false, Some(3))
  const IMAGE: seq<byte> := [0]
  const BOARD: Board := Board("b", "m", "t", None)
  const MANIFEST: Manifest := Manifest(Sha256([1]), BOARD, Sha256(IMAGE), 1, 1)
  const ARTIFACT: Artifact := Artifact("a", Sha256([1]), BOARD, Sha256(IMAGE), 1, 1)
  const CLAIM: ClaimIdentity := ClaimIdentity("disk2", "/dev/disk2", "/dev/rdisk2")

  /** Everything agrees up to the platform's answers. */
  function RunOn(open: OpenAnswers): Environment {
    Environment(Some(MANIFEST), IMAGE, Some([CARD]), open,
      RecheckAnswers(CLAIM, Some(3), Some(3), Some([CARD])), true, [Chunk(IMAGE)], [Stores([])], true, true, [Grants(1)])
  }

  lemma CardIsFit()
    ensures ValidForWrite(CARD, 1) && !Blank("s") && Matches([CARD], "s") == [CARD] && StillSame(CARD, CARD)
  {
    assert !IsSpace("s"[0]);
    assert SafeMetadata("i") && SafeMetadata("m") && SafeMetadata("t");
    assert [CARD][1..] == [];
  }

  lemma CardIsPresentable(open: OpenAnswers)
    requires open.rdevBefore == Some(3)
    ensures Presentable(CARD, Macos, open) && ClaimMatches(CLAIM, CARD)
  {
    CardIsFit();
    var device := CARD.device;
    assert device[5..] == "disk2" && device[5..][4..] == "2";
    assert "/dev/r" + device[5..] == "/dev/rdisk2";
  }

  /** A run whose claim stays: granted for the right disk, the raw open fails, and so does the release. */
  method ClaimOutlivesRun() returns (host: Host, r: Report)
    ensures r.Failed? && ClaimHeld(host.trace) == Some("/dev/disk2") && !HandleOpen(host.trace)
  {
    var open := OpenAnswers(Some(3), Some(CLAIM), Some(3), false, None, false);
    CardIsFit();
    CardIsPresentable(open);
    host := new Host(Macos, map[]);
    assert host.Authorised(ARTIFACT, "s", Some(TokenFor(ARTIFACT, CARD)), BOARD, RunOn(open));
    ghost var plan;
    r, plan := host.WriteVerifiedImage(ARTIFACT, "s", Some(TokenFor(ARTIFACT, CARD)), BOARD, RunOn(open));
  }

  /** A run that writes: one byte of image in front of the card's old bytes, and the claim is given back. */
  method CardIsWritten() returns (host: Host, r: Report)
    ensures r.Written? && "/dev/rdisk2" in host.disks && host.disks["/dev/rdisk2"] == [0, 8]
    ensures ClaimHeld(host.trace).None? && !HandleOpen(host.trace)
  {
    var open := OpenAnswers(Some(3), Some(CLAIM), Some(3), true, Some(3), true);
    var env := RunOn(open);
    CardIsFit();
    CardIsPresentable(open);
    host := new Host(Macos, map["/dev/rdisk2" := [9, 8]]);
    assert host.Authorised(ARTIFACT, "s", Some(TokenFor(ARTIFACT, CARD)), BOARD, env);
    assert host.Admitted(ARTIFACT, "s", Some(TokenFor(ARTIFACT, CARD)), BOARD, env);
    assert env.imageReads[1..] == [] && Delivered(env.imageReads) == IMAGE + [] == IMAGE;
    ghost var plan;
    r, plan := host.WriteVerifiedImage(ARTIFACT, "s", Some(TokenFor(ARTIFACT, CARD)), BOARD, env);
    assert [9, 8][1..] == [8];
  }
}
