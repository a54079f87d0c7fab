# Verified model of the AROS host tools

The AROS tools build AROS on a host and bring it to boards. This project models their stateful
algorithms and protocols in Dafny and proves what they promise, for every input, every run and
every behaviour of the environment. `dafny verify dfyconfig.toml` checks everything.

| area | files |
|---|---|
| raw SD image: window over a file, geometry, MBR, FAT placement | `PartitionStream`, `RawImage`, `MediaPlan` |
| verified SD write: names, topology, candidates, the write protocol | `DiskNames`, `DiskTopology`, `DiskCandidates`, `SdWriter` |
| publication: AHI product set, TFTP deployment, release admission | `AhiInventory`, `AhiPublication`, `Deployment`, `ReleaseAutomation` |
| DHCPv4 single-lease server (RFC 2131, RFC 2132) | `DhcpConfig`, `Dhcp`, `DhcpServer` |
| audit gate, IOKit scan, AUR wait, AHI contract file | `AuditGraph`, `IoregScan`, `Versions`, `AurWait`, `ContractFile`, `ContractFields`, `ContractParse`, `ContractNames`, `ContractDerived` |
| shared | `Bytes`, `Text`, `Wrappers` |

Conventions. SHA-256 is an injective function (`SdWriter.Digest` carries its preimage). Operating
system, transport, clocks and other processes are arbitrary inputs: a short or failing transfer, a
changed inventory, a moved `main`, a destination replaced between two steps. Integers are unbounded
and every u32 and u64 bound of the source is written out. Loops and objects of the source are
methods and classes, each proved against a specification function or a declarative predicate; the
lemmas then say what that specification means.

Properties that turn out false of the code are stated as such, with a concrete run and the exact
condition under which they do hold:

* `publish` reports `RolledBack` although the new tree is in place when the identity probe after the
  no-clobber rename fails (`Deployment.ProbeFailureMisreports`); on all other paths, and only on
  those, the report is true (`Deployment.ReportIsTrueExactly`).
* A destination without the valid marker can be displaced, in exactly two races
  (`Deployment.UnmanagedDisplacedExactly`). The marker is read from the live destination, not from
  the measured tree, so a foreign tree is replaced if a marker stands there only while it is looked
  at (`Deployment.MarkerRaceReplacesForeignTree`); and a compensating exchange moves aside whatever
  has taken the new tree's place since the bindings were read
  (`Deployment.UndoRaceDisplacesForeignTree`).
* Of several AHI publishers with one baseline, two can commit if a third one restores the baseline
  under a recycled inode number (`AhiPublication.RecycledIdentityAdmitsTwo`). After a change a second
  publisher can commit exactly when the last commit brought the baseline back, identities included
  (`AhiPublication.SecondCommitExactly`); without recycled identities that never happens
  (`AhiPublication.OneChangePerBaseline`).
* The macOS disk claim is not given back on every path: it outlives the run exactly when it was
  granted and its release failed (`SdWriter.Host.WriteVerifiedImage`), as in
  `SdWriter.ClaimOutlivesRun`.
* An admission alone can pair one run attempt with the jobs of a later one
  (`ReleaseAutomation.AdmissionMixesAttempts`); after the recheck the recorded attempts are complete
  (`ReleaseAutomation.RecheckedIsQualified`).
* Printing and parsing contract entries is the identity exactly for non-empty lists without a
  repeated name; the empty list prints an empty file, which is refused (`ContractFile.RoundTrip`).

## Model

| member | source | states |
|---|---|---|
| `PartitionStream.Stream.Open` | crates/aros-board/src/sd.rs:1740-1756 | a window opens exactly when start + length fits u64 and lies inside the file; both refusals are told apart |
| `PartitionStream.Stream.AbsolutePosition` | crates/aros-board/src/sd.rs:1758-1765 | the position inside the image stays in the window and below 2^64, so its overflow error is unreachable |
| `PartitionStream.Stream.BoundedLength` | crates/aros-board/src/sd.rs:1767-1781 | a transfer never crosses the end of the window and is empty only at the end or for an empty buffer; the difference never wraps |
| `PartitionStream.Stream.Read` | crates/aros-board/src/sd.rs:1784-1800 | a read, short or failing, gives the outcome and state of the standalone disk and changes no byte outside |
| `PartitionStream.Stream.Write` | crates/aros-board/src/sd.rs:1802-1824 | a write does the same to the window's bytes as to a standalone disk; all bytes outside keep their values |
| `PartitionStream.Stream.Seek` | crates/aros-board/src/sd.rs:1826-1847 | every seek, also negative or past the end, agrees with the standalone disk |
| `PartitionStream.Stream.PerformAll` | crates/aros-board/src/sd.rs:1732-1847 | refinement: any sequence of operations gives the outcomes and contents of a standalone disk of the window's length, and the rest of the image is unchanged |
| `PartitionStream.OverwriteInWindow` | crates/aros-board/src/sd.rs:1802-1824 | overwriting through the window is overwriting inside it and nothing else |
| `PartitionStream.DiskReadsBackWrites` | crates/aros-board/src/sd.rs:1784-1847 | the reference disk reads back what was written |
| `PartitionStream.SeekLands` | crates/aros-board/src/sd.rs:1826-1847 | a seek lands at the offset counted from the start, the position or the end, exactly when that lies on the disk; otherwise nothing moves |
| `PartitionStream.SeekReturns` | crates/aros-board/src/sd.rs:1826-1847 | a relative seek and its opposite cancel |
| `RawImage.GeometryNeverOverflows` | crates/aros-board/src/sd.rs:1328-1364 | a geometry is accepted exactly for a u32 start LBA and 1 to 2^32 - 1 sectors, so both u64 overflow refusals are unreachable |
| `RawImage.AcceptedLayoutIsExact` | crates/aros-board/src/sd.rs:765-810 | an accepted layout gives start LBA and size/512 exactly and a partition that ends at the end of the image |
| `RawImage.LayoutAcceptedExactly` | crates/aros-board/src/sd.rs:765-810 | exactly which declared layouts pass: MBR, FAT32, 1 MiB alignment, 64 MiB, whole sectors, label, checksum |
| `RawImage.FillMbrSector` | crates/aros-board/src/sd.rs:1366-1382 | the filled sector is signed, its one entry decodes to type 0x0c, the start LBA and the sector count, and every other byte is zero |
| `RawImage.WriteAll` | crates/aros-board/src/sd.rs:1366-1382 | `write_all` over any short transfers either fails or has written the whole buffer at the cursor, and succeeds when every transfer makes progress |
| `RawImage.VerifyMbrDecodes` | crates/aros-board/src/sd.rs:1652-1683 | the byte comparisons of `verify_mbr` accept exactly the signed sectors that decode to the geometry |
| `RawImage.LittleEndianInjective` | crates/aros-board/src/sd.rs:1652-1683 | four bytes equal `to_le_bytes(n)` exactly when they decode to n |
| `RawImage.BuildRawImage` | crates/aros-board/src/sd.rs:1252-1318 | MBR, then any filesystem activity through the window, then verification: once the MBR is written it always succeeds, and the image is table, zeros and what a standalone disk would hold |
| `RawImage.StageImage` | crates/aros-board/src/sd.rs:1252-1382 | the same from the declared layout on; each refusal exactly in its case, and the window and MBR mismatch refusals never |
| `RawImage.FirstSectorDecides` | crates/aros-board/src/sd.rs:1652-1683 | `verify_mbr` depends on the first sector only, so nothing behind it can spoil the check |
| `MediaPlan.Collect` | crates/aros-board/src/sd_media.rs:50-86 | the role, destination and size loop accepts exactly portable files with fresh roles and folded destinations, and its checked sum is the true payload |
| `MediaPlan.NoParentIsAFile` | crates/aros-board/src/sd_media.rs:87-95 | the nested parent walk accepts exactly when no parent of a destination is itself a destination |
| `MediaPlan.WalkIsPrefixFree` | crates/aros-board/src/sd_media.rs:87-95 | that is: the folded destinations are prefix-free |
| `MediaPlan.KeyDecides` | crates/aros-common/src/publication.rs:88-113 | two destinations have one key exactly when they differ in nothing but the case of ASCII letters |
| `MediaPlan.PortableIgnoresCase` | crates/aros-common/src/publication.rs:27-68 | whether a name is portable does not depend on the case of its letters |
| `MediaPlan.DeviceNameIsRefused` | crates/aros-common/src/publication.rs:27-68 | device names are refused in any case and with any extension |
| `MediaPlan.RoleDecides` | crates/aros-board/src/sd.rs:1105-1116 | roles are exactly the non-empty words of lowercase letters, digits and hyphens |
| `MediaPlan.ValidatePlan` | crates/aros-board/src/sd_media.rs:50-100 | a plan is accepted exactly when its folded destinations are distinct and prefix-free, its roles distinct, its total true and within the partition |
| `MediaPlan.FatTree.CreateParents` | crates/aros-board/src/sd.rs:1499-1522 | creating the parents never meets a file and adds exactly the missing directories |
| `MediaPlan.FatTree.WriteFiles` | crates/aros-board/src/sd.rs:1457-1522 | for accepted destinations in any order every creation succeeds and the tree ends with exactly the planned files and their parents |
| `MediaPlan.NewFileIsFree` | crates/aros-board/src/sd.rs:1457-1497 | the next destination is neither a file nor a directory of what was written before |
| `MediaPlan.OrderIsFree` | crates/aros-board/src/sd_media.rs:53-100 | distinctness and prefix-freedom survive sorting |
| `MediaPlan.PlacePlan` | crates/aros-board/src/sd_media.rs:50-100 | validation, sorting and writing together: a plan is written exactly when it is acceptable, and the volume then holds exactly its files and their parents, whatever the order |
| `DiskNames.RecogniseMacosDescendant` | crates/aros-board/src/disk_inventory.rs:281-305 | the suffix loop accepts exactly the whole disk, or it followed by one or more canonical `sN` segments |
| `DiskNames.HeadDecides` | crates/aros-board/src/disk_inventory.rs:281-305 | the first segment of a suffix is determined by the text, so the loop never has a choice |
| `DiskNames.MacosOwner` | crates/aros-board/src/disk_inventory.rs:271-305 | the whole disk of an accepted identifier can be read off it |
| `DiskNames.MacosOwnerIsUnique` | crates/aros-board/src/disk_inventory.rs:271-305 | no identifier descends from two whole disks |
| `DiskNames.PartitionOwner` | crates/aros-board/src/sd_disk.rs:1142-1178 | an accepted Linux partition name decodes to its root disk |
| `DiskNames.LinuxOwnerIsUnique` | crates/aros-board/src/sd_disk.rs:1142-1178 | no Linux partition name belongs to two disks |
| `DiskNames.PartitionNamesExactly` | crates/aros-board/src/sd_disk.rs:1157-1178 | partition names are exactly the root, a `p` for MMC, and a number without leading zero |
| `DiskNames.WholeNamesAccepted` | crates/aros-board/src/disk_inventory.rs:186-208 | every `sd` name of letters and every `mmcblk` name with a canonical number is a whole disk |
| `DiskTopology.CheckNode` | crates/aros-board/src/sd_disk.rs:1190-1267 | the recursive walk with its `seen` set accepts exactly the safe trees: unmounted, at most one level deep, duplicate-free, all names partitions of the root |
| `DiskTopology.CheckChildren` | crates/aros-board/src/sd_disk.rs:1190-1267 | the loop over the children accepts exactly lists of direct partitions with pairwise different names |
| `DiskTopology.GoodPairwise` | crates/aros-board/src/sd_disk.rs:1190-1267 | an accepted list is duplicate-free position by position |
| `DiskTopology.SafeTreeHasOneOwner` | crates/aros-board/src/sd_disk.rs:1157-1267 | every partition of an accepted tree decodes to that root only |
| `DiskTopology.MountedTreeIsRefused` | crates/aros-board/src/sd_disk.rs:1270-1281 | a mount point named anywhere in the tree makes it refused |
| `DiskTopology.OrdinaryDiskIsSafe` | crates/aros-board/src/sd_disk.rs:1190-1267 | an ordinary unmounted disk with a partition is accepted, whatever their names |
| `DiskTopology.CheckMacosTopology` | crates/aros-board/src/sd_disk.rs:1370-1421 | the two passes accept exactly complete, duplicate-free, unmounted topologies of one whole disk |
| `DiskTopology.EveryMemberIsUnmounted` | crates/aros-board/src/sd_disk.rs:1370-1421 | equal counts leave no gap: every listed identifier is described, and as unmounted |
| `DiskTopology.MountedMemberIsRefused` | crates/aros-board/src/sd_disk.rs:1364-1421 | a mount point on any described member makes the topology refused |
| `DiskTopology.OrdinaryTopologyIsComplete` | crates/aros-board/src/sd_disk.rs:1370-1421 | an unmounted whole disk described alone is accepted |
| `DiskCandidates.RetainUnambiguous` | crates/aros-board/src/sd_disk.rs:1055-1082 | the three occurrence tables keep exactly the records that clash with no other, in scan order |
| `DiskCandidates.CountOne` | crates/aros-board/src/sd_disk.rs:1055-1082 | an occurrence count of one means that no other record has the key |
| `DiskCandidates.KeptExactly` | crates/aros-board/src/sd_disk.rs:1055-1082 | a record survives exactly when it stands alone somewhere in the scan |
| `DiskCandidates.KeptNeverClash` | crates/aros-board/src/sd_disk.rs:1055-1082 | no two survivors share identity on one platform, device path or raw path |
| `DiskCandidates.KeptHasNoRival` | crates/aros-board/src/sd_disk.rs:1055-1082 | a survivor shares none of them with a dropped record either |
| `SdWriter.VerifyArtifact` | crates/aros-board/src/sd_disk.rs:413-480 | a verified artifact names the digest and size of the image present at that moment and fits its own device minimum |
| `SdWriter.VerifiedExactly` | crates/aros-board/src/sd_disk.rs:413-480 | exactly when a re-verification yields an artifact, and which one |
| `SdWriter.TokensDetermine` | crates/aros-board/src/sd_disk.rs:599-612 | two tokens are equal exactly when manifest, image, both sizes and disk fingerprint are |
| `SdWriter.MatchesOne` | crates/aros-board/src/sd_disk.rs:815-838 | a selection is unique exactly when one record of the scan has the ID and no other |
| `SdWriter.WritesAreCleared` | crates/aros-board/src/sd_disk.rs:715-770 | in a disciplined run every recorded write is preceded by re-verification, board match, unique disk selection, token match, open and post-open check of the same plan |
| `SdWriter.WrittenDiskIsSafe` | crates/aros-board/src/sd_disk.rs:198-238 | every written disk was whole, removable, writable, unmounted and large enough when selected, and unchanged and still so under the open handle |
| `SdWriter.RawOfDevice` | crates/aros-board/src/sd_disk.rs:1859-1893 | the raw node that is opened belongs to the selected disk |
| `SdWriter.ChangeIsCleared` | crates/aros-board/src/sd_disk.rs:715-770 | whenever a step changes a disk, it is a write to this very disk through the open handle of its own plan's candidate, with that plan cleared before, and only the bytes it names change |
| `SdWriter.UntouchedUntilCleared` | crates/aros-board/src/sd_disk.rs:715-770 | at every moment of a run a disk holds exactly its initial bytes as long as no plan for it has been cleared |
| `SdWriter.AllGenuine` | crates/aros-board/src/sd_disk.rs:715-770 | every recorded check really held on the data it names |
| `SdWriter.ClaimCoversHandle` | crates/aros-board/src/sd_disk.rs:281-364 | at every moment at which a raw handle is open on macOS, the claim on that very disk is held |
| `SdWriter.OneOpen` | crates/aros-board/src/sd_disk.rs:715-770 | a disciplined run opens at most one device |
| `SdWriter.HashTargetPrefix` | crates/aros-board/src/sd_disk.rs:957-981 | the chunked read-back hashes exactly the first bytes of the target, under any short reads |
| `SdWriter.TailAfter` | crates/aros-board/src/sd_disk.rs:930-955 | in front of a stored chunk nothing changes, behind it the device is what it was at the open |
| `SdWriter.WriteChunk` | crates/aros-board/src/sd_disk.rs:930-955 | a write stores at most its chunk and never past the device end; a reliable device stores exactly the chunk |
| `SdWriter.Host.Store` | crates/aros-board/src/sd_disk.rs:930-955 | bytes change only together with the recorded write that names them |
| `SdWriter.Host.Drop` | crates/aros-macos-disk-claim/src/platform.rs:80-111 | the handle is closed first; on macOS the claim is then gone exactly when its release succeeds |
| `SdWriter.Host.ClaimTarget` | crates/aros-board/src/sd_disk.rs:1550-1639 | the target may be opened exactly when every answer names this disk; the claim recorded is the one granted, and after a failed check it stays only if its release fails |
| `SdWriter.Host.OpenVerifiedTarget` | crates/aros-board/src/sd_disk.rs:1505-1784 | the target is opened exactly when every answer before and at the open agrees; either it is held with its claim, or nothing is held; no byte is written |
| `SdWriter.Host.VerifyTargetSafe` | crates/aros-board/src/sd_disk.rs:1644-1720 | the post-open check passes exactly with one unchanged candidate, matching device numbers and, on macOS, a matching claim |
| `SdWriter.Host.CopyImage` | crates/aros-board/src/sd_disk.rs:930-955 | the chunked hash is the hash of everything the image file delivered, that many bytes at the front of this target are all that is touched, and a reliable device then holds exactly them |
| `SdWriter.Host.CopyAndVerify` | crates/aros-board/src/sd_disk.rs:762-792 | copy, sync and read-back: no problem means image in front and old bytes behind; a cooperating environment never has a problem |
| `SdWriter.Host.WriteHeld` | crates/aros-board/src/sd_disk.rs:762-805 | with the release: the handle is closed on every path, the claim stays exactly when its release fails, and other disks are untouched |
| `SdWriter.Host.Reverify` | crates/aros-board/src/sd_disk.rs:734-744 | the run goes on exactly when hashing again gives the selected artifact and its board is the expected one |
| `SdWriter.Host.PrepareWrite` | crates/aros-board/src/sd_disk.rs:807-844 | a disk is selected exactly when one current candidate has the scan ID and fits the image |
| `SdWriter.Host.Authorise` | crates/aros-board/src/sd_disk.rs:722-752 | a device may be opened exactly when artifact, board, unique fitting disk and token all agree for one candidate |
| `SdWriter.Host.WriteVerifiedImage` | crates/aros-board/src/sd_disk.rs:715-805 | for every environment: the disks are what the trace made of the initial ones; writing begins exactly when the run is admitted, and a token issued for another artifact or another fingerprint is never admitted and leaves every disk unchanged; a cooperating environment is written; success means the target is exactly the verified image followed by its old bytes; the handle is closed on every exit, and a claim outlives the run exactly when it was granted and its release failed |
| `SdWriter.CardIsWritten` | crates/aros-board/src/sd_disk.rs:715-805 | a concrete run that writes a card and gives the claim back |
| `SdWriter.ClaimOutlivesRun` | crates/aros-macos-disk-claim/src/platform.rs:80-111 | a concrete run that ends with the claim on `/dev/disk2` still held |
| `AhiInventory.Inventory` | crates/aros-ahi-runner/src/installation.rs:307-353 | the directory work list ends with exactly the regular files of the tree, and refuses exactly the trees with anything but directories and regular files |
| `AhiInventory.FilesMean` | crates/aros-ahi-runner/src/installation.rs:307-353 | the collected set is the set of paths at which a regular file stands |
| `AhiInventory.TidyIsClean` | crates/aros-ahi-runner/src/installation.rs:307-353 | the accumulated check is the statement about every node below the root |
| `AhiPublication.CommitIsComplete` | crates/aros-ahi-runner/src/installation.rs:477-514 | staging only the differing products still installs one complete prepared set |
| `AhiPublication.StepKeepsPhases` | crates/aros-ahi-runner/src/installation.rs:477-526 | every step of every publisher keeps one holder and staged products that agree with the live set |
| `AhiPublication.StepKeepsHistory` | crates/aros-ahi-runner/src/installation.rs:477-526 | every commit starts from the set the previous ones led to and installs a complete set |
| `AhiPublication.RunInvariant` | crates/aros-ahi-runner/src/installation.rs:142-158 | both hold in every reachable state of any interleaving |
| `AhiPublication.NeverAMix` | crates/aros-ahi-runner/src/installation.rs:477-514 | the live set is always the initial one or one publisher's complete prepared set, contents and mode of every file, none empty and all portable |
| `AhiPublication.UnchangedFileStays` | crates/aros-ahi-runner/src/installation.rs:477-514 | a file that already has its prepared contents and mode keeps its identity |
| `AhiPublication.CommitsOnBaseline` | crates/aros-ahi-runner/src/installation.rs:516-526 | a commit happens only on exactly the set its publisher measured |
| `AhiPublication.SecondCommitNeedsReturn` | crates/aros-ahi-runner/src/installation.rs:389-422 | two changing commits on one baseline need a commit in between that brings that set back |
| `AhiPublication.CanCommitExactly` | crates/aros-ahi-runner/src/installation.rs:477-526 | with the lock free, a prepared publisher can go on to its commit exactly when the live set is its baseline, for sets of any size |
| `AhiPublication.RestoresExactly` | crates/aros-ahi-runner/src/installation.rs:477-514 | a commit leads to a given set exactly when each staged file is that file, identity included, and each other one stood there already |
| `AhiPublication.SecondCommitExactly` | crates/aros-ahi-runner/src/installation.rs:389-526 | after a publisher changed a baseline, another publisher of it can commit exactly when the last commit on record brought that very set back |
| `AhiPublication.OneChangePerBaseline` | crates/aros-ahi-runner/src/installation.rs:389-526 | so with file identities never reused, no second publisher of a changed baseline can commit |
| `AhiPublication.RecycledIdentityAdmitsTwo` | crates/aros-ahi-runner/src/installation.rs:389-422 | a concrete run in which a recycled inode number lets two of them commit |
| `Deployment.ReportIsTrueExactly` | crates/aros-board/src/deploy.rs:159-300 | under any drift before and after every rename, exchange and compensating exchange, the reported commit state is true except exactly when the identity probe after the no-clobber rename fails |
| `Deployment.PublishedExactly` | crates/aros-board/src/deploy.rs:159-295 | exactly when a run reports success or a commit, from the drifts and faults alone, and that the destination then is the snapshot plus marker |
| `Deployment.IndeterminateExactly` | crates/aros-board/src/deploy.rs:191-300 | exactly when the commit state is reported as indeterminate |
| `Deployment.NoClobberOutcome` | crates/aros-common/src/publication/unix/tree.rs:18-107 | the rename displaces nothing; an error that allows clean-up leaves everything as it was, except exactly when the identity probe fails after the rename |
| `Deployment.NoClobberSucceeds` | crates/aros-common/src/publication/unix/tree.rs:18-107 | the rename succeeds exactly when nothing stands in the way, nothing fails and the staged directory is found afterwards |
| `Deployment.ExchangeOutcome` | crates/aros-common/src/publication/unix/mod.rs:601-811 | success means our tree in place and the measured one on the stage, a plain error the original namespace, an uncertain one that nothing was removed |
| `Deployment.ExchangeReplaces` | crates/aros-common/src/publication/unix/mod.rs:601-811 | exactly when the exchange leaves the new tree in the place of another one, and exactly which tree the exchange or its compensation moves aside |
| `Deployment.ProbeFailureMisreports` | crates/aros-common/src/publication/unix/tree.rs:18-107 | on that path the new tree is in place and the report says rolled back |
| `Deployment.ReplacedOnlyAfterMarker` | crates/aros-board/src/deploy.rs:379-402 | a tree is displaced only after a valid marker was seen at the destination, and a report of success or commit means that it was the measured one |
| `Deployment.RunDisplaces` | crates/aros-board/src/deploy.rs:191-295 | a whole run displaces exactly what its exchange and compensation displace, if it gets there |
| `Deployment.UnmanagedDisplacedExactly` | crates/aros-board/src/deploy.rs:191-295 | a tree without marker is displaced exactly in two races: it stands there at the exchange although a marked one stood there at the marker check, or it has taken the new tree's place when the exchange is taken back; without drift never |
| `Deployment.MarkerRaceReplacesForeignTree` | crates/aros-board/src/deploy.rs:379-402 | a concrete run of the first race, in which the foreign tree is also removed |
| `Deployment.UndoRaceDisplacesForeignTree` | crates/aros-common/src/publication/unix/mod.rs:690-811 | a concrete run of the second race: the foreign tree ends on the stage path while the old one is restored |
| `Deployment.Site.StageAndPublish` | crates/aros-board/src/deploy.rs:191-295 | staging, marker, measurement, rename or exchange and removal refine the run function under any drift |
| `Deployment.Site.Publish` | crates/aros-board/src/deploy.rs:159-188 | the whole operation is the run function; when it publishes, when its report is true and when an unmanaged tree is displaced is exactly as above |
| `ReleaseAutomation.StepKeepsInvariant` | scripts/release/release-automation.py:237-393 | every step of any job, clock, `main` or foreign tag keeps the protocol invariant |
| `ReleaseAutomation.RunInvariant` | scripts/release/release-automation.py:237-393 | it holds in every interleaving of admit, recheck and start jobs |
| `ReleaseAutomation.AtMostOneDispatch` | scripts/release/release-automation.py:342-393 | a version is dispatched at most once |
| `ReleaseAutomation.PassesExactly` | scripts/release/release-automation.py:237-340 | a job passes exactly when every answer is yes, main is its head, the receipt is current, both current attempts are complete, the version is free and a saved candidate agrees; otherwise it stops |
| `ReleaseAutomation.StartExactly` | scripts/release/release-automation.py:342-393 | exactly when a start job creates the tag, when it sends its one dispatch, and where it ends, for every sequence of answers |
| `ReleaseAutomation.ChainDispatches` | scripts/release/release-automation.py:237-393 | admission, recheck and start of a free version on an unchanged head with complete attempts tag that head and send exactly one dispatch |
| `ReleaseAutomation.DispatchedIsQualified` | scripts/release/release-automation.py:342-393 | its tag was created by the dispatching job on its admitted commit, once `main`, with both recorded attempts complete, under a receipt at most 900 seconds old at the policy check |
| `ReleaseAutomation.RecheckedIsQualified` | scripts/release/release-automation.py:237-393 | although a run and its jobs are read by two calls, a recheck or start job that passes stands on two complete attempts: the second read of the same attempt closes the gap |
| `ReleaseAutomation.CoveredIsComplete` | scripts/release/release-automation.py:293-311 | if an attempt is still current at a later read, the jobs read in between were its own |
| `ReleaseAutomation.AdmittedIsCovered` | scripts/release/release-automation.py:293-311 | an admission alone knows that both runs succeeded and that these or later attempts had every required job |
| `ReleaseAutomation.AdmissionMixesAttempts` | scripts/release/release-automation.py:293-311 | a concrete run in which an admission passes with an attempt that never had all required jobs |
| `ReleaseAutomation.TagsArePermanent` | scripts/release/release-automation.py:342-393 | a version keeps its first tag for the rest of the run |
| `ReleaseAutomation.PassedReceiptIsCurrent` | scripts/release/release-automation.py:331-393 | from its pass point to its dispatch a recheck or start job holds its saved candidate and a receipt at most 900 seconds old at the policy check |
| `ReleaseAutomation.StaleReceiptStops` | scripts/release/release-automation.py:178-234 | an older receipt stops the job at that step, whatever the answers |
| `DhcpConfig.MaskTest` | crates/aros-board/src/dhcp.rs:123-178 | the mask test accepts exactly 1 to 30 leading one bits followed by zeros |
| `DhcpConfig.UnicastByOctets` | crates/aros-board/src/dhcp.rs:479-484 | which addresses are concrete unicast, by their octets |
| `DhcpConfig.AndBlock` | crates/aros-board/src/dhcp.rs:123-178 | masking rounds down to a multiple of the block size |
| `DhcpConfig.OrLowBits` | crates/aros-board/src/dhcp.rs:180-185 | setting the host bits adds all of them |
| `DhcpConfig.NetworkArithmetic` | crates/aros-board/src/dhcp.rs:123-185 | network and broadcast address of the bit operations as plain arithmetic |
| `DhcpConfig.AcceptedExactly` | crates/aros-board/src/dhcp.rs:123-178 | a configuration is accepted exactly when some prefix length makes server and target two different hosts of one network, strictly between its ends, with unicast addresses and MAC and a lease time |
| `DhcpConfig.ReplyDestination` | crates/aros-board/src/dhcp.rs:180-185 | the reply destination lies on that network and differs from server and target |
| `Dhcp.ItemsOfEncoding` | crates/aros-board/src/dhcp.rs:562-605 | decoding inverts encoding with any padding and any bytes after END |
| `Dhcp.EncodingOfItems` | crates/aros-board/src/dhcp.rs:562-605 | every accepted field is such an encoding |
| `Dhcp.TruncatedIsRejected` | crates/aros-board/src/dhcp.rs:562-605 | a field cut anywhere before its END is rejected |
| `Dhcp.ParseOptions` | crates/aros-board/src/dhcp.rs:562-605 | the offset loop computes the meaning of the decoded items, or rejects |
| `Dhcp.EncodedOptionsParse` | crates/aros-board/src/dhcp.rs:562-605 | any legal option list parses to exactly its critical values |
| `Dhcp.DuplicateIsRejected` | crates/aros-board/src/dhcp.rs:562-605 | a critical option given twice is rejected wherever the two stand |
| `Dhcp.OrderIsIrrelevant` | crates/aros-board/src/dhcp.rs:562-605 | neither order nor padding changes what is read |
| `Dhcp.DefectStays` | crates/aros-board/src/dhcp.rs:562-605 | a defect found early cannot be repaired by later options |
| `DhcpServer.BuildResponse` | crates/aros-board/src/dhcp.rs:652-683 | the buffer filled in place is the reply laid out field by field |
| `DhcpServer.HandleDatagram` | crates/aros-board/src/dhcp.rs:264-302 | one turn of the receive loop is the reply of the specification; what is sent hands out this lease and fits the request |
| `DhcpServer.AnswerFitsRequest` | crates/aros-board/src/dhcp.rs:621-683 | in the sent bytes Discover is answered by Offer and Request by Ack, with the same transaction, seconds and flags; nothing else is answered |
| `DhcpServer.RequestFields` | crates/aros-board/src/dhcp.rs:523-553 | every request field is read from its BOOTP place, whatever the unread bytes hold |
| `DhcpServer.ClientOptionsParse` | crates/aros-board/src/dhcp.rs:562-605 | a client's options 53, 50 and 54 byte by byte |
| `DhcpServer.ReplyOptions` | crates/aros-board/src/dhcp.rs:652-683 | the reply's options parse back to its kind and server identifier |
| `DhcpServer.RepliesAreNotRequests` | crates/aros-board/src/dhcp.rs:523-553 | every reply is rejected by the request parser |
| `DhcpServer.ReplyRoundTrip` | crates/aros-board/src/dhcp.rs:523-683 | with the operation byte set back it parses to the same transaction, seconds, flags and MAC, with type and server identifier |
| `DhcpServer.RespondsOnlyTheLease` | crates/aros-board/src/dhcp.rs:621-683 | every reply offers this lease to this MAC from this server, as Offer or Ack |
| `DhcpServer.ServesOnlyTheLease` | crates/aros-board/src/dhcp.rs:264-302 | so does everything sent over any packet sequence |
| `DhcpServer.RepliesAreIgnored` | crates/aros-board/src/dhcp.rs:264-302 | nothing one server sends makes any server answer |
| `DhcpServer.ClientIsServed` | crates/aros-board/src/dhcp.rs:621-650 | exactly which parsed packets are answered, and that the answer fits |
| `AuditGraph.Audit.Visit` | scripts/check-docs-audit.py:301-321 | a memoised visit returns the highest reachable advisory, or proves the graph unacceptable; it terminates on cyclic graphs |
| `AuditGraph.Audit.ValidateAllChains` | scripts/check-docs-audit.py:297-324 | the search accepts exactly the graphs that are closed, acyclic and labelled with the highest reachable severity |
| `AuditGraph.Validate` | scripts/check-docs-audit.py:297-324 | the same for a fresh search |
| `AuditGraph.HighestFromCauses` | scripts/check-docs-audit.py:301-321 | the maximum over direct causes is the maximum over everything reachable |
| `AuditGraph.CompleteOrderIsAcyclic` | scripts/check-docs-audit.py:301-321 | completing every node after its successors rules out cycles |
| `AuditGraph.StackCycle` | scripts/check-docs-audit.py:301-321 | a node met again on its own stack lies on a real cycle |
| `AuditGraph.NoHiddenAdvisory` | scripts/check-docs-audit.py:462-491 | in an accepted graph no advisory is more severe than the labels the gate looks at |
| `AuditGraph.SeverityOrder` | scripts/check-docs-audit.py:116-118 | the five severities in strictly increasing order |
| `IoregScan.UsbDeviceParents` | crates/aros-board/src/scan_macos.rs:201-216 | the depth stack gives every node its nearest USB ancestor |
| `IoregScan.LiveMeansDeeper` | crates/aros-board/src/scan_macos.rs:201-216 | a device still live is shallower than every node after it up to the current one |
| `IoregScan.TopIsNearest` | crates/aros-board/src/scan_macos.rs:201-216 | the top of the popped stack is the greatest such index |
| `IoregScan.CollectDevices` | crates/aros-board/src/scan_macos.rs:44-85 | the device map records exactly the interfaces, names and first MAC below each device |
| `IoregScan.Adapters` | crates/aros-board/src/scan_macos.rs:44-105 | an adapter is reported exactly when a device with both IDs is nearest USB ancestor of a CDC-ECM interface and of a network node with that name |
| `Versions.ParseArchInjective` | scripts/release/wait-aur-index.py:50-55 | different canonical version texts are different versions |
| `Versions.MatchArchComplete` | scripts/release/wait-aur-index.py:50-55 | every canonical text is matched with its own parts |
| `Versions.StableIsArch` | scripts/release/wait-aur-index.py:230-247 | a stable version with `-1` appended always parses |
| `Versions.MatchStableComplete` | scripts/release/wait-aur-index.py:230-247 | three canonical numbers between dots are a stable version |
| `Versions.ValueIsDecimal` | scripts/release/wait-aur-index.py:50-55 | canonical numbers compare as decimals do: the longer one is greater, equal lengths compare like texts |
| `Versions.BeforeIsLexicographic` | scripts/release/wait-aur-index.py:184-223 | version order is lexicographic on the four numbers |
| `Versions.BeforeIsTotal` | scripts/release/wait-aur-index.py:184-223 | it is a strict total order |
| `AurWait.ExactMeansThisVersion` | scripts/release/wait-aur-index.py:184-223 | an exact answer names this package once, with exactly this version text |
| `AurWait.ClassifyExactly` | scripts/release/wait-aur-index.py:184-223 | exact, stale and invalid, each if and only if: this package once with this text; an empty list or a smaller canonical version; everything else |
| `AurWait.DecidesExactly` | scripts/release/wait-aur-index.py:184-223 | the same for the decision made for a stable version |
| `AurWait.StatusDecides` | scripts/release/wait-aur-index.py:262-270 | 408, 429 and 5xx wait, every other status but 200 ends the wait |
| `AurWait.SleepFor` | scripts/release/wait-aur-index.py:277-284 | a sleep is the greater of back-off and Retry-After, cut to the remaining time, and positive |
| `AurWait.OneTurn` | scripts/release/wait-aur-index.py:249-284 | one turn goes on exactly when its clock readings and reply allow it, with exactly this request and sleep, and otherwise stops with the outcome its readings decide |
| `AurWait.TurnIsDecided` | scripts/release/wait-aur-index.py:249-284 | a turn that stops does not go on, and it has one outcome, noticed at one reading |
| `AurWait.Poll` | scripts/release/wait-aur-index.py:249-284 | the loop terminates and computes its run: how it ends, and exactly what it requests and sleeps |
| `AurWait.ClockAdvances` | scripts/release/wait-aur-index.py:275-284 | turn n begins after n back-offs, unless the time is over |
| `AurWait.RunIsBounded` | scripts/release/wait-aur-index.py:249-284 | no request or sleep of a run passes the deadline, and requests are spaced by the back-offs |
| `AurWait.EndsOnce` | scripts/release/wait-aur-index.py:249-284 | a run ends at one turn with one outcome |
| `AurWait.EndExplains` | scripts/release/wait-aur-index.py:249-284 | verified, invalid, permanent and timed out, each if and only if some turn after only waiting ones succeeds, misreads, breaks or expires |
| `AurWait.WaitForIndex` | scripts/release/wait-aur-index.py:230-284 | every outcome exactly in its case; success only on an exact-version response seen before the deadline; at most 22 requests within 1200 seconds |
| `AurWait.BackoffSumTail` | scripts/release/wait-aur-index.py:275-284 | closed form of the summed back-offs |
| `AurWait.AtMostTwentyTwoRequests` | scripts/release/wait-aur-index.py:230-284 | at most 22 requests under the 1200-second deadline |
| `AurWait.TwentyTwoRequests` | scripts/release/wait-aur-index.py:230-284 | a run of the loop, on an index that never lists the package, that makes 22 requests |
| `ContractFile.ParseAssignments` | crates/aros-ahi-runner/src/contract.rs:544-608 | the line loop computes the assignment table, or refuses a malformed line or a repeated name |
| `ContractFile.ParsePrintedLine` | crates/aros-ahi-runner/src/contract.rs:544-608 | a printed legal assignment parses back to itself, whatever delimiters its value contains |
| `ContractFile.ParsedLineIsPrinted` | crates/aros-ahi-runner/src/contract.rs:544-608 | every accepted line is a printed one, with a legal name and a non-empty value |
| `ContractFile.RoundTrip` | crates/aros-ahi-runner/src/contract.rs:544-608 | printing and parsing entries is the identity exactly for non-empty lists without repeated names |
| `ContractFile.AcceptedTextIsPrinted` | crates/aros-ahi-runner/src/contract.rs:544-608 | every accepted text has exactly the printed lines of such a list |
| `ContractFile.SplitJoin` | crates/aros-ahi-runner/src/contract.rs:691-714 | splitting a joined list gives its members |
| `ContractFields.Ranked` | crates/aros-ahi-runner/src/contract.rs:22-97 | the order of taking contains every required field |
| `ContractFields.RankAt` | crates/aros-ahi-runner/src/contract.rs:22-97 | and none of them twice |
| `ContractFields.RulesAreLawful` | crates/aros-ahi-runner/src/contract.rs:610-671 | accepted paths and digests can be list members; mode and kind texts are read back |
| `ContractFields.UnsafeIsRefused` | crates/aros-ahi-runner/src/contract.rs:620-655 | a separator, quote, dollar, backslash, line end or blank anywhere makes a path refused |
| `ContractFields.ParentIsRefused` | crates/aros-ahi-runner/src/contract.rs:637-655 | a parent component anywhere makes a relative path refused |
| `ContractParse.CheckPaths` | crates/aros-ahi-runner/src/contract.rs:727-752 | the loop accepts exactly safe, pairwise different paths |
| `ContractParse.Reader.Take` | crates/aros-ahi-runner/src/contract.rs:673-681 | a field is removed with its value; a missing one is reported |
| `ContractParse.Reader.TakeNext` | crates/aros-ahi-runner/src/contract.rs:673-681 | in its turn no field is missing |
| `ContractParse.RemainingHas` | crates/aros-ahi-runner/src/contract.rs:274-410 | a field is in the table exactly until its turn |
| `ContractParse.CheckKeys` | crates/aros-ahi-runner/src/contract.rs:249-271 | the unknown and missing checks together accept exactly the required key set |
| `ContractParse.ParseTable` | crates/aros-ahi-runner/src/contract.rs:248-422 | a contract is accepted exactly when the keys are the required ones, the texts say it and the derived checks hold; the "did not consume every field" error is unreachable |
| `ContractParse.ParseContract` | crates/aros-ahi-runner/src/contract.rs:248-422 | the same for every text |
| `ContractParse.SaysOneContract` | crates/aros-ahi-runner/src/contract.rs:248-422 | the texts determine the contract |
| `ContractParse.AcceptedListsFit` | crates/aros-ahi-runner/src/contract.rs:316-366 | parallel lists have equal length, counts are those of the mode, paths are unique |
| `ContractParse.AcceptedCounts` | crates/aros-ahi-runner/src/contract.rs:106-143 | the audited subsystem, triples, ELF identities and numbers of products, headers and dependencies |
| `ContractParse.ContractRoundTrip` | crates/aros-ahi-runner/src/contract.rs:248-422 | printing all fields of a well-formed contract in any line order and parsing gives it back |
| `ContractNames.NamesAreValid` | crates/aros-ahi-runner/src/contract.rs:22-68 | the 45 field spellings are legal and pairwise different |
| `ContractNames.WriteAndParse` | crates/aros-ahi-runner/src/contract.rs:248-422 | with the real field names every well-formed contract that passes the derived checks is read back as itself |
| `ContractDerived.ValidateDerivedIdentity` | crates/aros-ahi-runner/src/contract.rs:424-531 | the checks accept exactly the contracts whose derived paths, headers and linker name stand where roots and mode put them |
| `ContractDerived.DerivedFromRoots` | crates/aros-ahi-runner/src/contract.rs:424-470 | the audited places below the source, engine and build roots |
| `ContractDerived.DerivedFromBuild` | crates/aros-ahi-runner/src/contract.rs:424-520 | the audited places below the build root |
| `ContractDerived.DerivedFromBinary` | crates/aros-ahi-runner/src/contract.rs:424-520 | the audited places below the binary directory |
| `ContractDerived.RootsDetermine` | crates/aros-ahi-runner/src/contract.rs:424-531 | the three roots and the mode determine every derived path, component by component |
| `ContractDerived.ComponentsOfText` | crates/aros-ahi-runner/src/contract.rs:424-531 | writing clean path components and reading them gives them back |
| `ContractDerived.AcceptedInEveryMode` | crates/aros-ahi-runner/src/contract.rs:248-531 | with the real field names and the real derived checks a contract file is accepted, as itself, in every mode |

## Left out

- SHA-256, JSON, TOML and plist decoding and the FAT formatter: foreign libraries; digests are injective, documents arrive decoded, the filesystem is any sequence of operations on the partition window or an abstract tree.
- FAT volume exhaustion and long-name encoding: the capacity check is modelled as the sum it computes; the formatter's own allocation is not.
- Sockets, interface binding, TFTP serving, running external tools and Disk Arbitration itself: only their results, as arbitrary answers, or acquire and release events.
- Diagnostic texts and error kinds, where the only question is whether an operation is refused.
- Path texts: `MediaPlan` works on paths already split into components, and keeps a folded destination as its folded components.
- The text layout of disk fingerprints and confirmation tokens: a fingerprint is an opaque digest, a token the tuple of the values it hashes; that the fingerprint text separates its fields is not modelled.
- `ioreg` text and its property readers: `IoregScan` starts from nodes with their properties read, and reports adapters as a set.
- `macos_descendant_identifiers`: collecting, sorting and deduplicating identifiers from a listing is not modelled; the checks on the resulting list are.
- DHCP addresses as dotted octets: `DhcpConfig` works on 32-bit numbers, `DhcpServer` on four octets; the conversion between them is not modelled.
- Retry-After header text and HTTP dates: a header arrives as absent, a number of seconds or unbounded.
- Python's recursion limit in the audit search, and the approved-exception part of the audit gate.
- The pages of pull requests, labels and releases in release automation: each read of them is an arbitrary yes or no.
- Contents checks of a private AHI install (ELF header, embedded stage root): only non-empty contents and portable modes are kept in the publication protocol.
- Changes by other processes inside a private stage directory or to the AHI live set outside the publisher protocol.
- SdWriter.WriteChunk: says nothing about the stored bytes of an unreliable device, which may store anything; that they are right then follows from the read-back alone.
- A Disk Arbitration claim that is granted only after the request timed out: the worker gives it back by itself, outside the run.
- Partial removal of a previous deployment: its removal succeeds or leaves the tree as it was.
