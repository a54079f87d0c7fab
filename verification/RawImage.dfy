/**
 * Raw SD image construction: the layout check, the image geometry, the MBR sector and its
 * verification, and the theorem that no filesystem activity inside the partition can spoil it.
 */
module RawImage {
  import opened Bytes
  import opened PartitionStream

  const SECTOR_BYTES: nat := 512
  const MIB: nat := 1024 * 1024

  datatype Layout = Layout(scheme: string, filesystem: string, startLba: nat, sizeBytes: nat, volumeLabel: string)

  datatype LayoutError = BadScheme | BadFilesystem | BadStart | BadSize | BadLabel | BadChecksum

  predicate FatLabel(name: string) {
    && 1 <= |name| <= 11
    && forall c <- name :: 'a' <= c <= 'z' || 'A' <= c <= 'Z' || '0' <= c <= '9' || c == '_'
  }

  datatype Checked = Invalid(error: LayoutError) | Valid

  /** `validate_partition`, first failing test first; the checksum comparison is an input. */
  function ValidatePartition(layout: Layout, checksumMatches: bool): (r: Checked)
    ensures r.Valid? ==>
      && layout.startLba >= 2048 && layout.startLba % 2048 == 0
      && layout.sizeBytes >= 64 * MIB && layout.sizeBytes % SECTOR_BYTES == 0
  {
    if layout.scheme != "mbr" then Invalid(BadScheme)
    else if layout.filesystem != "fat32" then Invalid(BadFilesystem)
    else if layout.startLba < 2048 || layout.startLba % 2048 != 0 then Invalid(BadStart)
    else if layout.sizeBytes < 64 * MIB || layout.sizeBytes % SECTOR_BYTES != 0 then Invalid(BadSize)
    else if !FatLabel(layout.volumeLabel) then Invalid(BadLabel)
    else if !checksumMatches then Invalid(BadChecksum)
    else Valid
  }

  lemma Aligned(lba: nat)
    ensures lba > 0 && lba * SECTOR_BYTES % MIB == 0 <==> lba >= 2048 && lba % 2048 == 0
  {
    assert lba * 512 % 1048576 == lba % 2048 * 512;
  }

  lemma LabelCharacters(name: string)
    ensures FatLabel(name) <==>
      && 0 < |name| < 12
      && forall i :: 0 <= i < |name| ==>
           'a' <= name[i] <= 'z' || 'A' <= name[i] <= 'Z' || '0' <= name[i] <= '9' || name[i] == '_'
  {
    if FatLabel(name) {
      forall i | 0 <= i < |name|
        ensures 'a' <= name[i] <= 'z' || 'A' <= name[i] <= 'Z' || '0' <= name[i] <= '9' || name[i] == '_'
      {
        assert name[i] in name;
      }
    }
  }

  /** Exactly which layouts pass: a 1 MiB aligned MBR partition with FAT32, at least 64 MiB, whole sectors, a short plain label. */
  lemma LayoutAcceptedExactly(layout: Layout, checksumMatches: bool)
    ensures ValidatePartition(layout, checksumMatches).Valid? <==>
      && layout.scheme == "mbr" && layout.filesystem == "fat32" && checksumMatches
      && layout.startLba > 0 && layout.startLba * SECTOR_BYTES % MIB == 0
      && layout.sizeBytes >= 67108864 && layout.sizeBytes % 512 == 0
      && 0 < |layout.volumeLabel| < 12
      && (forall i :: 0 <= i < |layout.volumeLabel| ==>
            || 'a' <= layout.volumeLabel[i] <= 'z' || 'A' <= layout.volumeLabel[i] <= 'Z'
            || '0' <= layout.volumeLabel[i] <= '9' || layout.volumeLabel[i] == '_')
  {
    Aligned(layout.startLba);
    LabelCharacters(layout.volumeLabel);
  }

  datatype Geometry = Geometry(startLba: nat, sectorCount: nat, startBytes: nat, sizeBytes: nat, imageBytes: nat)

  datatype GeometryError = StartTooLarge | TooManySectors | NoSectors | OffsetOverflow | ImageOverflow

  datatype GeometryResult = Rejected(error: GeometryError) | Accepted(geometry: Geometry)

  /** `image_geometry` on u64 inputs, with every conversion and checked operation in order. */
  function ImageGeometry(startLba: nat, sizeBytes: nat): GeometryResult {
    if startLba >= U32_LIMIT then Rejected(StartTooLarge)
    else if sizeBytes / SECTOR_BYTES >= U32_LIMIT then Rejected(TooManySectors)
    else if sizeBytes / SECTOR_BYTES == 0 then Rejected(NoSectors)
    else if startLba * SECTOR_BYTES >= U64_LIMIT then Rejected(OffsetOverflow)
    else if startLba * SECTOR_BYTES + sizeBytes >= U64_LIMIT then Rejected(ImageOverflow)
    else Accepted(Geometry(startLba, sizeBytes / SECTOR_BYTES, startLba * SECTOR_BYTES, sizeBytes,
                           startLba * SECTOR_BYTES + sizeBytes))
  }

  /** The two u64 overflow branches can never be taken: the u32 conversions already exclude them. */
  lemma GeometryNeverOverflows(startLba: nat, sizeBytes: nat)
    ensures ImageGeometry(startLba, sizeBytes).Accepted?
       <==> startLba < U32_LIMIT && SECTOR_BYTES <= sizeBytes < U32_LIMIT * SECTOR_BYTES
    ensures var r := ImageGeometry(startLba, sizeBytes);
            r.Rejected? ==> r.error in {StartTooLarge, TooManySectors, NoSectors}
  {
    assert sizeBytes / SECTOR_BYTES >= U32_LIMIT <==> sizeBytes >= U32_LIMIT * SECTOR_BYTES;
    assert startLba < U32_LIMIT ==> startLba * SECTOR_BYTES < U32_LIMIT * SECTOR_BYTES;
  }

  /** What every later step relies on: whole sectors, and a partition ending exactly at the image end. */
  ghost predicate Exact(g: Geometry) {
    && g.startLba < U32_LIMIT && 0 < g.sectorCount < U32_LIMIT
    && g.startBytes == g.startLba * SECTOR_BYTES
    && g.sizeBytes == g.sectorCount * SECTOR_BYTES
    && g.startBytes + g.sizeBytes == g.imageBytes < U64_LIMIT
    && SECTOR_BYTES <= g.startBytes
  }

  lemma AcceptedLayoutIsExact(layout: Layout, checksumMatches: bool)
    requires ValidatePartition(layout, checksumMatches).Valid?
    requires ImageGeometry(layout.startLba, layout.sizeBytes).Accepted?
    ensures var g := ImageGeometry(layout.startLba, layout.sizeBytes).geometry;
            Exact(g) && g.startLba == layout.startLba && g.sizeBytes == layout.sizeBytes
  {
    assert layout.sizeBytes == layout.sizeBytes / SECTOR_BYTES * SECTOR_BYTES;
  }

  /** The first sector as a reader of an MBR disk decodes it: type, start LBA, sector count. */
  datatype Entry = Entry(kind: byte, startLba: nat, sectorCount: nat)

  function DecodeEntry(sector: seq<byte>): Entry
    requires |sector| >= 512
  {
    Entry(sector[450], FromLittleEndian(sector[454..458]), FromLittleEndian(sector[458..462]))
  }

  predicate Signed(sector: seq<byte>)
    requires |sector| >= 512
  {
    sector[510] == 0x55 && sector[511] == 0xaa
  }

  /** The little-endian field at `at` of a sector that holds `ToLittleEndian(n)` there. */
  lemma FieldDecodes(sector: seq<byte>, at: nat, n: nat)
    requires n < U32_LIMIT && at + 4 <= |sector|
    requires forall i :: at <= i < at + 4 ==> sector[i] == ToLittleEndian(n)[i - at]
    ensures FromLittleEndian(sector[at..at + 4]) == n
  {
    assert sector[at..at + 4] == ToLittleEndian(n);
  }

  /** `write_mbr` up to the file write: a zeroed buffer becomes the partition table. */
  method FillMbrSector(sector: array<byte>, g: Geometry)
    requires sector.Length == SECTOR_BYTES && forall i :: 0 <= i < SECTOR_BYTES ==> sector[i] == 0
    requires g.startLba < U32_LIMIT && g.sectorCount < U32_LIMIT
    modifies sector
    ensures Signed(sector[..]) && DecodeEntry(sector[..]) == Entry(0x0c, g.startLba, g.sectorCount)
    ensures forall i :: 0 <= i < 446 || 462 <= i < 510 ==> sector[i] == 0
    ensures forall i :: 446 <= i < 454 ==> sector[i] == [0, 0, 2, 0, 0x0c, 0xfe, 0xff, 0xff][i - 446]
  {
    CopyInto(sector, 446, [0x00, 0x00, 0x02, 0x00, 0x0c, 0xfe, 0xff, 0xff]);
    CopyInto(sector, 454, ToLittleEndian(g.startLba));
    CopyInto(sector, 458, ToLittleEndian(g.sectorCount));
    CopyInto(sector, 510, [0x55, 0xaa]);
    FieldDecodes(sector[..], 454, g.startLba);
    FieldDecodes(sector[..], 458, g.sectorCount);
  }

  /** Every transfer makes progress, and there are enough of them for `size` bytes. */
  predicate Willing(transfers: seq<Transfer>, size: nat) {
    size <= |transfers| && forall i :: 0 <= i < |transfers| ==> transfers[i].Moves? && transfers[i].count > 0
  }

  /** `write_all` at the cursor over any sequence of short, empty or failing transfers. */
  method WriteAll(file: ImageFile, data: seq<byte>, transfers: seq<Transfer>) returns (ok: bool)
    requires file.cursor + |data| <= |file.bytes|
    modifies file
    ensures |file.bytes| == old(|file.bytes|)
    ensures ok ==> file.bytes == Overwrite(old(file.bytes), old(file.cursor), data)
    ensures Willing(transfers, |data|) ==> ok
  {
    var done, i := 0, 0;
    while done < |data|
      invariant 0 <= i <= done <= |data| && i <= |transfers|
      invariant file.cursor == old(file.cursor) + done
      invariant file.bytes == Overwrite(old(file.bytes), old(file.cursor), data[..done])
      decreases |transfers| - i
    {
      if i == |transfers| || transfers[i].Fails? || transfers[i].count == 0 { return false; }
      var r := file.Write(data[done..], transfers[i]);
      NextWrite(old(file.bytes), old(file.cursor), data, done, r.count);
      done, i := done + r.count, i + 1;
    }
    assert data[..done] == data;
    ok := true;
  }

  /** `verify_mbr` on the bytes of the image: signature, type and the two little-endian fields. */
  predicate VerifyMbr(image: seq<byte>, g: Geometry)
    requires g.startLba < U32_LIMIT && g.sectorCount < U32_LIMIT
  {
    && |image| >= SECTOR_BYTES
    && image[510..512] == [0x55, 0xaa]
    && image[450] == 0x0c
    && image[454..458] == ToLittleEndian(g.startLba)
    && image[458..462] == ToLittleEndian(g.sectorCount)
  }

  /** Little-endian fields are equal as bytes exactly when they decode to the same number. */
  lemma LittleEndianInjective(b: seq<byte>, n: nat)
    requires |b| == 4 && n < U32_LIMIT
    ensures b == ToLittleEndian(n) <==> FromLittleEndian(b) == n
  {
    if FromLittleEndian(b) == n {
      var high: int := b[2] as int + 0x100 * (b[3] as int);
      assert n % 0x100 == b[0] && n / 0x100 == b[1] as int + 0x100 * high;
      assert n / 0x100 / 0x100 == high;
    }
  }

  /** The byte comparison of `verify_mbr` accepts exactly the sectors that decode to the geometry. */
  lemma VerifyMbrDecodes(image: seq<byte>, g: Geometry)
    requires g.startLba < U32_LIMIT && g.sectorCount < U32_LIMIT
    ensures VerifyMbr(image, g)
       <==> |image| >= SECTOR_BYTES && Signed(image) && DecodeEntry(image) == Entry(0x0c, g.startLba, g.sectorCount)
  {
    if |image| >= SECTOR_BYTES {
      assert image[510..512] == [image[510], image[511]];
      LittleEndianInjective(image[454..458], g.startLba);
      LittleEndianInjective(image[458..462], g.sectorCount);
    }
  }

  datatype Staging = LayoutRefused | GeometryRefused(error: GeometryError) | MbrWriteFailed | WindowRefused | MbrMismatch | Staged

  /** The finished image: table, zeros up to the partition, then what the filesystem driver left. */
  ghost predicate ImageOf(image: seq<byte>, g: Geometry, filesystem: seq<Op>)
    requires Exact(g)
  {
    && |image| == g.imageBytes
    && Signed(image)
    && DecodeEntry(image) == Entry(0x0c, g.startLba, g.sectorCount)
    && image[SECTOR_BYTES..g.startBytes] == Zeros(g.startBytes - SECTOR_BYTES)
    && image[g.startBytes..] == DiskRun(Disk(Zeros(g.sizeBytes), 0), filesystem).0.bytes
  }

  /** The freshly sized image file with its partition table. */
  method CreateImage(g: Geometry, transfers: seq<Transfer>) returns (ok: bool, file: ImageFile)
    requires Exact(g)
    ensures fresh(file) && (Willing(transfers, SECTOR_BYTES) ==> ok)
    ensures ok ==>
      && |file.bytes| == g.imageBytes
      && Signed(file.bytes) && DecodeEntry(file.bytes) == Entry(0x0c, g.startLba, g.sectorCount)
      && file.bytes[..g.startBytes][SECTOR_BYTES..] == Zeros(g.startBytes - SECTOR_BYTES)
      && file.bytes[g.startBytes..g.startBytes + g.sizeBytes] == Zeros(g.sizeBytes)
  {
    file := new ImageFile(Zeros(g.imageBytes));
    var sector := new byte[SECTOR_BYTES](_ => 0);
    FillMbrSector(sector, g);
    ok := WriteAll(file, sector[..], transfers);
    if ok {
      MbrOnZeros(file.bytes, sector[..], g);
      FirstSectorDecides(file.bytes, file.bytes, g);
    }
  }

  /**
   * `build_raw_image_from_parts` with the FAT driver replaced by an arbitrary operation sequence
   * on the partition window: whatever the driver does, the window opens, the MBR still verifies
   * and still decodes to the declared partition, and the image keeps its exact size.
   */
  method BuildRawImage(g: Geometry, transfers: seq<Transfer>, filesystem: seq<Op>)
    returns (r: Staging, image: seq<byte>)
    requires Exact(g)
    ensures r == MbrWriteFailed || r == Staged
    ensures Willing(transfers, SECTOR_BYTES) ==> r == Staged
    ensures r == Staged ==> ImageOf(image, g, filesystem)
  {
    image := [];
    var created, file := CreateImage(g, transfers);
    if !created { return MbrWriteFailed, []; }
    ghost var withMbr := file.bytes;
    var opening := Stream.Open(file, g.startBytes, g.sizeBytes);
    if opening.Refused? { return WindowRefused, []; }
    var stream := opening.stream;
    var outcomes := stream.PerformAll(filesystem);
    image := file.bytes;
    FirstSectorDecides(image, withMbr, g);
    VerifyMbrDecodes(image, g);
    if !VerifyMbr(image, g) { return MbrMismatch, image; }
    assert image[SECTOR_BYTES..g.startBytes] == image[..g.startBytes][SECTOR_BYTES..];
    assert image[g.startBytes..] == image[g.startBytes..g.startBytes + g.sizeBytes];
    r := Staged;
  }

  /** The whole staging of a declared layout, from the manifest checks to the verified image. */
  method StageImage(layout: Layout, checksumMatches: bool, transfers: seq<Transfer>, filesystem: seq<Op>)
    returns (r: Staging, image: seq<byte>)
    requires layout.startLba < U64_LIMIT && layout.sizeBytes < U64_LIMIT
    ensures r != WindowRefused && r != MbrMismatch
    ensures r == LayoutRefused <==> ValidatePartition(layout, checksumMatches).Invalid?
    ensures r.GeometryRefused? <==> ValidatePartition(layout, checksumMatches).Valid?
                                    && ImageGeometry(layout.startLba, layout.sizeBytes).Rejected?
    ensures r.GeometryRefused? ==> r.error in {StartTooLarge, TooManySectors}
    ensures r == MbrWriteFailed ==> !Willing(transfers, SECTOR_BYTES)
    ensures r == Staged ==>
      && ImageGeometry(layout.startLba, layout.sizeBytes).Accepted?
      && var g := ImageGeometry(layout.startLba, layout.sizeBytes).geometry;
      && Exact(g) && g.startLba == layout.startLba && g.sizeBytes == layout.sizeBytes
      && ImageOf(image, g, filesystem)
  {
    image := [];
    if ValidatePartition(layout, checksumMatches).Invalid? { return LayoutRefused, []; }
    GeometryNeverOverflows(layout.startLba, layout.sizeBytes);
    var accepted := ImageGeometry(layout.startLba, layout.sizeBytes);
    if accepted.Rejected? { return GeometryRefused(accepted.error), []; }
    AcceptedLayoutIsExact(layout, checksumMatches);
    r, image := BuildRawImage(accepted.geometry, transfers, filesystem);
  }

  lemma ZeroStretch(s: seq<byte>, from: nat, to: nat)
    requires from <= to <= |s| && forall i :: from <= i < to ==> s[i] == 0
    ensures s[from..to] == Zeros(to - from)
  {
  }

  /** A zeroed image after the MBR write: the sector, zeros up to the partition, a zero partition. */
  lemma MbrOnZeros(image: seq<byte>, sector: seq<byte>, g: Geometry)
    requires Exact(g) && |sector| == SECTOR_BYTES && image == Overwrite(Zeros(g.imageBytes), 0, sector)
    ensures |image| == g.imageBytes && image[..SECTOR_BYTES] == sector
    ensures image[..g.startBytes][SECTOR_BYTES..] == Zeros(g.startBytes - SECTOR_BYTES)
    ensures image[g.startBytes..g.startBytes + g.sizeBytes] == Zeros(g.sizeBytes)
  {
    forall i | 0 <= i < g.imageBytes ensures image[i] == if i < SECTOR_BYTES then sector[i] else 0 {
      OverwriteAt(Zeros(g.imageBytes), 0, sector, i);
    }
    ZeroStretch(image, g.startBytes, g.startBytes + g.sizeBytes);
    ZeroStretch(image, SECTOR_BYTES, g.startBytes);
    assert image[..g.startBytes][SECTOR_BYTES..] == image[SECTOR_BYTES..g.startBytes];
  }

  /** Two images that agree below the partition start carry the same partition table. */
  lemma FirstSectorDecides(a: seq<byte>, b: seq<byte>, g: Geometry)
    requires Exact(g) && |a| == |b| == g.imageBytes && a[..g.startBytes] == b[..g.startBytes]
    ensures Signed(a) == Signed(b) && DecodeEntry(a) == DecodeEntry(b)
    ensures Signed(a) == Signed(a[..SECTOR_BYTES]) && DecodeEntry(a) == DecodeEntry(a[..SECTOR_BYTES])
    ensures Signed(b) == Signed(b[..SECTOR_BYTES]) && DecodeEntry(b) == DecodeEntry(b[..SECTOR_BYTES])
  {
    forall i | 0 <= i < SECTOR_BYTES ensures a[i] == b[i] {
      assert a[..g.startBytes][i] == b[..g.startBytes][i];
    }
    assert a[454..458] == b[454..458] == a[..SECTOR_BYTES][454..458] == b[..SECTOR_BYTES][454..458];
    assert a[458..462] == b[458..462] == a[..SECTOR_BYTES][458..462] == b[..SECTOR_BYTES][458..462];
  }
}
