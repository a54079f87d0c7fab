/**
 * The bounded, seekable view of one partition inside a raw image file, proved to behave as a
 * standalone disk of `length` bytes over every sequence of operations, with every image byte
 * outside the partition untouched.
 */
module PartitionStream {
  import opened Bytes

  /** What the operating system does with one request: it may refuse it or move fewer bytes. */
  datatype Transfer = Fails | Moves(count: nat)

  datatype SeekFrom = Start(position: nat) | Current(offset: int) | End(offset: int)

  datatype Op =
    | Read(want: nat, os: Transfer)
    | Write(data: seq<byte>, os: Transfer)
    | Seek(to: SeekFrom)

  datatype IoError = OsFailure | SeekOutside | RangeOverflow | BeyondImage

  datatype Outcome =
    | Failed(error: IoError)
    | Data(bytes: seq<byte>)
    | Count(count: nat)
    | At(position: nat)

  /** The reference object: a disk of fixed size with a position that never leaves it. */
  datatype Disk = Disk(bytes: seq<byte>, position: nat) {
    predicate Valid() { position <= |bytes| }
  }

  function SeekTarget(length: nat, position: nat, to: SeekFrom): int {
    match to
    case Start(p) => p
    case Current(offset) => position + offset
    case End(offset) => length + offset
  }

  function DiskStep(d: Disk, op: Op): (r: (Disk, Outcome))
    requires d.Valid()
    ensures r.0.Valid() && |r.0.bytes| == |d.bytes|
    ensures r.1.Failed? ==> r.0 == d
  {
    match op
    case Read(want, os) =>
      var n := Min(want, |d.bytes| - d.position);
      if n == 0 then (d, Data([]))
      else if os.Fails? then (d, Failed(OsFailure))
      else
        var k := Min(os.count, n);
        (d.(position := d.position + k), Data(d.bytes[d.position..d.position + k]))
    case Write(data, os) =>
      var n := Min(|data|, |d.bytes| - d.position);
      if n == 0 then (d, Count(0))
      else if os.Fails? then (d, Failed(OsFailure))
      else
        var k := Min(os.count, n);
        (Disk(Overwrite(d.bytes, d.position, data[..k]), d.position + k), Count(k))
    case Seek(to) =>
      var p := SeekTarget(|d.bytes|, d.position, to);
      if p < 0 || p > |d.bytes| then (d, Failed(SeekOutside)) else (d.(position := p), At(p))
  }

  /** Where a seek lands, counted from each origin; outside the disk it fails and nothing moves. */
  lemma SeekLands(d: Disk, to: SeekFrom)
    requires d.Valid()
    ensures match to
      case Start(p) => DiskStep(d, Op.Seek(to)) == Landed(d, p)
      case Current(offset) => DiskStep(d, Op.Seek(to)) == Landed(d, d.position + offset)
      case End(offset) => DiskStep(d, Op.Seek(to)) == Landed(d, |d.bytes| + offset)
  {
  }

  function Landed(d: Disk, target: int): (Disk, Outcome) {
    if 0 <= target <= |d.bytes| then (Disk(d.bytes, target), At(target)) else (d, Failed(SeekOutside))
  }

  /** Seeking by an offset and back again is no move at all. */
  lemma SeekReturns(d: Disk, offset: int)
    requires d.Valid() && DiskStep(d, Op.Seek(Current(offset))).1.At?
    ensures DiskStep(DiskStep(d, Op.Seek(Current(offset))).0, Op.Seek(Current(-offset))).0 == d
  {
    SeekLands(d, Current(offset));
    SeekLands(DiskStep(d, Op.Seek(Current(offset))).0, Current(-offset));
  }

  /** The disk and the outcomes after a whole sequence of operations. */
  function DiskRun(d: Disk, ops: seq<Op>): (r: (Disk, seq<Outcome>))
    requires d.Valid()
    ensures r.0.Valid() && |r.0.bytes| == |d.bytes| && |r.1| == |ops|
  {
    if ops == [] then (d, [])
    else
      var before := DiskRun(d, ops[..|ops| - 1]);
      var last := DiskStep(before.0, ops[|ops| - 1]);
      (last.0, before.1 + [last.1])
  }

  /** What the reference disk is for: bytes accepted by a write come back from a later read. */
  lemma DiskReadsBackWrites(d: Disk, data: seq<byte>, os: Transfer)
    requires d.Valid() && DiskStep(d, Write(data, os)).1.Count?
    ensures
      var (written, count) := DiskStep(d, Write(data, os));
      var (rewound, at) := DiskStep(written, Seek(Start(d.position)));
      && at == At(d.position)
      && DiskStep(rewound, Read(count.count, Moves(count.count))).1 == Data(data[..count.count])
  {
    var (written, count) := DiskStep(d, Write(data, os));
    assert count.count <= |data| && d.position + count.count <= |d.bytes|;
    assert written.bytes[d.position..d.position + count.count] == data[..count.count];
  }

  /** The image file: a byte sequence and the cursor of its one open handle. */
  class ImageFile {
    var bytes: seq<byte>
    var cursor: nat

    constructor (contents: seq<byte>)
      ensures bytes == contents && cursor == 0
    {
      bytes, cursor := contents, 0;
    }

    method SeekStart(position: nat)
      modifies this`cursor
      ensures cursor == position
    {
      cursor := position;
    }

    method Read(want: nat, os: Transfer) returns (r: Outcome)
      modifies this`cursor
      ensures os.Fails? ==> r == Failed(OsFailure)
      ensures os.Moves? && old(cursor) <= |bytes| ==>
        var k := Min(os.count, Min(want, |bytes| - old(cursor)));
        r == Data(bytes[old(cursor)..old(cursor) + k]) && cursor == old(cursor) + k
    {
      match os
      case Fails => r := Failed(OsFailure);
      case Moves(count) =>
        var left := if cursor <= |bytes| then |bytes| - cursor else 0;
        var k := Min(count, Min(want, left));
        r := Data(if k == 0 then [] else bytes[cursor..cursor + k]);
        cursor := cursor + k;
    }

    method Write(data: seq<byte>, os: Transfer) returns (r: Outcome)
      modifies this
      ensures os.Fails? ==> r == Failed(OsFailure) && bytes == old(bytes)
      ensures os.Moves? ==>
        var k := Min(os.count, |data|);
        r == Count(k) && bytes == Overwrite(old(bytes), old(cursor), data[..k]) && cursor == old(cursor) + k
    {
      match os
      case Fails => r := Failed(OsFailure);
      case Moves(count) =>
        var k := Min(count, |data|);
        bytes := Overwrite(bytes, cursor, data[..k]);
        cursor := cursor + k;
        r := Count(k);
    }
  }

  datatype Opening = Refused(error: IoError) | Opened(stream: Stream)

  class Stream {
    const file: ImageFile
    const start: nat
    const length: nat
    var position: nat

    /** Established by `Open`, kept by every operation; the last line excludes u64 wrap-around. */
    ghost predicate Valid()
      reads this, file
    {
      && position <= length
      && start + length <= |file.bytes|
      && start + length < U64_LIMIT
    }

    /** The disk a user of the stream sees. */
    ghost function View(): (d: Disk)
      requires Valid()
      reads this, file
      ensures d.Valid()
    {
      Disk(file.bytes[start..start + length], position)
    }

    /** The bytes of the image that do not belong to the partition. */
    ghost function Outside(): (seq<byte>, seq<byte>)
      requires Valid()
      reads this, file
    {
      (file.bytes[..start], file.bytes[start + length..])
    }

    constructor (file: ImageFile, start: nat, length: nat)
      requires start + length <= |file.bytes| && start + length < U64_LIMIT
      ensures Valid() && this.file == file && this.start == start && this.length == length && position == 0
    {
      this.file, this.start, this.length, position := file, start, length, 0;
    }

    /** `PartitionStream::new`: both rejections, and a window at position zero otherwise. */
    static method Open(file: ImageFile, start: nat, length: nat) returns (r: Opening)
      requires start < U64_LIMIT && length < U64_LIMIT
      ensures start + length >= U64_LIMIT ==> r == Refused(RangeOverflow)
      ensures start + length < U64_LIMIT && |file.bytes| < start + length ==> r == Refused(BeyondImage)
      ensures start + length < U64_LIMIT && start + length <= |file.bytes| ==>
        && r.Opened? && fresh(r.stream) && r.stream.Valid() && r.stream.file == file
        && r.stream.start == start && r.stream.length == length && r.stream.position == 0
    {
      if start + length >= U64_LIMIT { return Refused(RangeOverflow); }
      if |file.bytes| < start + length { return Refused(BeyondImage); }
      var stream := new Stream(file, start, length);
      r := Opened(stream);
    }

    /** `absolute_position`: the overflow branch is unreachable on a valid stream. */
    function AbsolutePosition(): (p: nat)
      requires Valid()
      reads this, file
      ensures start <= p <= start + length && p < U64_LIMIT
    {
      start + position
    }

    /** `bounded_buffer_length`: the unsigned difference never wraps because position <= length. */
    function BoundedLength(wanted: nat): (n: nat)
      requires Valid()
      reads this, file
      ensures n <= wanted && position + n <= length
      ensures n == 0 <==> wanted == 0 || position == length
    {
      Min(length - position, wanted)
    }

    method Read(want: nat, os: Transfer) returns (r: Outcome)
      requires Valid()
      modifies this`position, file`cursor
      ensures Valid() && Outside() == old(Outside())
      ensures (View(), r) == DiskStep(old(View()), Op.Read(want, os))
    {
      var n := BoundedLength(want);
      if n == 0 { return Data([]); }
      file.SeekStart(AbsolutePosition());
      r := file.Read(n, os);
      if r.Data? {
        SliceOfSlice(file.bytes, start, start + length, position, position + |r.bytes|);
        position := position + |r.bytes|;
      }
    }

    method Write(data: seq<byte>, os: Transfer) returns (r: Outcome)
      requires Valid()
      modifies this`position, file
      ensures Valid() && Outside() == old(Outside()) && |file.bytes| == old(|file.bytes|)
      ensures (View(), r) == DiskStep(old(View()), Op.Write(data, os))
    {
      var n := BoundedLength(|data|);
      if n == 0 { return Count(0); }
      file.SeekStart(AbsolutePosition());
      ghost var before := file.bytes;
      r := file.Write(data[..n], os);
      if r.Count? {
        PrefixOfPrefix(data, n, r.count);
        OverwriteInWindow(before, start, length, position, data[..r.count]);
        position := position + r.count;
      }
    }

    method Seek(to: SeekFrom) returns (r: Outcome)
      requires Valid()
      modifies this`position
      ensures Valid() && Outside() == old(Outside())
      ensures (View(), r) == DiskStep(old(View()), Op.Seek(to))
    {
      var target := SeekTarget(length, position, to);
      if target < 0 || target > length { return Failed(SeekOutside); }
      position := target;
      r := At(target);
    }

    method Perform(op: Op) returns (r: Outcome)
      requires Valid()
      modifies this`position, file
      ensures Valid() && Outside() == old(Outside()) && |file.bytes| == old(|file.bytes|)
      ensures (View(), r) == DiskStep(old(View()), op)
    {
      match op
      case Read(want, os) => r := Read(want, os);
      case Write(data, os) => r := Write(data, os);
      case Seek(to) => r := Seek(to);
    }

    /** The refinement theorem: any operation sequence gives the standalone disk's outcomes and contents. */
    method PerformAll(ops: seq<Op>) returns (outcomes: seq<Outcome>)
      requires Valid()
      modifies this`position, file
      ensures Valid() && Outside() == old(Outside()) && |file.bytes| == old(|file.bytes|)
      ensures (View(), outcomes) == DiskRun(old(View()), ops)
    {
      outcomes := [];
      for i := 0 to |ops|
        invariant Valid() && Outside() == old(Outside()) && |file.bytes| == old(|file.bytes|)
        invariant (View(), outcomes) == DiskRun(old(View()), ops[..i])
      {
        assert ops[..i + 1][..i] == ops[..i];
        var r := Perform(ops[i]);
        outcomes := outcomes + [r];
      }
      assert ops[..|ops|] == ops;
    }
  }

  /** Overwriting through the window is overwriting inside the window, and nothing else changes. */
  lemma OverwriteInWindow(s: seq<byte>, start: nat, length: nat, at: nat, data: seq<byte>)
    requires start + length <= |s| && at + |data| <= length
    ensures var r := Overwrite(s, start + at, data);
            && |r| == |s| && r[..start] == s[..start] && r[start + length..] == s[start + length..]
            && r[start..start + length] == Overwrite(s[start..start + length], at, data)
  {
    OverwriteOutside(s, start, length, at, data);
    OverwriteInside(s, start, length, at, data);
  }

  lemma OverwriteInside(s: seq<byte>, start: nat, length: nat, at: nat, data: seq<byte>)
    requires start + length <= |s| && at + |data| <= length
    ensures |Overwrite(s, start + at, data)| == |s|
    ensures Overwrite(s, start + at, data)[start..start + length] == Overwrite(s[start..start + length], at, data)
  {
    var r, w := Overwrite(s, start + at, data), s[start..start + length];
    forall i | 0 <= i < length ensures r[start + i] == Overwrite(w, at, data)[i] {
      OverwriteAt(s, start + at, data, start + i);
      OverwriteAt(w, at, data, i);
    }
  }

  lemma OverwriteOutside(s: seq<byte>, start: nat, length: nat, at: nat, data: seq<byte>)
    requires start + length <= |s| && at + |data| <= length
    ensures var r := Overwrite(s, start + at, data);
            |r| == |s| && r[..start] == s[..start] && r[start + length..] == s[start + length..]
  {
    var r := Overwrite(s, start + at, data);
    forall i | 0 <= i < |s| && (i < start || start + length <= i) ensures r[i] == s[i] {
      OverwriteAt(s, start + at, data, i);
    }
  }
}
