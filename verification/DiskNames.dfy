/**
 * The device-name grammar shared by the disk scanners: which names are whole disks, which names
 * descend from a given disk, and that no accepted name has two owners.
 */
module DiskNames {
  import opened Text

  // ----- macOS -----

  predicate IsMacosWholeDisk(id: string) {
    "disk" <= id && Canonical(id[4..])
  }

  /** `sN1sN2...` for the given numbers. */
  function Segments(numbers: seq<string>): string {
    if numbers == [] then "" else "s" + numbers[0] + Segments(numbers[1..])
  }

  ghost predicate SegmentText(s: string, numbers: seq<string>) {
    s == Segments(numbers) && forall i :: 0 <= i < |numbers| ==> Canonical(numbers[i])
  }

  ghost predicate HasSegments(s: string) { exists numbers :: SegmentText(s, numbers) }

  /** The language of descendants: the whole disk followed by zero or more canonical segments. */
  ghost predicate IsMacosDescendant(id: string, whole: string) {
    IsMacosWholeDisk(whole) && whole <= id && HasSegments(id[|whole|..])
  }

  /** A segment text that is not empty starts with one canonical segment, found by the digit run. */
  lemma SegmentTextHead(s: string, numbers: seq<string>)
    requires SegmentText(s, numbers) && s != []
    ensures numbers != [] && s[0] == 's'
    ensures DigitRun(s[1..]) == |numbers[0]| && s[1..][..|numbers[0]|] == numbers[0]
    ensures SegmentText(s[1..][|numbers[0]|..], numbers[1..])
  {
    var tail := Segments(numbers[1..]);
    assert s == "s" + (numbers[0] + tail);
    assert s[1..] == numbers[0] + tail;
    DigitRunOfSplit(numbers[0], tail);
  }

  /** The loop over the suffix: accepts exactly one or more canonical segments. */
  method RecogniseSegments(text: string) returns (accepted: bool)
    ensures accepted <==> text != [] && HasSegments(text)
  {
    var suffix, segments := text, 0;
    while suffix != [] && suffix[0] == 's'
      invariant segments >= 0 && (segments == 0 ==> suffix == text) && (segments > 0 ==> text != [])
      invariant HasSegments(text) <==> HasSegments(suffix)
      decreases |suffix|
    {
      var rest := suffix[1..];
      var digits := DigitRun(rest);
      var number := rest[..digits];
      HeadDecides(suffix);
      if digits == 0 { return false; }
      if |number| > 1 && number[0] == '0' { return false; }
      suffix, segments := rest[digits..], segments + 1;
    }
    accepted := segments > 0 && suffix == [];
    SegmentsEnd(suffix);
  }

  /** What is left must be empty, or it is no segment text. */
  lemma SegmentsEnd(s: string)
    requires s == [] || s[0] != 's'
    ensures HasSegments(s) <==> s == []
  {
    if s == [] {
      assert SegmentText(s, []);
    } else {
      forall numbers ensures !SegmentText(s, numbers) {
        if SegmentText(s, numbers) { SegmentTextHead(s, numbers); }
      }
    }
  }

  /** Recognises exactly the descendant language, segment by segment. */
  method RecogniseMacosDescendant(id: string, whole: string) returns (accepted: bool)
    ensures accepted <==> IsMacosDescendant(id, whole)
  {
    if id == whole {
      SegmentsEnd(id[|whole|..]);
      return IsMacosWholeDisk(whole);
    }
    if !IsMacosWholeDisk(whole) { return false; }
    if !(whole <= id) { return false; }
    accepted := RecogniseSegments(id[|whole|..]);
  }

  /** A text starting with `s` is a segment text iff its digit run is canonical and the rest is one. */
  lemma HeadDecides(s: string)
    requires s != [] && s[0] == 's'
    ensures HasSegments(s) <==> Canonical(s[1..][..DigitRun(s[1..])]) && HasSegments(s[1..][DigitRun(s[1..])..])
  {
    var digits := DigitRun(s[1..]);
    var number, rest := s[1..][..digits], s[1..][digits..];
    if numbers :| SegmentText(s, numbers) {
      SegmentTextHead(s, numbers);
      assert SegmentText(rest, numbers[1..]);
    }
    if Canonical(number) && HasSegments(rest) {
      var numbers :| SegmentText(rest, numbers);
      assert ([number] + numbers)[1..] == numbers;
      assert s == "s" + number + rest;
      assert SegmentText(s, [number] + numbers);
    }
  }

  lemma OwnerBySplit(whole: string, rest: string)
    requires IsMacosWholeDisk(whole) && (rest == [] || rest[0] == 's')
    ensures "disk" <= whole + rest && whole == (whole + rest)[..4 + DigitRun((whole + rest)[4..])]
  {
    DigitRunOfSplit(whole[4..], rest);
    assert (whole + rest)[4..] == whole[4..] + rest;
  }

  /** The owner of a descendant is `disk` and the first digit run, so it is unique. */
  lemma MacosOwner(id: string, whole: string)
    requires IsMacosDescendant(id, whole)
    ensures "disk" <= id && whole == id[..4 + DigitRun(id[4..])]
  {
    var rest := id[|whole|..];
    assert rest == [] || rest[0] == 's' by {
      var numbers :| SegmentText(rest, numbers);
      if rest != [] { SegmentTextHead(rest, numbers); }
    }
    OwnerBySplit(whole, rest);
    assert id == whole + rest;
  }

  lemma MacosOwnerIsUnique(id: string, first: string, second: string)
    requires IsMacosDescendant(id, first) && IsMacosDescendant(id, second)
    ensures first == second
  {
    MacosOwner(id, first);
    MacosOwner(id, second);
  }

  // ----- Linux -----

  predicate IsLower(c: char) { 'a' <= c <= 'z' }

  predicate AllLowercase(s: string) { forall i :: 0 <= i < |s| ==> IsLower(s[i]) }

  predicate AllAlphanumeric(s: string) {
    forall i :: 0 <= i < |s| ==> IsDigit(s[i]) || IsLower(s[i]) || 'A' <= s[i] <= 'Z'
  }

  predicate IsSdName(name: string) { "sd" <= name && name[2..] != [] && AllLowercase(name[2..]) }

  predicate IsMmcName(name: string) { "mmcblk" <= name && Canonical(name[6..]) }

  /** The name part of `is_linux_whole_device_path`. */
  predicate IsLinuxWholeName(name: string) {
    AllAlphanumeric(name) && (IsSdName(name) || IsMmcName(name))
  }

  /** `is_linux_whole_device_path` on a path text. */
  predicate IsLinuxWholePath(path: string) {
    "/dev/" <= path && IsLinuxWholeName(path[5..])
  }

  /** `sd` with lowercase letters and `mmcblk` with a canonical number are whole disks. */
  lemma WholeNamesAccepted(letters: string, number: string)
    ensures letters != [] && AllLowercase(letters) ==> IsLinuxWholeName("sd" + letters)
    ensures Canonical(number) ==> IsLinuxWholeName("mmcblk" + number)
  {
    var sd, mmc := "sd" + letters, "mmcblk" + number;
    assert sd[2..] == letters && mmc[6..] == number;
    assert forall i :: 0 <= i < |sd| ==> sd[i] == if i < 2 then "sd"[i] else letters[i - 2];
    assert forall i :: 0 <= i < |mmc| ==> mmc[i] == if i < 6 then "mmcblk"[i] else number[i - 6];
  }

  datatype Family = UsbScsi | Mmc

  datatype FamilyResult = NoFamily | InFamily(family: Family)

  function DeviceFamily(root: string, transport: string): FamilyResult {
    if transport == "usb" && "sd" <= root then InFamily(UsbScsi)
    else if transport == "mmc" && "mmcblk" <= root then InFamily(Mmc)
    else NoFamily
  }

  predicate IsPartitionName(root: string, family: Family, name: string) {
    && root <= name
    && match family
       case UsbScsi => PartitionDigits(name[|root|..])
       case Mmc => "p" <= name[|root|..] && PartitionDigits(name[|root|..][1..])
  }

  predicate PartitionDigits(s: string) { s != [] && AllDigits(s) && s[0] != '0' }

  /** Partition names are the root, a `p` for MMC, and a number without leading zero; all of them are accepted. */
  lemma PartitionNamesExactly(root: string, family: Family, name: string)
    ensures IsPartitionName(root, family, name) <==>
      exists number :: name == root + (if family.Mmc? then "p" else "") + number
                       && number != [] && number[0] != '0' && forall i :: 0 <= i < |number| ==> '0' <= number[i] <= '9'
  {
    var middle := if family.Mmc? then "p" else "";
    if IsPartitionName(root, family, name) {
      var rest := name[|root|..];
      var number := rest[|middle|..];
      assert rest == middle + number && name == root + middle + number;
    }
    if number :| name == root + middle + number && number != [] && number[0] != '0'
                 && forall i :: 0 <= i < |number| ==> '0' <= number[i] <= '9'
    {
      assert name[|root|..] == middle + number && (middle + number)[|middle|..] == number;
    }
  }

  /** Longest lowercase run, the counterpart of `DigitRun` for `sdX` names. */
  function LetterRun(s: string): (n: nat)
    ensures n <= |s|
  {
    if s == [] || !IsLower(s[0]) then 0 else 1 + LetterRun(s[1..])
  }

  lemma {:induction false} LetterRunOfSplit(letters: string, rest: string)
    requires AllLowercase(letters) && (rest == [] || !IsLower(rest[0]))
    ensures LetterRun(letters + rest) == |letters|
  {
    if letters == [] {
      assert letters + rest == rest;
    } else {
      assert (letters + rest)[1..] == letters[1..] + rest;
      LetterRunOfSplit(letters[1..], rest);
    }
  }

  /** The owner read off a partition name alone, without knowing the disk. */
  function LinuxOwner(name: string): string {
    if "mmcblk" <= name && |name| > 6 && IsDigit(name[6]) then name[..6 + DigitRun(name[6..])]
    else name[..LetterRun(name)]
  }

  /** A canonical partition name decodes to the disk it was accepted under and to no other. */
  lemma PartitionOwner(root: string, family: Family, transport: string, name: string)
    requires IsLinuxWholeName(root) && DeviceFamily(root, transport) == InFamily(family)
    requires IsPartitionName(root, family, name)
    ensures LinuxOwner(name) == root
  {
    var rest := name[|root|..];
    assert name == root + rest;
    match family
    case UsbScsi =>
      assert root[0] == 's' && name[0] == 's';
      assert IsSdName(root);
      forall i | 0 <= i < |root| ensures IsLower(root[i]) {
        if i >= 2 { assert root[i] == root[2..][i - 2]; }
      }
      assert IsDigit(rest[0]);
      LetterRunOfSplit(root, rest);
    case Mmc =>
      assert root[0] == 'm';
      assert IsMmcName(root);
      assert name[6..] == root[6..] + rest;
      DigitRunOfSplit(root[6..], rest);
  }

  lemma LinuxOwnerIsUnique(first: string, f1: Family, t1: string, second: string, f2: Family, t2: string, name: string)
    requires IsLinuxWholeName(first) && DeviceFamily(first, t1) == InFamily(f1) && IsPartitionName(first, f1, name)
    requires IsLinuxWholeName(second) && DeviceFamily(second, t2) == InFamily(f2) && IsPartitionName(second, f2, name)
    ensures first == second
  {
    PartitionOwner(first, f1, t1, name);
    PartitionOwner(second, f2, t2, name);
  }
}
