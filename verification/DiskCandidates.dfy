/**
 * The last filter of the disk scanners: of all candidates only those survive that share neither
 * identity nor device path nor raw device path with another one.
 */
module DiskCandidates {
  import opened SdWriter

  /** Two scan records that may describe one physical disk. */
  predicate Clash(a: Candidate, b: Candidate) {
    (a.platform == b.platform && a.identity == b.identity) || a.device == b.device || a.raw == b.raw
  }

  /** Record `i` clashes with no other record. */
  ghost predicate Alone(cs: seq<Candidate>, i: nat)
    requires i < |cs|
  {
    forall j :: 0 <= j < |cs| && j != i ==> !Clash(cs[i], cs[j])
  }

  /** The records among the first `n` that clash with none of all, in scan order. */
  ghost function Unambiguous(cs: seq<Candidate>, n: nat): seq<Candidate>
    requires n <= |cs|
  {
    if n == 0 then [] else Unambiguous(cs, n - 1) + if Alone(cs, n - 1) then [cs[n - 1]] else []
  }

  /** How many of the selected records have the key `k`. */
  function Count(cs: seq<Candidate>, key: Candidate -> string, selected: Candidate -> bool, k: string): nat {
    if cs == [] then 0
    else
      var last := cs[|cs| - 1];
      Count(cs[..|cs| - 1], key, selected, k) + if selected(last) && key(last) == k then 1 else 0
  }

  lemma {:induction false} CountZero(cs: seq<Candidate>, key: Candidate -> string, selected: Candidate -> bool, k: string)
    ensures Count(cs, key, selected, k) == 0 <==> forall j :: 0 <= j < |cs| && selected(cs[j]) ==> key(cs[j]) != k
  {
    if cs != [] {
      var init := cs[..|cs| - 1];
      CountZero(init, key, selected, k);
      assert forall j :: 0 <= j < |init| ==> init[j] == cs[j];
    }
  }

  /** Counted once means: no other selected record has this key. */
  lemma {:induction false} CountOne(cs: seq<Candidate>, key: Candidate -> string, selected: Candidate -> bool, i: nat)
    requires i < |cs| && selected(cs[i])
    ensures Count(cs, key, selected, key(cs[i])) == 1 <==>
      forall j :: 0 <= j < |cs| && j != i && selected(cs[j]) ==> key(cs[j]) != key(cs[i])
  {
    var init := cs[..|cs| - 1];
    assert forall j :: 0 <= j < |init| ==> init[j] == cs[j];
    CountZero(init, key, selected, key(cs[i]));
    if i < |init| { CountOne(init, key, selected, i); }
  }

  /** One occurrence table. */
  method CountKeys(cs: seq<Candidate>, key: Candidate -> string, selected: Candidate -> bool)
    returns (counts: map<string, nat>)
    ensures forall k :: (if k in counts then counts[k] else 0) == Count(cs, key, selected, k)
  {
    counts := map[];
    for i := 0 to |cs|
      invariant forall k :: (if k in counts then counts[k] else 0) == Count(cs[..i], key, selected, k)
    {
      assert cs[..i + 1][..i] == cs[..i];
      if selected(cs[i]) {
        var k := key(cs[i]);
        counts := counts[k := (if k in counts then counts[k] else 0) + 1];
      }
    }
    assert cs[..|cs|] == cs;
  }

  /** Three occurrence counts of one decide that a record is alone; identities are counted per platform. */
  lemma CountsDecide(cs: seq<Candidate>, i: nat, samePlatform: Candidate -> bool, every: Candidate -> bool)
    requires i < |cs|
    requires forall c :: every(c) && (samePlatform(c) <==> c.platform == cs[i].platform)
    ensures Alone(cs, i) <==>
      && Count(cs, IdentityOf, samePlatform, cs[i].identity) == 1
      && Count(cs, DeviceOf, every, cs[i].device) == 1
      && Count(cs, RawOf, every, cs[i].raw) == 1
  {
    CountOne(cs, IdentityOf, samePlatform, i);
    CountOne(cs, DeviceOf, every, i);
    CountOne(cs, RawOf, every, i);
  }

  function IdentityOf(c: Candidate): string { c.identity }
  function DeviceOf(c: Candidate): string { c.device }
  function RawOf(c: Candidate): string { c.raw }
  predicate OnMacos(c: Candidate) { c.platform == Macos }
  predicate OnLinux(c: Candidate) { c.platform == Linux }
  predicate Every(c: Candidate) { true }

  predicate Once(counts: map<string, nat>, k: string) { k in counts && counts[k] == 1 }

  /** `retain_unambiguous_physical_candidates`. */
  method RetainUnambiguous(cs: seq<Candidate>) returns (kept: seq<Candidate>)
    ensures kept == Unambiguous(cs, |cs|)
  {
    var macos := CountKeys(cs, IdentityOf, OnMacos);
    var linux := CountKeys(cs, IdentityOf, OnLinux);
    var devices := CountKeys(cs, DeviceOf, Every);
    var raws := CountKeys(cs, RawOf, Every);
    kept := [];
    for i := 0 to |cs|
      invariant kept == Unambiguous(cs, i)
    {
      CountsDecide(cs, i, if cs[i].platform == Macos then OnMacos else OnLinux, Every);
      var identities := if cs[i].platform == Macos then macos else linux;
      if Once(identities, cs[i].identity) && Once(devices, cs[i].device) && Once(raws, cs[i].raw) {
        kept := kept + [cs[i]];
      }
    }
  }

  lemma {:induction false} KeptExactly(cs: seq<Candidate>, n: nat, c: Candidate)
    requires n <= |cs|
    ensures c in Unambiguous(cs, n) <==> exists i :: 0 <= i < n && cs[i] == c && Alone(cs, i)
  {
    if n > 0 { KeptExactly(cs, n - 1, c); }
  }

  /** What is kept is kept without a rival: no two results clash, and none clashes with a dropped record. */
  lemma {:induction false} KeptNeverClash(cs: seq<Candidate>, n: nat)
    requires n <= |cs|
    ensures forall a, b :: 0 <= a < b < |Unambiguous(cs, n)| ==> !Clash(Unambiguous(cs, n)[a], Unambiguous(cs, n)[b])
  {
    if n > 0 {
      KeptNeverClash(cs, n - 1);
      var before, last := Unambiguous(cs, n - 1), cs[n - 1];
      if Alone(cs, n - 1) {
        forall a | 0 <= a < |before| ensures !Clash(before[a], last) {
          KeptExactly(cs, n - 1, before[a]);
        }
      }
    }
  }

  /** A kept record clashes with no other record of the scan, kept or not. */
  lemma KeptHasNoRival(cs: seq<Candidate>, c: Candidate, j: nat)
    requires c in Unambiguous(cs, |cs|) && j < |cs| && Clash(c, cs[j])
    ensures cs[j] == c && Alone(cs, j)
  {
    KeptExactly(cs, |cs|, c);
    var i :| 0 <= i < |cs| && cs[i] == c && Alone(cs, i);
    assert i == j;
  }
}
