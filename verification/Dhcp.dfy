/**
 * The single-lease DHCPv4 server at the byte level: the option parser loop against the option
 * grammar of RFC 2132 section 2, the fixed BOOTP header, the reply builder and the receive step.
 */
module Dhcp {
  import opened Wrappers
  import opened Bytes

  const PAD: byte := 0
  const END: byte := 255
  const REQUESTED_IP: byte := 50
  const MESSAGE_TYPE: byte := 53
  const SERVER_ID: byte := 54

  datatype Kind = Discover | Offer | Request | Ack

  function KindOf(value: byte): Option<Kind> {
    if value == 1 then Some(Discover) else if value == 2 then Some(Offer)
    else if value == 3 then Some(Request) else if value == 5 then Some(Ack) else None
  }

  function KindByte(k: Kind): (b: byte)
    ensures KindOf(b) == Some(k)
  {
    match k case Discover => 1 case Offer => 2 case Request => 3 case Ack => 5
  }

  // ----- the option grammar -----

  datatype Item = Pad | Opt(code: byte, value: seq<byte>)

  predicate Legal(i: Item) {
    i.Opt? ==> i.code != PAD && i.code != END && |i.value| <= 255
  }

  predicate AllLegal(items: seq<Item>) {
    forall i :: 0 <= i < |items| ==> Legal(items[i])
  }

  function EncodeItem(i: Item): seq<byte>
    requires Legal(i)
  {
    match i case Pad => [PAD] case Opt(code, value) => [code, |value|] + value
  }

  function Encode(items: seq<Item>): seq<byte>
    requires AllLegal(items)
  {
    if items == [] then [] else EncodeItem(items[0]) + Encode(items[1..])
  }

  /** The items of an option field up to its END, or nothing when it is cut short. */
  function Items(p: seq<byte>): (r: Option<seq<Item>>)
    ensures r.Some? ==> AllLegal(r.value)
  {
    if p == [] then None
    else if p[0] == END then Some([])
    else if p[0] == PAD then
      var rest := Items(p[1..]);
      if rest.None? then None else Some([Pad] + rest.value)
    else if |p| < 2 || |p| < 2 + p[1] as int then None
    else
      var rest := Items(p[2 + p[1] as int..]);
      if rest.None? then None else Some([Opt(p[0], p[2..2 + p[1] as int])] + rest.value)
  }

  lemma EncodeCons(item: Item, items: seq<Item>)
    requires Legal(item) && AllLegal(items)
    ensures Encode([item] + items) == EncodeItem(item) + Encode(items)
  {
    assert ([item] + items)[1..] == items;
  }

  /** Decoding one item off the front of a field. */
  lemma ItemsCons(item: Item, p: seq<byte>)
    requires Legal(item)
    ensures Items(EncodeItem(item) + p) == if Items(p).None? then None else Some([item] + Items(p).value)
  {
    var q := EncodeItem(item) + p;
    if item.Pad? {
      assert q[1..] == p;
    } else {
      var n := |item.value|;
      assert q[2..2 + n] == item.value && q[2 + n..] == p;
    }
  }

  /** The first item of an accepted field, and the bytes it takes. */
  lemma ItemsHead(p: seq<byte>) returns (skip: nat, item: Item)
    requires Items(p).Some? && p[0] != END
    ensures 0 < skip <= |p| && Legal(item) && EncodeItem(item) == p[..skip]
    ensures Items(p[skip..]).Some? && Items(p).value == [item] + Items(p[skip..]).value
  {
    if p[0] == PAD {
      skip, item := 1, Pad;
    } else {
      skip := 2 + p[1] as int;
      item := Opt(p[0], p[2..skip]);
    }
  }

  /** Decoding inverts encoding, whatever follows the END byte. */
  lemma {:induction false} ItemsOfEncoding(items: seq<Item>, rest: seq<byte>)
    requires AllLegal(items)
    ensures Items(Encode(items) + [END] + rest) == Some(items)
  {
    if items == [] {
      assert (Encode(items) + [END] + rest)[0] == END;
    } else {
      var tail := Encode(items[1..]) + [END] + rest;
      ItemsOfEncoding(items[1..], rest);
      assert Encode(items) + [END] + rest == EncodeItem(items[0]) + tail;
      ItemsCons(items[0], tail);
      assert [items[0]] + items[1..] == items;
    }
  }

  /** Every accepted field is such an encoding. */
  lemma {:induction false} EncodingOfItems(p: seq<byte>) returns (rest: seq<byte>)
    requires Items(p).Some?
    ensures p == Encode(Items(p).value) + [END] + rest
  {
    if p[0] == END {
      rest := p[1..];
    } else {
      var skip, item := ItemsHead(p);
      rest := EncodingOfItems(p[skip..]);
      EncodeCons(item, Items(p[skip..]).value);
      assert p == p[..skip] + p[skip..];
    }
  }

  lemma CutItemIsRejected(item: Item, n: nat)
    requires Legal(item) && n < |EncodeItem(item)|
    ensures Items(EncodeItem(item)[..n]).None?
  {
  }

  /** A field cut anywhere before its END is never accepted. */
  lemma {:induction false} TruncatedIsRejected(items: seq<Item>, n: nat)
    requires AllLegal(items) && n <= |Encode(items)|
    ensures Items((Encode(items) + [END])[..n]).None?
  {
    var p := (Encode(items) + [END])[..n];
    if items != [] && n > 0 {
      var head, tail := EncodeItem(items[0]), Encode(items[1..]) + [END];
      assert Encode(items) + [END] == head + tail;
      if n >= |head| {
        TruncatedIsRejected(items[1..], n - |head|);
        assert p == head + tail[..n - |head|];
        ItemsCons(items[0], tail[..n - |head|]);
      } else {
        assert p == head[..n];
        CutItemIsRejected(items[0], n);
      }
    }
  }

  // ----- what the items mean -----

  datatype Options = Options(kind: Option<Kind>, requested: Option<seq<byte>>, server: Option<seq<byte>>)

  /** The values of all options with one code, in order. */
  function Values(items: seq<Item>, code: byte): seq<seq<byte>> {
    if items == [] then []
    else
      var before, last := Values(items[..|items| - 1], code), items[|items| - 1];
      if last.Opt? && last.code == code then before + [last.value] else before
  }

  predicate KindsOk(values: seq<seq<byte>>) {
    values == [] || (|values| == 1 && |values[0]| == 1 && KindOf(values[0][0]).Some?)
  }

  predicate AddressesOk(values: seq<seq<byte>>) {
    values == [] || (|values| == 1 && |values[0]| == 4)
  }

  function Address(values: seq<seq<byte>>): Option<seq<byte>> {
    if values == [] then None else Some(values[0])
  }

  /** Each critical option at most once and with a legal value; everything else is ignored. */
  function Meaning(items: seq<Item>): Option<Options> {
    var kinds := Values(items, MESSAGE_TYPE);
    if KindsOk(kinds) && AddressesOk(Values(items, REQUESTED_IP)) && AddressesOk(Values(items, SERVER_ID)) then
      Some(Options(if kinds == [] then None else KindOf(kinds[0][0]),
                   Address(Values(items, REQUESTED_IP)), Address(Values(items, SERVER_ID))))
    else None
  }

  /** A defect in the items read so far cannot be repaired by later items. */
  lemma {:induction false} DefectStays(items: seq<Item>, more: seq<Item>)
    requires Meaning(items).None?
    ensures Meaning(items + more).None?
  {
    ValuesPrefix(items, more, MESSAGE_TYPE);
    ValuesPrefix(items, more, REQUESTED_IP);
    ValuesPrefix(items, more, SERVER_ID);
  }

  lemma {:induction false} ValuesPrefix(items: seq<Item>, more: seq<Item>, code: byte)
    ensures Values(items, code) <= Values(items + more, code)
  {
    if more == [] {
      assert items + more == items;
    } else {
      var init := more[..|more| - 1];
      ValuesPrefix(items, init, code);
      assert (items + more)[..|items + more| - 1] == items + init;
    }
  }

  /** What the parser has to compute. */
  function ParsedOptions(p: seq<byte>): Option<Options> {
    if Items(p).None? then None else Meaning(Items(p).value)
  }

  /** The body of the parser's `match`: store a critical value once, or give up. */
  function Store(options: Options, code: byte, value: seq<byte>): Option<Options> {
    if code == MESSAGE_TYPE then
      if |value| != 1 || options.kind.Some? || KindOf(value[0]).None? then None
      else Some(options.(kind := KindOf(value[0])))
    else if code == REQUESTED_IP then
      if options.requested.Some? || |value| != 4 then None else Some(options.(requested := Some(value)))
    else if code == SERVER_ID then
      if options.server.Some? || |value| != 4 then None else Some(options.(server := Some(value)))
    else Some(options)
  }

  /** How one more item changes the values of every code. */
  lemma ReadMore(read: seq<Item>, item: Item)
    ensures forall code :: (Values(read + [item], code)
      == if item.Opt? && item.code == code then Values(read, code) + [item.value] else Values(read, code))
  {
    assert (read + [item])[..|read|] == read;
  }

  lemma StoreIsMeaning(read: seq<Item>, options: Options, item: Item)
    requires Meaning(read) == Some(options)
    ensures Meaning(read + [item]) == if item.Pad? then Some(options) else Store(options, item.code, item.value)
  {
    ReadMore(read, item);
  }

  /** The first item of a field and where the next one starts, as the loop computes them. */
  lemma FirstItem(p: seq<byte>, offset: nat, item: Item, next: nat)
    requires offset < next <= |p| && p[offset] != END
    requires match item
             case Pad => p[offset] == PAD && next == offset + 1
             case Opt(code, value) =>
               && code == p[offset] != PAD && offset + 2 <= next && next == offset + 2 + p[offset + 1] as int
               && value == p[offset + 2..next]
    ensures Items(p[offset..]).None? <==> Items(p[next..]).None?
    ensures Items(p[offset..]).Some? ==> Items(p[offset..]).value == [item] + Items(p[next..]).value
  {
    var from := p[offset..];
    if item.Pad? {
      assert from[1..] == p[next..];
    } else {
      assert from[2..next - offset] == item.value && from[next - offset..] == p[next..];
    }
  }

  /** The loop invariant: what has been read, and that the rest of the field completes it. */
  ghost predicate Progress(p: seq<byte>, offset: nat, read: seq<Item>, options: Options)
    requires offset <= |p|
  {
    && Meaning(read) == Some(options)
    && (Items(p).None? <==> Items(p[offset..]).None?)
    && (Items(p).Some? ==> Items(p).value == read + Items(p[offset..]).value)
  }

  lemma Regroup(read: seq<Item>, item: Item, rest: seq<Item>)
    ensures read + ([item] + rest) == (read + [item]) + rest
  {
  }

  lemma Advance(p: seq<byte>, offset: nat, read: seq<Item>, options: Options, item: Item, next: nat)
    requires offset < next <= |p| && Progress(p, offset, read, options)
    requires Items(p[offset..]).None? <==> Items(p[next..]).None?
    requires Items(p[offset..]).Some? ==> Items(p[offset..]).value == [item] + Items(p[next..]).value
    ensures var stored := if item.Pad? then Some(options) else Store(options, item.code, item.value);
            && (stored.None? ==> ParsedOptions(p).None?)
            && (stored.Some? ==> Progress(p, next, read + [item], stored.value))
  {
    StoreIsMeaning(read, options, item);
    if Items(p).Some? {
      Regroup(read, item, Items(p[next..]).value);
      if Meaning(read + [item]).None? { DefectStays(read + [item], Items(p[next..]).value); }
    }
  }

  /** An option whose length byte or value is missing. */
  lemma CutShort(p: seq<byte>, offset: nat)
    requires offset < |p| && p[offset] != PAD && p[offset] != END
    requires offset + 1 >= |p| || offset + 2 + p[offset + 1] as int > |p|
    ensures Items(p[offset..]).None?
  {
  }

  /** `parse_options`: the offset loop with its early exits. */
  method ParseOptions(p: seq<byte>) returns (r: Option<Options>)
    ensures r == ParsedOptions(p)
  {
    var options := Options(None, None, None);
    var offset := 0;
    ghost var read: seq<Item> := [];
    assert p[0..] == p;
    while offset < |p|
      invariant 0 <= offset <= |p| && Progress(p, offset, read, options)
    {
      var code := p[offset];
      if code == PAD {
        FirstItem(p, offset, Pad, offset + 1);
        Advance(p, offset, read, options, Pad, offset + 1);
        offset, read := offset + 1, read + [Pad];
        continue;
      }
      if code == END {
        assert Items(p[offset..]) == Some([]) && read + [] == read;
        return Some(options);
      }
      if offset + 1 >= |p| || offset + 2 + p[offset + 1] as int > |p| {
        CutShort(p, offset);
        return None;
      }
      var end := offset + 2 + p[offset + 1] as int;
      var value := p[offset + 2..end];
      FirstItem(p, offset, Opt(code, value), end);
      Advance(p, offset, read, options, Opt(code, value), end);
      var stored := Store(options, code, value);
      if stored.None? { return None; }
      offset, options, read := end, stored.value, read + [Opt(code, value)];
    }
    assert p[offset..] == [];
    r := None;
  }

  // ----- the parser against the grammar -----

  /** Any legal item list with any bytes after END parses to exactly its meaning. */
  lemma EncodedOptionsParse(items: seq<Item>, rest: seq<byte>)
    requires AllLegal(items)
    ensures ParsedOptions(Encode(items) + [END] + rest) == Meaning(items)
  {
    ItemsOfEncoding(items, rest);
  }

  /** Two options with the same critical code reject the packet, wherever they stand. */
  lemma DuplicateIsRejected(items: seq<Item>, rest: seq<byte>, i: nat, j: nat)
    requires AllLegal(items) && i < j < |items| && items[i].Opt? && items[j].Opt?
    requires items[i].code == items[j].code && items[i].code in {MESSAGE_TYPE, REQUESTED_IP, SERVER_ID}
    ensures ParsedOptions(Encode(items) + [END] + rest).None?
  {
    EncodedOptionsParse(items, rest);
    TwoValues(items, i, j, items[i].code);
  }

  lemma {:induction false} TwoValues(items: seq<Item>, i: nat, j: nat, code: byte)
    requires i < j < |items| && items[i].Opt? && items[j].Opt? && items[i].code == items[j].code == code
    ensures |Values(items, code)| >= 2
  {
    if j == |items| - 1 {
      OneValue(items[..j], i, code);
    } else {
      TwoValues(items[..|items| - 1], i, j, code);
    }
  }

  lemma {:induction false} OneValue(items: seq<Item>, i: nat, code: byte)
    requires i < |items| && items[i].Opt? && items[i].code == code
    ensures |Values(items, code)| >= 1
  {
    if i < |items| - 1 { OneValue(items[..|items| - 1], i, code); }
  }

  /** The order of options and the placement of padding do not change what is read. */
  lemma OrderIsIrrelevant(a: seq<Item>, b: seq<Item>)
    requires Meaning(a).Some? && forall code, value :: multiset(a)[Opt(code, value)] == multiset(b)[Opt(code, value)]
    ensures Meaning(a) == Meaning(b)
  {
    SameValues(a, b, MESSAGE_TYPE);
    SameValues(a, b, REQUESTED_IP);
    SameValues(a, b, SERVER_ID);
  }

  lemma {:induction false} ValuesOccur(items: seq<Item>, code: byte, value: seq<byte>)
    ensures multiset(Values(items, code))[value] == multiset(items)[Opt(code, value)]
  {
    if items != [] {
      var init, last := items[..|items| - 1], items[|items| - 1];
      ValuesOccur(init, code, value);
      assert items == init + [last];
    }
  }

  lemma SameValues(a: seq<Item>, b: seq<Item>, code: byte)
    requires |Values(a, code)| <= 1
    requires forall value :: multiset(a)[Opt(code, value)] == multiset(b)[Opt(code, value)]
    ensures Values(a, code) == Values(b, code)
  {
    forall value ensures multiset(Values(a, code))[value] == multiset(Values(b, code))[value] {
      ValuesOccur(a, code, value);
      ValuesOccur(b, code, value);
    }
    SingletonEqual(Values(a, code), Values(b, code));
  }

  lemma SingletonEqual(a: seq<seq<byte>>, b: seq<seq<byte>>)
    requires |a| <= 1 && multiset(a) == multiset(b)
    ensures a == b
  {
    assert |multiset(a)| == |a| && |multiset(b)| == |b|;
    if a != [] { assert a[0] in multiset(b); }
  }
}
