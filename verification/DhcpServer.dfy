/**
 * Packets of the single-lease DHCP server: request parsing, the reply builder, and the receive
 * step run over any packet sequence.
 */
module DhcpServer {
  import opened Wrappers
  import opened Bytes
  import opened Dhcp

  const HEADER: nat := 236
  const FIXED: nat := 240
  const MAX_PACKET: nat := 4096
  const CLIENT_PORT: nat := 68
  const COOKIE: seq<byte> := [99, 130, 83, 99]
  const UNSPECIFIED: seq<byte> := [0, 0, 0, 0]

  datatype Message = Message(
    transaction: seq<byte>, seconds: seq<byte>, flags: seq<byte>, client: seq<byte>, relay: seq<byte>,
    mac: seq<byte>, kind: Kind, requested: Option<seq<byte>>, server: Option<seq<byte>>)

  /** `DhcpRequest::parse`. */
  function ParseRequest(p: seq<byte>): Option<Message> {
    if |p| < FIXED || p[0] != 1 || p[1] != 1 || p[2] != 6 || p[HEADER..FIXED] != COOKIE then None
    else
      var options := ParsedOptions(p[FIXED..]);
      if options.None? || options.value.kind.None? then None
      else Some(Message(p[4..8], p[8..10], p[10..12], p[12..16], p[24..28], p[28..34],
                        options.value.kind.value, options.value.requested, options.value.server))
  }

  datatype Lease = Lease(server: seq<byte>, target: seq<byte>, mac: seq<byte>, mask: seq<byte>, lease: seq<byte>) {
    ghost predicate Sized() { |server| == |target| == |mask| == |lease| == 4 && |mac| == 6 }
  }

  ghost predicate WellSized(m: Message) {
    |m.transaction| == 4 && |m.seconds| == 2 && |m.flags| == 2 && |m.client| == 4 && |m.relay| == 4 && |m.mac| == 6
  }

  /** `response_type_for`. */
  function ResponseKind(m: Message, l: Lease): Option<Kind> {
    if m.relay != UNSPECIFIED then None
    else if m.server.Some? && m.server.value != l.server then None
    else match m.kind
      case Discover => Some(Offer)
      case Request =>
        if m.requested.Some? then (if m.requested.value == l.target then Some(Ack) else None)
        else if m.client == UNSPECIFIED then None
        else if m.client == l.target then Some(Ack) else None
      case _ => None
  }

  /** The options of a reply, as items of the option grammar. */
  function ReplyItems(l: Lease, kind: Kind): seq<Item> {
    [Opt(MESSAGE_TYPE, [KindByte(kind)]), Opt(SERVER_ID, l.server), Opt(1, l.mask), Opt(51, l.lease)]
  }

  /** The fixed part of a reply. */
  function Header(m: Message, l: Lease): seq<byte> {
    [2, 1, 6, 0] + m.transaction + m.seconds + m.flags + Zeros(4) + l.target + l.server + Zeros(4)
    + m.mac + Zeros(202) + COOKIE
  }

  /** The option bytes of a reply with their END. */
  function ReplyTail(l: Lease, kind: Kind): seq<byte> {
    [MESSAGE_TYPE, 1, KindByte(kind)] + [SERVER_ID, 4] + l.server + [1, 4] + l.mask + [51, 4] + l.lease + [END]
  }

  /** The reply packet laid out field by field: header, cookie, options, END. */
  function Reply(m: Message, l: Lease, kind: Kind): seq<byte>
    requires |l.server| == |l.mask| == |l.lease| == 4
  {
    Header(m, l) + ReplyTail(l, kind)
  }

  method FillHeader(buffer: array<byte>, m: Message, l: Lease)
    requires buffer.Length == FIXED && (forall i :: 0 <= i < FIXED ==> buffer[i] == 0) && WellSized(m) && l.Sized()
    modifies buffer
    ensures buffer[..] == Header(m, l)
  {
    CopyInto(buffer, 0, [2, 1, 6]);
    CopyInto(buffer, 4, m.transaction);
    CopyInto(buffer, 8, m.seconds);
    CopyInto(buffer, 10, m.flags);
    CopyInto(buffer, 16, l.target);
    CopyInto(buffer, 20, l.server);
    CopyInto(buffer, 28, m.mac);
    CopyInto(buffer, HEADER, COOKIE);
  }

  /** `build_response`: a zeroed buffer filled in place, then the options appended. */
  method BuildResponse(m: Message, l: Lease, kind: Kind) returns (response: seq<byte>)
    requires WellSized(m) && l.Sized()
    ensures response == Reply(m, l, kind)
  {
    var buffer := new byte[FIXED](_ => 0);
    FillHeader(buffer, m, l);
    response := buffer[..];
    response := response + [MESSAGE_TYPE, 1, KindByte(kind)];
    response := response + [SERVER_ID, 4] + l.server;
    response := response + [1, 4] + l.mask;
    response := response + [51, 4] + l.lease;
    response := response + [END];
  }

  lemma ReplyLayout(m: Message, l: Lease, kind: Kind)
    requires WellSized(m) && l.Sized()
    ensures var p := Reply(m, l, kind);
      && |p| > FIXED && p[0] == 2 && p[1] == 1 && p[2] == 6
      && p[4..8] == m.transaction && p[8..10] == m.seconds && p[10..12] == m.flags && p[12..16] == UNSPECIFIED
      && p[16..20] == l.target && p[20..24] == l.server && p[24..28] == UNSPECIFIED && p[28..34] == m.mac
      && p[HEADER..FIXED] == COOKIE
      && p[FIXED..] == ReplyTail(l, kind)
  {
  }

  /** The reply's options are a legal encoding, so they parse back to the kind and the server. */
  lemma ReplyOptions(l: Lease, kind: Kind)
    requires l.Sized()
    ensures ParsedOptions(ReplyTail(l, kind)) == Some(Options(Some(kind), None, Some(l.server)))
  {
    var items := ReplyItems(l, kind);
    ReplyEncoding(l, kind);
    assert Encode(items) + [END] == Encode(items) + [END] + [];
    EncodedOptionsParse(items, []);
    ReplyMeaning(l, kind);
  }

  lemma ReplyEncoding(l: Lease, kind: Kind)
    requires l.Sized()
    ensures AllLegal(ReplyItems(l, kind)) && ReplyTail(l, kind) == Encode(ReplyItems(l, kind)) + [END]
  {
    var items := ReplyItems(l, kind);
    assert AllLegal(items);
    EncodeFour(items[0], items[1], items[2], items[3]);
    assert items == [items[0]] + ([items[1]] + ([items[2]] + ([items[3]] + [])));
  }

  lemma EncodeFour(a: Item, b: Item, c: Item, d: Item)
    requires Legal(a) && Legal(b) && Legal(c) && Legal(d)
    ensures Encode([a] + ([b] + ([c] + ([d] + [])))) == EncodeItem(a) + (EncodeItem(b) + (EncodeItem(c) + (EncodeItem(d) + [])))
  {
    EncodeCons(d, []);
    EncodeCons(c, [d] + []);
    EncodeCons(b, [c] + ([d] + []));
    EncodeCons(a, [b] + ([c] + ([d] + [])));
  }

  lemma ReplyMeaning(l: Lease, kind: Kind)
    requires l.Sized()
    ensures Meaning(ReplyItems(l, kind)) == Some(Options(Some(kind), None, Some(l.server)))
  {
    var items := ReplyItems(l, kind);
    ValuesOfFour(items[0], items[1], items[2], items[3], MESSAGE_TYPE);
    ValuesOfFour(items[0], items[1], items[2], items[3], REQUESTED_IP);
    ValuesOfFour(items[0], items[1], items[2], items[3], SERVER_ID);
  }

  /** The values one item contributes to a code. */
  function ValueOf(item: Item, code: byte): seq<seq<byte>> {
    if item.Opt? && item.code == code then [item.value] else []
  }

  lemma ValuesSnoc(read: seq<Item>, item: Item, code: byte)
    ensures Values(read + [item], code) == Values(read, code) + ValueOf(item, code)
  {
    assert (read + [item])[..|read|] == read;
  }

  lemma ValuesOfFour(a: Item, b: Item, c: Item, d: Item, code: byte)
    ensures Values([a, b, c, d], code) == ValueOf(a, code) + ValueOf(b, code) + ValueOf(c, code) + ValueOf(d, code)
  {
    ValuesOfThree(a, b, c, code);
    ValuesSnoc([a, b, c], d, code);
    assert [a, b, c] + [d] == [a, b, c, d];
  }

  /** A reply is never taken for a request, not even by another server of this kind. */
  lemma RepliesAreNotRequests(m: Message, l: Lease, kind: Kind)
    requires WellSized(m) && l.Sized()
    ensures ParseRequest(Reply(m, l, kind)).None?
  {
    ReplyLayout(m, l, kind);
  }

  /** With the operation byte set back, the reply parses to exactly what it was built from. */
  lemma ReplyRoundTrip(m: Message, l: Lease, kind: Kind)
    requires WellSized(m) && l.Sized()
    ensures ParseRequest(Reply(m, l, kind)[0 := 1])
         == Some(Message(m.transaction, m.seconds, m.flags, UNSPECIFIED, UNSPECIFIED, m.mac, kind, None, Some(l.server)))
  {
    var p := Reply(m, l, kind);
    var q := p[0 := 1];
    ReplyLayout(m, l, kind);
    ReplyOptions(l, kind);
    assert q[FIXED..] == p[FIXED..] && q[HEADER..FIXED] == p[HEADER..FIXED];
    assert q[4..8] == p[4..8] && q[8..10] == p[8..10] && q[10..12] == p[10..12];
    assert q[12..16] == p[12..16] && q[24..28] == p[24..28] && q[28..34] == p[28..34];
  }

  /** The BOOTP fields of a request stand where they are read, whatever the unread bytes hold. */
  lemma RequestFields(m: Message, hops: byte, unread: seq<byte>, filler: seq<byte>, options: seq<byte>)
    requires WellSized(m) && |unread| == 8 && |filler| == 202
    requires ParsedOptions(options) == Some(Options(Some(m.kind), m.requested, m.server))
    ensures ParseRequest([1, 1, 6, hops] + m.transaction + m.seconds + m.flags + m.client + unread + m.relay + m.mac + filler + COOKIE + options)
         == Some(m)
  {
    var p := [1, 1, 6, hops] + m.transaction + m.seconds + m.flags + m.client + unread + m.relay + m.mac + filler + COOKIE + options;
    assert p[0] == 1 && p[1] == 1 && p[2] == 6;
    assert p[4..8] == m.transaction && p[8..10] == m.seconds && p[10..12] == m.flags && p[12..16] == m.client;
    assert p[24..28] == m.relay && p[28..34] == m.mac && p[HEADER..FIXED] == COOKIE && p[FIXED..] == options;
  }

  lemma ParsedIsWellSized(p: seq<byte>)
    requires ParseRequest(p).Some?
    ensures WellSized(ParseRequest(p).value)
  {
  }

  // ----- the receive loop -----

  datatype Datagram = Datagram(payload: seq<byte>, port: nat)

  /** One turn of the serve loop: port filter, parse, MAC filter, reply. */
  function Respond(d: Datagram, l: Lease): Option<seq<byte>>
    requires l.Sized()
  {
    if d.port != CLIENT_PORT then None
    else
      var received := d.payload[..Min(|d.payload|, MAX_PACKET)];
      var m := ParseRequest(received);
      if m.None? || m.value.mac != l.mac then None
      else
        var kind := ResponseKind(m.value, l);
        if kind.None? then None else Some(Reply(m.value, l, kind.value))
  }

  /** The receive step as it runs: the parsed packet has the sizes the reply builder relies on. */
  method HandleDatagram(d: Datagram, l: Lease) returns (reply: Option<seq<byte>>)
    requires l.Sized()
    ensures reply == Respond(d, l)
    ensures reply.Some? ==> OnlyTheLease(reply.value, l) && Fits(d.payload[..Min(|d.payload|, MAX_PACKET)], reply.value)
  {
    if Respond(d, l).Some? {
      RespondsOnlyTheLease(d, l);
      AnswerFitsRequest(d, l);
    }
    if d.port != CLIENT_PORT { return None; }
    var received := d.payload[..Min(|d.payload|, MAX_PACKET)];
    var m := ParseRequest(received);
    if m.None? || m.value.mac != l.mac { return None; }
    ParsedIsWellSized(received);
    var kind := ResponseKind(m.value, l);
    if kind.None? { return None; }
    var packet := BuildResponse(m.value, l, kind.value);
    reply := Some(packet);
  }

  /** Everything sent while the datagrams arrive one after the other. */
  function Answers(arriving: seq<Datagram>, respond: Datagram -> Option<seq<byte>>): seq<seq<byte>> {
    if arriving == [] then []
    else
      var r := respond(arriving[0]);
      (if r.None? then [] else [r.value]) + Answers(arriving[1..], respond)
  }

  function Serve(arriving: seq<Datagram>, l: Lease): seq<seq<byte>>
    requires l.Sized()
  {
    Answers(arriving, d => Respond(d, l))
  }

  /** A sent packet: this lease, this client, Offer or Ack, from this server, nothing else. */
  ghost predicate OnlyTheLease(p: seq<byte>, l: Lease) {
    && |p| > FIXED && p[0] == 2 && p[16..20] == l.target && p[20..24] == l.server && p[28..34] == l.mac
    && exists kind :: (kind == Offer || kind == Ack) && ParsedOptions(p[FIXED..]) == Some(Options(Some(kind), None, Some(l.server)))
  }

  lemma TailAfterKind(l: Lease, kind: Kind)
    requires l.Sized()
    ensures ReplyTail(l, kind)[3..] == [54, 4] + l.server + [1, 4] + l.mask + [51, 4] + l.lease + [255]
  {
  }

  /** A client's request for an address, byte by byte as RFC 2132 writes options 53, 50 and 54. */
  lemma ClientOptionsParse(address: seq<byte>, server: seq<byte>)
    requires |address| == 4 && |server| == 4
    ensures ParsedOptions([53, 1, 3] + ([50, 4] + address) + ([54, 4] + server) + [255])
         == Some(Options(Some(Request), Some(address), Some(server)))
  {
    var kind, requested, from := Opt(MESSAGE_TYPE, [3]), Opt(REQUESTED_IP, address), Opt(SERVER_ID, server);
    var items := [kind] + ([requested] + ([from] + []));
    EncodeCons(from, []);
    EncodeCons(requested, [from] + []);
    EncodeCons(kind, [requested] + ([from] + []));
    assert EncodeItem(kind) == [53, 1, 3] && EncodeItem(requested) == [50, 4] + address && EncodeItem(from) == [54, 4] + server;
    assert [53, 1, 3] + ([50, 4] + address) + ([54, 4] + server) + [255] == Encode(items) + [END] + [];
    EncodedOptionsParse(items, []);
    ValuesOfThree(kind, requested, from, MESSAGE_TYPE);
    ValuesOfThree(kind, requested, from, REQUESTED_IP);
    ValuesOfThree(kind, requested, from, SERVER_ID);
    assert items == [kind, requested, from];
  }

  lemma ValuesOfThree(a: Item, b: Item, c: Item, code: byte)
    ensures Values([a, b, c], code) == ValueOf(a, code) + ValueOf(b, code) + ValueOf(c, code)
  {
    ValuesSnoc([], a, code);
    ValuesSnoc([a], b, code);
    ValuesSnoc([a, b], c, code);
    assert [] + [a] == [a] && [a] + [b] == [a, b] && [a, b] + [c] == [a, b, c];
  }

  lemma RespondsOnlyTheLease(d: Datagram, l: Lease)
    requires l.Sized() && Respond(d, l).Some?
    ensures OnlyTheLease(Respond(d, l).value, l) && |Respond(d, l).value| <= MAX_PACKET
    ensures Respond(d, l).value[FIXED + 3..] == [54, 4] + l.server + [1, 4] + l.mask + [51, 4] + l.lease + [255]
  {
    var m := ParseRequest(d.payload[..Min(|d.payload|, MAX_PACKET)]).value;
    var kind := ResponseKind(m, l).value;
    ReplyLayout(m, l, kind);
    ReplyOptions(l, kind);
    assert kind == Offer || kind == Ack;
    TailAfterKind(l, kind);
    assert Respond(d, l).value[FIXED..][3..] == Respond(d, l).value[FIXED + 3..];
  }

  /** Discover is answered by Offer and Request by Ack, in the bytes that are sent, to the same transaction. */
  ghost predicate Fits(received: seq<byte>, p: seq<byte>) {
    && ParseRequest(received).Some?
    && var m := ParseRequest(received).value;
    && (m.kind == Discover || m.kind == Request)
    && |p| > FIXED + 3 && p[FIXED..FIXED + 3] == [53, 1, if m.kind == Discover then 2 else 5]
    && ParsedOptions(p[FIXED..]).Some?
    && (ParsedOptions(p[FIXED..]).value.kind == Some(Offer) <==> m.kind == Discover)
    && (ParsedOptions(p[FIXED..]).value.kind == Some(Ack) <==> m.kind == Request)
    && p[..3] == [2, 1, 6] && p[236..240] == [99, 130, 83, 99]
    && p[4..8] == m.transaction && p[8..10] == m.seconds && p[10..12] == m.flags
  }

  lemma AnswerFitsRequest(d: Datagram, l: Lease)
    requires l.Sized() && Respond(d, l).Some?
    ensures Fits(d.payload[..Min(|d.payload|, MAX_PACKET)], Respond(d, l).value) && d.port == 68
  {
    var m := ParseRequest(d.payload[..Min(|d.payload|, MAX_PACKET)]).value;
    var kind := ResponseKind(m, l).value;
    var p := Respond(d, l).value;
    ReplyLayout(m, l, kind);
    ReplyOptions(l, kind);
    assert p[FIXED..][..3] == ReplyTail(l, kind)[..3] == [MESSAGE_TYPE, 1, KindByte(kind)];
    assert p[FIXED..][..3] == p[FIXED..FIXED + 3];
  }

  /** Every sent packet answers one of the arriving ones. */
  lemma {:induction false} EverySentPacketAnswers(arriving: seq<Datagram>, respond: Datagram -> Option<seq<byte>>, i: nat)
    returns (d: Datagram)
    requires i < |Answers(arriving, respond)|
    ensures d in arriving && respond(d) == Some(Answers(arriving, respond)[i])
  {
    var r := respond(arriving[0]);
    if r.Some? && i == 0 {
      d := arriving[0];
    } else {
      d := EverySentPacketAnswers(arriving[1..], respond, if r.Some? then i - 1 else i);
    }
  }

  /** Over every packet sequence the server hands out its one lease to its one client only. */
  lemma ServesOnlyTheLease(arriving: seq<Datagram>, l: Lease, i: nat)
    requires l.Sized() && i < |Serve(arriving, l)|
    ensures OnlyTheLease(Serve(arriving, l)[i], l)
  {
    var d := EverySentPacketAnswers(arriving, d => Respond(d, l), i);
    RespondsOnlyTheLease(d, l);
  }

  /** Replies never provoke replies: every packet a server sends is ignored by every server. */
  lemma RepliesAreIgnored(arriving: seq<Datagram>, sender: Lease, receiver: Lease, i: nat, port: nat)
    requires sender.Sized() && receiver.Sized() && i < |Serve(arriving, sender)|
    ensures Respond(Datagram(Serve(arriving, sender)[i], port), receiver).None?
  {
    ServesOnlyTheLease(arriving, sender, i);
  }

  /** When the client asks with its own MAC for its own lease, it gets it. */
  lemma ClientIsServed(p: seq<byte>, l: Lease)
    requires l.Sized() && |p| <= MAX_PACKET && ParseRequest(p).Some?
    ensures var m := ParseRequest(p).value;
      Respond(Datagram(p, CLIENT_PORT), l).Some? <==>
        && m.mac == l.mac && m.relay == UNSPECIFIED && (m.server.Some? ==> m.server.value == l.server)
        && (m.kind == Discover ||
            (m.kind == Request && (m.requested == Some(l.target)
               || (m.requested.None? && m.client == l.target && l.target != UNSPECIFIED))))
    ensures Respond(Datagram(p, CLIENT_PORT), l).Some? ==> Fits(p, Respond(Datagram(p, CLIENT_PORT), l).value)
  {
    assert p[..Min(|p|, MAX_PACKET)] == p;
    if Respond(Datagram(p, CLIENT_PORT), l).Some? { AnswerFitsRequest(Datagram(p, CLIENT_PORT), l); }
  }
}
