/**
 * The static DHCP configuration check on 32-bit addresses: which masks and address pairs it
 * accepts, and where the server's replies go. Bit operations are defined bit by bit on numbers.
 */
module DhcpConfig {
  import opened Bytes

  function Pow2(n: nat): (p: nat)
    ensures p > 0
  {
    if n == 0 then 1 else 2 * Pow2(n - 1)
  }

  /** `a & b` on the lowest `n` bits. */
  function And(a: nat, b: nat, n: nat): (r: nat)
    ensures r <= a && r <= b
  {
    if n == 0 then 0 else 2 * And(a / 2, b / 2, n - 1) + (a % 2) * (b % 2)
  }

  /** `a | b` on the lowest `n` bits. */
  function Or(a: nat, b: nat, n: nat): nat {
    if n == 0 then 0 else 2 * Or(a / 2, b / 2, n - 1) + (if a % 2 == 1 || b % 2 == 1 then 1 else 0)
  }

  /** `!a` on `n` bits. */
  function Not(a: nat, n: nat): nat
    requires a < Pow2(n)
  {
    Pow2(n) - 1 - a
  }

  /** `leading_ones` of an `n`-bit word. */
  function LeadingOnes(m: nat, n: nat): (p: nat)
    ensures p <= n
  {
    if n == 0 || m < Pow2(n - 1) then 0 else 1 + LeadingOnes(m - Pow2(n - 1), n - 1)
  }

  /** `a << k` on `n` bits. */
  function ShiftLeft(a: nat, k: nat, n: nat): nat {
    a * Pow2(k) % Pow2(n)
  }

  type Address = a: nat | a < U32_LIMIT

  datatype Config = Config(server: Address, target: Address, mac: seq<byte>, mask: Address, leaseSeconds: nat)

  datatype Problem =
    | ServerNotUnicast | TargetNotUnicast | SameAddress | MacZero | MacMulticast | NoLease | BadMask
    | OtherSubnet | ServerNotHost | TargetNotHost

  datatype Verdict = Accepted | Refused(why: Problem)

  /** `validate_concrete_unicast`: not 0.0.0.0, not 224.0.0.0/4, not 255.255.255.255. */
  predicate ConcreteUnicast(a: Address) {
    a != 0 && !(0xE000_0000 <= a < 0xF000_0000) && a != 0xFFFF_FFFF
  }

  /** The first octet decides multicast; only the all-zero and the all-one address are refused besides. */
  lemma UnicastByOctets(o1: nat, o2: nat, o3: nat, o4: nat)
    requires o1 < 256 && o2 < 256 && o3 < 256 && o4 < 256
    ensures var a := ((o1 * 256 + o2) * 256 + o3) * 256 + o4;
      && a < U32_LIMIT
      && (ConcreteUnicast(a) <==>
            && !(o1 == 0 && o2 == 0 && o3 == 0 && o4 == 0) && !(o1 == 255 && o2 == 255 && o3 == 255 && o4 == 255)
            && !(224 <= o1 <= 239))
  {
  }

  predicate MaskAccepted(m: Address) {
    var prefix := LeadingOnes(m, 32);
    var canonical := if prefix == 0 then 0 else ShiftLeft(0xFFFF_FFFF, 32 - prefix, 32);
    m == canonical && 1 <= prefix <= 30
  }

  function Network(c: Config): nat { And(c.server, c.mask, 32) }

  /** `broadcast_destination` without its fixed port. */
  function BroadcastDestination(c: Config): nat {
    WordSize();
    Or(Network(c), Not(c.mask, 32), 32)
  }

  /** `DhcpConfig::validate`, test by test. */
  function Validate(c: Config): Verdict
    requires |c.mac| == 6
  {
    var network, broadcast := Network(c), BroadcastDestination(c);
    if !ConcreteUnicast(c.server) then Refused(ServerNotUnicast)
    else if !ConcreteUnicast(c.target) then Refused(TargetNotUnicast)
    else if c.server == c.target then Refused(SameAddress)
    else if c.mac == [0, 0, 0, 0, 0, 0] then Refused(MacZero)
    else if c.mac[0] % 2 != 0 then Refused(MacMulticast)
    else if c.leaseSeconds == 0 then Refused(NoLease)
    else if !MaskAccepted(c.mask) then Refused(BadMask)
    else if And(c.target, c.mask, 32) != network then Refused(OtherSubnet)
    else if c.server == network || c.server == broadcast then Refused(ServerNotHost)
    else if c.target == network || c.target == broadcast then Refused(TargetNotHost)
    else Accepted
  }

  // ----- powers of two and words -----

  lemma WordSize()
    ensures Pow2(32) == U32_LIMIT
  {
    assert Pow2(8) == 0x100;
    assert Pow2(16) == 0x1_0000;
    assert Pow2(24) == 0x100_0000;
  }

  lemma {:induction false} Pow2Grows(k: nat, n: nat)
    requires k <= n
    ensures Pow2(k) <= Pow2(n) && (k < n ==> 2 * Pow2(k) <= Pow2(n))
  {
    if k < n { Pow2Grows(k, n - 1); }
  }

  /** Halving both sides of a division with remainder by a power of two. */
  lemma HalvedRemainder(a: nat, k: nat)
    requires k > 0
    ensures a % Pow2(k) == 2 * (a / 2 % Pow2(k - 1)) + a % 2
  {
    var h, q := Pow2(k - 1), a / 2 / Pow2(k - 1);
    var r := a / 2 % h;
    assert a / 2 == h * q + r;
    assert a == (2 * h) * q + (2 * r + a % 2);
    DivisionUnique(a, 2 * h, q, 2 * r + a % 2);
  }

  lemma DivisionUnique(a: nat, d: nat, q: nat, r: nat)
    requires d > 0 && a == d * q + r && r < d
    ensures a % d == r && a / d == q
  {
    var q', r' := a / d, a % d;
    assert a == d * q' + r';
    if q' > q { Scaled(d, q + 1, q'); }
    if q' < q { Scaled(d, q' + 1, q); }
  }

  lemma Scaled(d: nat, a: nat, b: nat)
    requires a <= b
    ensures d * a <= d * b
  {
  }

  // ----- a block of ones: 2^n - 2^k -----

  function Block(k: nat, n: nat): nat
    requires k <= n
  {
    Pow2Grows(k, n);
    Pow2(n) - Pow2(k)
  }

  lemma {:induction false} LeadingOnesOfBlock(k: nat, n: nat)
    requires k <= n
    ensures LeadingOnes(Block(k, n), n) == n - k
    decreases n
  {
    if n > 0 {
      if k == n {
        assert Block(k, n) == 0;
      } else {
        Pow2Grows(k, n - 1);
        assert Block(k, n) - Pow2(n - 1) == Block(k, n - 1);
        LeadingOnesOfBlock(k, n - 1);
      }
    }
  }

  /** The canonical mask the code computes with a shift is the block. */
  lemma CanonicalMask(k: nat)
    requires k <= 32
    ensures ShiftLeft(0xFFFF_FFFF, k, 32) == if k == 32 then 0 else Block(k, 32)
  {
    WordSize();
    Pow2Grows(k, 32);
    var p := Pow2(k);
    assert 0xFFFF_FFFF * p == U32_LIMIT * (p - 1) + (U32_LIMIT - p);
    if k < 32 {
      DivisionUnique(0xFFFF_FFFF * p, U32_LIMIT, p - 1, U32_LIMIT - p);
    } else {
      DivisionUnique(0xFFFF_FFFF * p, U32_LIMIT, p - 1, 0);
    }
  }

  /** A /(32-k) mask that leaves at least two host bits and has at least one network bit. */
  ghost predicate LinkMask(m: nat, k: nat) {
    2 <= k <= 31 && m == Block(k, 32)
  }

  /** Exactly the masks with 1 to 30 leading one bits and only zero bits after them are accepted. */
  lemma MaskTest(m: Address)
    ensures MaskAccepted(m) <==> exists k :: LinkMask(m, k)
  {
    if MaskAccepted(m) {
      var prefix := LeadingOnes(m, 32);
      CanonicalMask(32 - prefix);
      assert LinkMask(m, 32 - prefix);
    }
    if k :| LinkMask(m, k) {
      LeadingOnesOfBlock(k, 32);
      CanonicalMask(k);
    }
  }

  // ----- masking is rounding -----

  lemma {:induction false} AndAllOnes(a: nat, n: nat)
    requires a < Pow2(n)
    ensures And(a, Pow2(n) - 1, n) == a
  {
    if n > 0 {
      assert (Pow2(n) - 1) / 2 == Pow2(n - 1) - 1 && (Pow2(n) - 1) % 2 == 1;
      AndAllOnes(a / 2, n - 1);
    }
  }

  /** Masking with a block clears the low bits: it rounds down to a multiple of 2^k. */
  lemma {:induction false} AndBlock(a: nat, k: nat, n: nat)
    requires k <= n && a < Pow2(n)
    ensures And(a, Block(k, n), n) == a - a % Pow2(k)
    decreases n
  {
    if k == 0 {
      AndAllOnes(a, n);
    } else {
      Pow2Grows(k, n);
      assert Block(k, n) == 2 * Block(k - 1, n - 1);
      AndBlock(a / 2, k - 1, n - 1);
      HalvedRemainder(a, k);
    }
  }

  lemma {:induction false} OrZero(a: nat, n: nat)
    requires a < Pow2(n)
    ensures Or(a, 0, n) == a
  {
    if n > 0 { OrZero(a / 2, n - 1); }
  }

  /** Setting the low bits of a multiple of 2^k adds all of them. */
  lemma {:induction false} OrLowBits(a: nat, k: nat, n: nat)
    requires k <= n && a < Pow2(n) && a % Pow2(k) == 0
    ensures Or(a, Pow2(k) - 1, n) == a + Pow2(k) - 1
    decreases n
  {
    if k == 0 {
      OrZero(a, n);
    } else {
      HalvedRemainder(a, k);
      assert (Pow2(k) - 1) / 2 == Pow2(k - 1) - 1 && (Pow2(k) - 1) % 2 == 1;
      OrLowBits(a / 2, k - 1, n - 1);
    }
  }

  lemma RoundedDown(a: nat, p: nat)
    requires p > 0
    ensures (a - a % p) % p == 0 && a - a % p <= a < a - a % p + p
  {
    var q := a / p;
    assert a == p * q + a % p;
    DivisionUnique(a - a % p, p, q, 0);
  }

  lemma MaskedAddress(a: nat, mask: nat, k: nat)
    requires k <= 32 && mask == Block(k, 32) && a < U32_LIMIT
    ensures And(a, mask, 32) == a - a % Pow2(k)
  {
    WordSize();
    AndBlock(a, k, 32);
  }

  lemma BroadcastArithmetic(c: Config, k: nat)
    requires k <= 32 && c.mask == Block(k, 32)
    requires Network(c) == c.server - c.server % Pow2(k)
    ensures BroadcastDestination(c) == Network(c) + Pow2(k) - 1
  {
    WordSize();
    RoundedDown(c.server, Pow2(k));
    OrLowBits(Network(c), k, 32);
  }

  /** Network and broadcast address under a /(32-k) mask, as plain arithmetic. */
  lemma NetworkArithmetic(c: Config, k: nat)
    requires k <= 32 && c.mask == Block(k, 32)
    ensures Network(c) == c.server - c.server % Pow2(k)
    ensures BroadcastDestination(c) == Network(c) + Pow2(k) - 1
    ensures And(c.target, c.mask, 32) == c.target - c.target % Pow2(k)
  {
    MaskedAddress(c.server, c.mask, k);
    MaskedAddress(c.target, c.mask, k);
    BroadcastArithmetic(c, k);
  }

  // ----- what is accepted -----

  /** The first address of the aligned block of 2^k addresses that contains `a`. */
  function Base(a: nat, k: nat): int { a - a % Pow2(k) }

  /** Everything `validate` promises, without its bit operations: two hosts of one /(32-k) network. */
  ghost predicate Safe(c: Config, k: nat)
    requires |c.mac| == 6
  {
    && LinkMask(c.mask, k)
    && Base(c.server, k) == Base(c.target, k)
    && Base(c.server, k) < c.server < Base(c.server, k) + Pow2(k) - 1
    && Base(c.target, k) < c.target < Base(c.target, k) + Pow2(k) - 1
    && c.server != c.target && ConcreteUnicast(c.server) && ConcreteUnicast(c.target)
    && c.leaseSeconds > 0 && c.mac != [0, 0, 0, 0, 0, 0] && c.mac[0] % 2 == 0
  }

  /** Under a link mask the bit tests of `validate` are exactly the arithmetic ones. */
  lemma SafeUnderMask(c: Config, k: nat)
    requires |c.mac| == 6 && LinkMask(c.mask, k)
    ensures Validate(c).Accepted? <==> Safe(c, k)
  {
    MaskTest(c.mask);
    NetworkArithmetic(c, k);
    RoundedDown(c.server, Pow2(k));
    RoundedDown(c.target, Pow2(k));
  }

  /**
   * `validate` accepts exactly the configurations whose mask has 1 to 30 leading ones and whose two
   * different unicast addresses lie strictly inside one network.
   */
  lemma AcceptedExactly(c: Config)
    requires |c.mac| == 6
    ensures Validate(c).Accepted? <==> exists k :: Safe(c, k)
  {
    if Validate(c).Accepted? {
      MaskTest(c.mask);
      var k :| LinkMask(c.mask, k);
      SafeUnderMask(c, k);
    }
    if k :| Safe(c, k) { SafeUnderMask(c, k); }
  }

  /** Server, target and reply destination of an accepted configuration are three members of one network. */
  lemma ReplyDestination(c: Config, k: nat)
    requires |c.mac| == 6 && Safe(c, k)
    ensures var destination := BroadcastDestination(c);
            && Base(destination, k) == Base(c.server, k) == Base(c.target, k)
            && c.server < destination && c.target < destination && c.server != c.target
            && destination < U32_LIMIT
  {
    NetworkArithmetic(c, k);
    RoundedDown(c.server, Pow2(k));
    WordSize();
    BlockFits(Network(c), k, 32);
    TopOfBlock(Network(c), Pow2(k));
  }

  /** The last address of an aligned block rounds down to the block's base. */
  lemma TopOfBlock(base: nat, p: nat)
    requires p > 0 && base % p == 0
    ensures (base + p - 1) % p == p - 1
  {
    ExactMultiple(base, p);
    DivisionUnique(base + p - 1, p, base / p, p - 1);
  }

  lemma ExactMultiple(a: nat, p: nat)
    requires p > 0 && a % p == 0
    ensures a == p * (a / p)
  {
  }

  lemma MultiplesApart(p: nat, q: nat, w: nat, base: nat, limit: nat)
    requires base == p * q && limit == p * w && base < limit
    ensures base + p <= limit
  {
    if q >= w { Scaled(p, w, q); } else { Scaled(p, q + 1, w); }
  }

  /** An aligned block that starts inside the address space ends inside it. */
  lemma BlockFits(base: nat, k: nat, n: nat)
    requires k <= n && base < Pow2(n) && base % Pow2(k) == 0
    ensures base + Pow2(k) <= Pow2(n)
  {
    PowerDivides(k, n);
    ExactMultiple(base, Pow2(k));
    MultiplesApart(Pow2(k), base / Pow2(k), Pow2(n - k), base, Pow2(n));
  }

  lemma {:induction false} PowerDivides(k: nat, n: nat)
    requires k <= n
    ensures Pow2(n) == Pow2(k) * Pow2(n - k)
  {
    if k < n { PowerDivides(k, n - 1); }
  }
}
