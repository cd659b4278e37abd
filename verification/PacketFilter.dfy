/** Which packets from the enclave the raw proxy lets out
    (networking/raw-proxy/src/vsock_to_ip_raw_outgoing.rs:121-177): the bit masks it tests, the
    address blocks they stand for, and when its reused buffer can sway the decision. */
module PacketFilter {
  import opened Bytes

  // ---- Masks and address blocks -----------------------------------------------------------------

  function Pow2(k: nat): (p: nat)
    ensures p > 0
  {
    if k == 0 then 1 else 2 * Pow2(k - 1)
  }

  /** Bitwise and of unsigned integers. */
  function And(x: nat, y: nat): nat {
    if x == 0 || y == 0 then 0 else 2 * And(x / 2, y / 2) + (x % 2) * (y % 2)
  }

  /** `ones` one bits followed by `zeros` zero bits. */
  function Mask(ones: nat, zeros: nat): nat {
    if zeros > 0 then 2 * Mask(ones, zeros - 1)
    else if ones > 0 then 2 * Mask(ones - 1, 0) + 1
    else 0
  }

  /** The low `zeros` bits of `base` are clear. */
  predicate Aligned(base: nat, zeros: nat) {
    zeros == 0 || (base % 2 == 0 && Aligned(base / 2, zeros - 1))
  }

  lemma {:induction false} AndOnes(x: nat, ones: nat)
    requires x < Pow2(ones)
    ensures And(x, Mask(ones, 0)) == x
    decreases ones
  {
    if ones > 0 {
      AndOnes(x / 2, ones - 1);
    }
  }

  /** Testing a prefix mask is membership in an interval. */
  lemma {:induction false} MaskIsInterval(x: nat, base: nat, ones: nat, zeros: nat)
    requires x < Pow2(ones + zeros) && Aligned(base, zeros)
    ensures And(x, Mask(ones, zeros)) == base <==> base <= x < base + Pow2(zeros)
    decreases zeros
  {
    if zeros == 0 {
      AndOnes(x, ones);
    } else {
      MaskIsInterval(x / 2, base / 2, ones, zeros - 1);
      if Mask(ones, zeros) == 0 || x == 0 {
        assert And(x / 2, Mask(ones, zeros - 1)) == 0;
      }
      assert And(x, Mask(ones, zeros)) == 2 * And(x / 2, Mask(ones, zeros - 1));
    }
  }

  lemma {:induction false} MaskValue(ones: nat, zeros: nat)
    ensures Mask(ones, zeros) == (Pow2(ones) - 1) * Pow2(zeros)
    decreases zeros, ones
  {
    if zeros > 0 {
      MaskValue(ones, zeros - 1);
      assert 2 * ((Pow2(ones) - 1) * Pow2(zeros - 1)) == (Pow2(ones) - 1) * (2 * Pow2(zeros - 1));
    } else if ones > 0 {
      MaskValue(ones - 1, 0);
    }
  }

  lemma Powers()
    ensures Pow2(4) == 0x10 && Pow2(8) == 0x100 && Pow2(10) == 0x400 && Pow2(12) == 0x1000 && Pow2(15) == 0x8000
    ensures Pow2(16) == 0x1_0000 && Pow2(17) == 0x2_0000 && Pow2(20) == 0x10_0000 && Pow2(22) == 0x40_0000
    ensures Pow2(24) == 0x100_0000 && Pow2(28) == 0x1000_0000 && Pow2(32) == 0x1_0000_0000
  {
    assert Pow2(0) == 1 && Pow2(4) == 0x10;
    assert Pow2(8) == 0x100;
    assert Pow2(12) == 0x1000;
    assert Pow2(16) == 0x1_0000;
    assert Pow2(20) == 0x10_0000;
    assert Pow2(24) == 0x100_0000;
    assert Pow2(28) == 0x1000_0000;
  }

  lemma MaskValues()
    ensures Mask(4, 28) == 0xf000_0000 && Mask(8, 24) == 0xff00_0000 && Mask(10, 22) == 0xffc0_0000
    ensures Mask(12, 20) == 0xfff0_0000 && Mask(15, 17) == 0xfffe_0000 && Mask(16, 16) == 0xffff_0000
    ensures Mask(24, 8) == 0xffff_ff00 && Mask(32, 0) == 0xffff_ffff
    ensures Pow2(32) == 0x1_0000_0000
  {
    Powers();
    hide Mask;
    assert Mask(32, 0) == 0xffff_ffff by { MaskValue(32, 0); }
    hide Pow2;
    MaskValue(4, 28);
    MaskValue(8, 24);
    MaskValue(10, 22);
    MaskValue(12, 20);
    MaskValue(15, 17);
    MaskValue(16, 16);
    MaskValue(24, 8);
  }

  /** An address block, in its usual notation a.b.c.d/bits. */
  datatype Cidr = Cidr(a: byte, b: byte, c: byte, d: byte, bits: nat) {
    function Base(): nat { Address(a, b, c, d) }

    predicate Contains(x: nat)
      requires bits <= 32
    {
      Base() <= x < Base() + Pow2(32 - bits)
    }
  }

  function Address(a: byte, b: byte, c: byte, d: byte): nat {
    ((a * 256 + b) * 256 + c) * 256 + d
  }

  /** The blocks the code names, in its order. */
  const RESERVED: seq<Cidr> := [
    Cidr(0, 0, 0, 0, 8), Cidr(10, 0, 0, 0, 8), Cidr(100, 64, 0, 0, 10), Cidr(127, 0, 0, 0, 8),
    Cidr(169, 254, 0, 0, 16), Cidr(172, 16, 0, 0, 12), Cidr(192, 0, 0, 0, 24), Cidr(192, 0, 2, 0, 24),
    Cidr(192, 88, 99, 0, 24), Cidr(192, 168, 0, 0, 16), Cidr(198, 18, 0, 0, 15), Cidr(198, 51, 100, 0, 24),
    Cidr(203, 0, 113, 0, 24), Cidr(224, 0, 0, 0, 4), Cidr(233, 252, 0, 0, 24), Cidr(240, 0, 0, 0, 4),
    Cidr(255, 255, 255, 255, 32)
  ]

  /** The test as the code writes it. */
  predicate Dropped(dst: nat) {
    || And(dst, 0xff00_0000) == 0x0000_0000
    || And(dst, 0xff00_0000) == 0x0a00_0000
    || And(dst, 0xffc0_0000) == 0x6440_0000
    || And(dst, 0xff00_0000) == 0x7f00_0000
    || And(dst, 0xffff_0000) == 0xa9fe_0000
    || And(dst, 0xfff0_0000) == 0xac10_0000
    || And(dst, 0xffff_ff00) == 0xc000_0000
    || And(dst, 0xffff_ff00) == 0xc000_0200
    || And(dst, 0xffff_ff00) == 0xc058_6300
    || And(dst, 0xffff_0000) == 0xc0a8_0000
    || And(dst, 0xfffe_0000) == 0xc612_0000
    || And(dst, 0xffff_ff00) == 0xc633_6400
    || And(dst, 0xffff_ff00) == 0xcb00_7100
    || And(dst, 0xf000_0000) == 0xe000_0000
    || And(dst, 0xffff_ff00) == 0xe9fc_0000
    || And(dst, 0xf000_0000) == 0xf000_0000
    || And(dst, 0xffff_ffff) == 0xffff_ffff
  }

  predicate InReservedBlock(dst: nat) {
    exists k :: 0 <= k < |RESERVED| && InBlock(k, dst)
  }

  predicate InBlock(k: nat, dst: nat)
    requires k < |RESERVED|
  {
    RESERVED[k].Contains(dst)
  }

  lemma ShiftedByte(base: nat, zeros: nat)
    requires Aligned(base, zeros)
    ensures Aligned(256 * base, zeros + 8)
  {
    hide Aligned;
    Doubled(base, zeros);
    Doubled(2 * base, zeros + 1);
    Doubled(4 * base, zeros + 2);
    Doubled(8 * base, zeros + 3);
    Doubled(16 * base, zeros + 4);
    Doubled(32 * base, zeros + 5);
    Doubled(64 * base, zeros + 6);
    Doubled(128 * base, zeros + 7);
  }

  lemma Doubled(base: nat, zeros: nat)
    requires Aligned(base, zeros)
    ensures Aligned(2 * base, zeros + 1)
  {
  }

  lemma LeadingBytes(x: nat)
    ensures Aligned(x, 0)
    ensures Aligned(100 * 256 + 64, 6) && Aligned(172 * 256 + 16, 4) && Aligned(198 * 256 + 18, 1)
    ensures Aligned(224, 4) && Aligned(240, 4)
  {
  }

  /** The base of every block has zeros wherever its mask has. */
  lemma BlockAligned(k: nat)
    requires k < |RESERVED|
    ensures Aligned(RESERVED[k].Base(), 32 - RESERVED[k].bits)
  {
    hide Aligned;
    var r := RESERVED[k];
    var ab := r.a * 256 + r.b;
    LeadingBytes(r.a);
    LeadingBytes(ab);
    LeadingBytes(ab * 256 + r.c);
    LeadingBytes(r.Base());
    if r.bits == 24 {
      ShiftedByte(ab * 256 + r.c, 0);
    } else if 10 <= r.bits <= 16 {
      ShiftedByte(ab, 16 - r.bits);
      ShiftedByte(ab * 256, 24 - r.bits);
    } else if r.bits < 10 {
      ShiftedByte(r.a, 8 - r.bits);
      ShiftedByte(r.a * 256, 16 - r.bits);
      ShiftedByte(r.a * 0x1_0000, 24 - r.bits);
    }
  }

  /** The mask test for the `k`-th block. */
  predicate Hit(k: nat, dst: nat)
    requires k < |RESERVED|
  {
    And(dst, Mask(RESERVED[k].bits, 32 - RESERVED[k].bits)) == RESERVED[k].Base()
  }

  lemma MaskIsBlock(r: Cidr, dst: nat)
    requires r.bits <= 32 && Aligned(r.Base(), 32 - r.bits) && dst < Pow2(32)
    ensures And(dst, Mask(r.bits, 32 - r.bits)) == r.Base() <==> r.Contains(dst)
  {
    hide Aligned;
    hide Mask;
    hide And;
    assert r.bits + (32 - r.bits) == 32;
    MaskIsInterval(dst, r.Base(), r.bits, 32 - r.bits);
  }

  lemma HitIffContains(k: nat, dst: nat)
    requires k < |RESERVED| && dst < 0x1_0000_0000
    ensures Hit(k, dst) <==> InBlock(k, dst)
  {
    hide Aligned;
    hide Mask;
    hide And;
    MaskValues();
    hide Pow2;
    BlockAligned(k);
    MaskIsBlock(RESERVED[k], dst);
  }

  predicate AnyHit(dst: nat) {
    || Hit(0, dst) || Hit(1, dst) || Hit(2, dst) || Hit(3, dst) || Hit(4, dst) || Hit(5, dst)
    || Hit(6, dst) || Hit(7, dst) || Hit(8, dst) || Hit(9, dst) || Hit(10, dst) || Hit(11, dst)
    || Hit(12, dst) || Hit(13, dst) || Hit(14, dst) || Hit(15, dst) || Hit(16, dst)
  }

  lemma DroppedIffHit(dst: nat)
    ensures Dropped(dst) <==> AnyHit(dst)
  {
    hide And;
    hide Mask;
    MaskValues();
  }

  lemma AnyHitMeans(dst: nat)
    ensures AnyHit(dst) <==> exists k :: 0 <= k < |RESERVED| && Hit(k, dst)
  {
    hide Hit;
  }

  /** The masks drop exactly the addresses in the listed blocks. */
  lemma DroppedIffReserved(dst: nat)
    requires dst < 0x1_0000_0000
    ensures Dropped(dst) <==> InReservedBlock(dst)
  {
    DroppedIffHit(dst);
    AnyHitMeans(dst);
    hide AnyHit;
    hide Hit;
    hide Dropped;
    hide InBlock;
    forall k | 0 <= k < |RESERVED| ensures Hit(k, dst) <==> InBlock(k, dst) {
      HitIffContains(k, dst);
    }
  }

  // ---- The decision on a packet ---------------------------------------------------------------

  const BUFFER := 65535

  function Word(buf: seq<byte>, at: nat): nat
    requires at + 4 <= |buf|
  {
    Address(buf[at], buf[at + 1], buf[at + 2], buf[at + 3])
  }

  /** The Total Length field (section 3.1 of RFC 791). */
  function TotalLength(p: seq<byte>): nat
    requires |p| >= 4
  {
    FromU16(p[2], p[3])
  }

  function HeaderSize(p: seq<byte>): (n: nat)
    requires |p| >= 1
    ensures n <= 60
  {
    (p[0] % 16) * 4
  }

  predicate PortOpen(port: nat) {
    port == 80 || port == 443 || 1024 <= port <= 61439
  }

  /** From the interface's own address, and not to a reserved one. */
  predicate Addressed(p: seq<byte>, ifaddr: seq<byte>)
    requires |p| >= 20
  {
    p[12..16] == ifaddr && !Dropped(Word(p, 16))
  }

  /** The checks on the whole receive buffer, of which the packet is only the start. */
  predicate Accepts(buf: seq<byte>, ifaddr: seq<byte>)
    requires |buf| == BUFFER
  {
    && Addressed(buf, ifaddr)
    && var h := HeaderSize(buf);
       var port := FromU16(buf[h], buf[h + 1]);
       !(port != 80 && port != 443 && (port < 1024 || port > 61439))
  }

  /** The receive buffer once `p` has been read over `stale`. */
  function Over(p: seq<byte>, stale: seq<byte>): (buf: seq<byte>)
    requires |p| <= |stale| == BUFFER
    ensures |buf| == BUFFER
  {
    p + stale[|p|..]
  }

  lemma AcceptsIff(buf: seq<byte>, ifaddr: seq<byte>)
    requires |buf| == BUFFER
    ensures Accepts(buf, ifaddr)
       <==> buf[12..16] == ifaddr && !Dropped(Word(buf, 16))
            && PortOpen(FromU16(buf[HeaderSize(buf)], buf[HeaderSize(buf) + 1]))
  {
    hide Dropped;
  }

  /** The source port is read after as many 32-bit words as the low half of the first byte says, for every
      header length and version. */
  lemma PortAfterHeader(buf: seq<byte>, ifaddr: seq<byte>, version: nat, words: nat)
    requires |buf| == BUFFER && version < 16 && words < 16 && buf[0] == 16 * version + words
    ensures Accepts(buf, ifaddr)
       <==> && buf[12..16] == ifaddr && !Dropped(Word(buf, 16))
            && var high: nat, low: nat := buf[4 * words], buf[4 * words + 1];
               var port := high * 256 + low;
               port == 80 || port == 443 || 1024 <= port <= 61439
  {
    hide Dropped;
    AcceptsIff(buf, ifaddr);
    hide Accepts;
    assert HeaderSize(buf) == 4 * words;
  }

  // ---- What a packet's own bytes leave open ---------------------------------------------------------

  /** No byte of the source address that the packet has is wrong. */
  predicate FromIfaddr(p: seq<byte>, ifaddr: seq<byte>) {
    |ifaddr| == 4 && forall i :: 12 <= i < 16 && i < |p| ==> p[i] == ifaddr[i - 12]
  }

  function ByteOr(p: seq<byte>, i: nat, fill: byte): byte {
    if i < |p| then p[i] else fill
  }

  /** The destination with `fill` for the bytes the packet lacks. */
  function Filled(p: seq<byte>, fill: byte): nat {
    Address(ByteOr(p, 16, fill), ByteOr(p, 17, fill), ByteOr(p, 18, fill), ByteOr(p, 19, fill))
  }

  /** Some reserved block meets the addresses that begin with the packet's own bytes. */
  predicate MayBeReserved(p: seq<byte>) {
    exists k :: 0 <= k < |RESERVED| && Meets(k, Filled(p, 0), Filled(p, 255))
  }

  predicate Meets(k: nat, low: nat, high: nat)
    requires k < |RESERVED|
  {
    low < RESERVED[k].Base() + Pow2(32 - RESERVED[k].bits) && RESERVED[k].Base() <= high
  }

  /** The bytes of a packet that is to be let out: its own, and those of the source address. */
  function Known(p: seq<byte>, ifaddr: seq<byte>, i: nat): Option<byte> {
    if i < |p| then Some(p[i])
    else if |ifaddr| == 4 && 12 <= i < 16 then Some(ifaddr[i - 12])
    else None
  }

  predicate MayBeOpen(hi: Option<byte>, lo: Option<byte>) {
    match (hi, lo)
    case (Some(a), Some(b)) => PortOpen(FromU16(a, b))
    case (Some(a), None) => a == 0 || a == 1 || 4 <= a <= 239
    case (None, _) => true
  }

  predicate MayBeShut(hi: Option<byte>, lo: Option<byte>) {
    match (hi, lo)
    case (Some(a), Some(b)) => !PortOpen(FromU16(a, b))
    case (Some(a), None) => !(4 <= a <= 239)
    case (None, _) => true
  }

  predicate PortMayBeOpen(p: seq<byte>, ifaddr: seq<byte>)
    requires |p| >= 1
  {
    MayBeOpen(Known(p, ifaddr, HeaderSize(p)), Known(p, ifaddr, HeaderSize(p) + 1))
  }

  predicate PortMayBeShut(p: seq<byte>, ifaddr: seq<byte>)
    requires |p| >= 1
  {
    MayBeShut(Known(p, ifaddr, HeaderSize(p)), Known(p, ifaddr, HeaderSize(p) + 1))
  }

  /** Nothing in the packet's own bytes forbids it. No block holds an address only because it goes on
      with eights. */
  predicate CanPass(p: seq<byte>, ifaddr: seq<byte>)
    requires |p| >= 1
  {
    FromIfaddr(p, ifaddr) && !Dropped(Filled(p, 8)) && PortMayBeOpen(p, ifaddr)
  }

  /** The packet's own bytes do not ensure that it is let out. */
  predicate CanFail(p: seq<byte>, ifaddr: seq<byte>)
    requires |p| >= 1
  {
    |p| < 16 || !FromIfaddr(p, ifaddr) || MayBeReserved(p) || PortMayBeShut(p, ifaddr)
  }

  /** The packet's own bytes settle the decision. */
  predicate Settled(p: seq<byte>, ifaddr: seq<byte>)
    requires |p| >= 1
  {
    !(CanPass(p, ifaddr) && CanFail(p, ifaddr))
  }

  /** What they say. */
  predicate Passes(p: seq<byte>, ifaddr: seq<byte>)
    requires |p| >= 1
  {
    !CanFail(p, ifaddr)
  }

  /** For a packet with a whole IPv4 header: it has a port, or it is rejected before its port matters, or
      the first byte of its port is one no second byte can change the verdict of. */
  lemma WholeHeader(p: seq<byte>, ifaddr: seq<byte>)
    requires |p| >= 20
    ensures var h := HeaderSize(p);
      && (Settled(p, ifaddr)
          <==> !Addressed(p, ifaddr) || h + 2 <= |p| || (h + 1 == |p| && p[h] != 0 && p[h] != 1))
      && (Passes(p, ifaddr)
          <==> Addressed(p, ifaddr) && h < |p| && PortOpen(FromU16(p[h], if h + 1 < |p| then p[h + 1] else 0)))
  {
    SourceIs(p, ifaddr);
    ReservedIffDropped(p);
    assert Filled(p, 8) == Word(p, 16);
    hide Dropped;
    hide MayBeReserved;
    hide FromIfaddr;
    hide Filled;
  }

  lemma SourceIs(p: seq<byte>, ifaddr: seq<byte>)
    requires |p| >= 16
    ensures FromIfaddr(p, ifaddr) <==> p[12..16] == ifaddr
  {
    var source := p[12..16];
    assert forall i :: 0 <= i < 4 ==> source[i] == p[i + 12];
    if FromIfaddr(p, ifaddr) {
      forall i | 0 <= i < 4 ensures source[i] == ifaddr[i] {
        assert p[i + 12] == ifaddr[i + 12 - 12];
      }
    }
  }

  lemma ReservedIffDropped(p: seq<byte>)
    requires |p| >= 20
    ensures MayBeReserved(p) <==> Dropped(Word(p, 16))
  {
    var dst := Word(p, 16);
    DroppedIffReserved(dst);
    hide Dropped;
    assert Filled(p, 0) == dst == Filled(p, 255);
    forall k | 0 <= k < |RESERVED| ensures Meets(k, dst, dst) <==> InBlock(k, dst) {
    }
    hide Meets;
    hide InBlock;
  }

  // ---- Destinations ------------------------------------------------------------------------------

  /** Only bytes that the packet lacks differ between the two addresses. */
  lemma FilledBounds(p: seq<byte>, buf: seq<byte>)
    requires |buf| == BUFFER && forall i :: 16 <= i < 20 && i < |p| ==> buf[i] == p[i]
    ensures Filled(p, 0) <= Word(buf, 16) <= Filled(p, 255)
  {
    var a, b, c, d := buf[16], buf[17], buf[18], buf[19];
    assert ByteOr(p, 16, 0) <= a <= ByteOr(p, 16, 255) && ByteOr(p, 17, 0) <= b <= ByteOr(p, 17, 255);
    assert ByteOr(p, 18, 0) <= c <= ByteOr(p, 18, 255) && ByteOr(p, 19, 0) <= d <= ByteOr(p, 19, 255);
  }

  lemma ReservedMeets(p: seq<byte>, buf: seq<byte>)
    requires |buf| == BUFFER && forall i :: 16 <= i < 20 && i < |p| ==> buf[i] == p[i]
    requires Dropped(Word(buf, 16))
    ensures MayBeReserved(p)
  {
    var dst := Word(buf, 16);
    DroppedIffReserved(dst);
    FilledBounds(p, buf);
    hide Dropped;
    var k :| 0 <= k < |RESERVED| && InBlock(k, dst);
    assert Meets(k, Filled(p, 0), Filled(p, 255));
  }

  /** Bytes of an address that begins with the packet's own ones. */
  lemma Completes(p: seq<byte>, x: nat) returns (d: seq<byte>)
    requires Filled(p, 0) <= x <= Filled(p, 255)
    ensures |d| == 4 && Address(d[0], d[1], d[2], d[3]) == x
    ensures forall i :: 16 <= i < 20 && i < |p| ==> d[i - 16] == p[i]
  {
    var x3 := x / 256;
    var x2 := x3 / 256;
    var x1 := x2 / 256;
    assert x1 < 256 && (|p| >= 17 ==> x1 == p[16]);
    d := [x1, x2 % 256, x3 % 256, x % 256];
    if |p| == 17 {
    } else if |p| == 18 {
      assert x2 == x1 * 256 + p[17];
    } else if |p| == 19 {
      assert x3 == (x1 * 256 + p[17]) * 256 + p[18];
    } else if |p| >= 20 {
      assert x == ((x1 * 256 + p[17]) * 256 + p[18]) * 256 + p[19];
    }
  }

  lemma MeetingPoint(k: nat, low: nat, high: nat) returns (x: nat)
    requires k < |RESERVED| && Meets(k, low, high) && low <= high
    ensures low <= x <= high && InBlock(k, x)
  {
    x := if low < RESERVED[k].Base() then RESERVED[k].Base() else low;
  }

  lemma ReservedCompletion(p: seq<byte>) returns (d: seq<byte>)
    requires MayBeReserved(p)
    ensures |d| == 4 && Dropped(Address(d[0], d[1], d[2], d[3]))
    ensures forall i :: 16 <= i < 20 && i < |p| ==> d[i - 16] == p[i]
  {
    hide Meets;
    hide Dropped;
    hide InBlock;
    FilledOrder(p);
    hide Filled;
    var k :| 0 <= k < |RESERVED| && Meets(k, Filled(p, 0), Filled(p, 255));
    var x := MeetingPoint(k, Filled(p, 0), Filled(p, 255));
    d := Completes(p, x);
    DroppedIffReserved(x);
  }

  lemma FilledOrder(p: seq<byte>)
    ensures Filled(p, 0) <= Filled(p, 255) < 0x1_0000_0000
  {
  }

  /** A block that holds the address that goes on with eights holds all that begin alike. */
  lemma BlockHoldsAll(k: nat, p: seq<byte>, x: nat)
    requires k < |RESERVED| && InBlock(k, Filled(p, 8)) && Filled(p, 0) <= x <= Filled(p, 255)
    ensures InBlock(k, x)
  {
    hide InBlock;
    var a: nat, b: nat, c: nat := ByteOr(p, 16, 8), ByteOr(p, 17, 8), ByteOr(p, 18, 8);
    if |p| >= 20 {
      assert x == Filled(p, 8);
    } else if |p| == 19 {
      HoldsLast(k, (a * 256 + b) * 256 + c, x);
    } else if |p| == 18 {
      assert Filled(p, 8) == (a * 256 + b) * 0x1_0000 + 0x808;
      HoldsLastTwo(k, a * 256 + b, x);
    } else if |p| == 17 {
      assert Filled(p, 8) == a * 0x100_0000 + 0x8_0808;
      HoldsLastThree(k, a, x);
    } else {
      assert Filled(p, 8) == 0x0808_0808;
      HoldsNot8(k);
    }
  }

  lemma HoldsLast(k: nat, high: nat, x: nat)
    requires k < |RESERVED| && InBlock(k, high * 256 + 8) && high * 256 <= x <= high * 256 + 255
    ensures InBlock(k, x)
  {
    Powers();
    assert Pow2(0) == 1;
    hide Pow2;
  }

  lemma BlockShape(k: nat)
    requires k < |RESERVED|
    ensures var r := RESERVED[k];
      if r.bits <= 16 then r.c == 0 && r.d == 0 && Pow2(32 - r.bits) % 0x1_0000 == 0
      else r.c != 8 && r.d + Pow2(32 - r.bits) <= 256
  {
    Powers();
    assert Pow2(0) == 1;
    hide Pow2;
  }

  lemma HoldsLastTwo(k: nat, high: nat, x: nat)
    requires k < |RESERVED| && InBlock(k, high * 0x1_0000 + 0x808)
    requires high * 0x1_0000 <= x <= high * 0x1_0000 + 0xffff
    ensures InBlock(k, x)
  {
    BlockShape(k);
    var r := RESERVED[k];
    var top, size := r.a * 256 + r.b, Pow2(32 - r.bits);
    assert r.Base() == top * 0x1_0000 + r.c * 256 + r.d;
    if r.bits <= 16 {
      WholeWords(top, size / 0x1_0000, high, x);
    } else {
      NotEights(top, r.c * 256 + r.d, size, high);
    }
  }

  lemma WholeWords(top: nat, words: nat, high: nat, x: nat)
    requires top * 0x1_0000 <= high * 0x1_0000 + 0x808 < top * 0x1_0000 + words * 0x1_0000
    requires high * 0x1_0000 <= x <= high * 0x1_0000 + 0xffff
    ensures top * 0x1_0000 <= x < top * 0x1_0000 + words * 0x1_0000
  {
  }

  lemma NotEights(top: nat, low: nat, size: nat, high: nat)
    requires low < 0x1_0000 && low / 256 != 8 && low % 256 + size <= 256
    ensures !(top * 0x1_0000 + low <= high * 0x1_0000 + 0x808 < top * 0x1_0000 + low + size)
  {
    assert low == low / 256 * 256 + low % 256;
  }

  lemma HoldsLastThree(k: nat, high: nat, x: nat)
    requires k < |RESERVED| && InBlock(k, high * 0x100_0000 + 0x8_0808)
    requires high * 0x100_0000 <= x <= high * 0x100_0000 + 0xff_ffff
    ensures InBlock(k, x)
  {
    Powers();
    assert Pow2(0) == 1;
    hide Pow2;
  }

  lemma HoldsNot8(k: nat)
    requires k < |RESERVED|
    ensures !InBlock(k, 0x0808_0808)
  {
    Powers();
    assert Pow2(0) == 1;
    hide Pow2;
  }

  lemma EightsPass(p: seq<byte>, buf: seq<byte>)
    requires |buf| == BUFFER && forall i :: 16 <= i < 20 && i < |p| ==> buf[i] == p[i]
    requires !Dropped(Word(buf, 16))
    ensures !Dropped(Filled(p, 8))
  {
    var dst := Word(buf, 16);
    DroppedIffReserved(dst);
    FilledOrder(p);
    DroppedIffReserved(Filled(p, 8));
    FilledBounds(p, buf);
    hide Dropped;
    hide Filled;
    hide InBlock;
    if InReservedBlock(Filled(p, 8)) {
      var k :| 0 <= k < |RESERVED| && InBlock(k, Filled(p, 8));
      BlockHoldsAll(k, p, dst);
    }
  }

  // ---- The decision, over all buffers -------------------------------------------------------------

  lemma OverIs(p: seq<byte>, stale: seq<byte>)
    requires |p| <= |stale| == BUFFER
    ensures forall i :: 0 <= i < BUFFER ==> Over(p, stale)[i] == if i < |p| then p[i] else stale[i]
  {
  }

  lemma KnownIsSeen(p: seq<byte>, stale: seq<byte>, ifaddr: seq<byte>, i: nat)
    requires |p| <= |stale| == BUFFER && i < BUFFER && Over(p, stale)[12..16] == ifaddr
    ensures var b := Known(p, ifaddr, i); b.Some? ==> b.value == Over(p, stale)[i]
    ensures FromIfaddr(p, ifaddr)
  {
    var buf := Over(p, stale);
    OverIs(p, stale);
    var source := buf[12..16];
    assert forall k :: 12 <= k < 16 ==> buf[k] == source[k - 12];
    hide Over;
  }

  lemma PortAsSeen(hi: Option<byte>, lo: Option<byte>, a: byte, b: byte)
    requires (hi.Some? ==> hi.value == a) && (lo.Some? ==> lo.value == b)
    ensures PortOpen(FromU16(a, b)) ==> MayBeOpen(hi, lo)
    ensures !PortOpen(FromU16(a, b)) ==> MayBeShut(hi, lo)
  {
  }

  lemma AcceptedCanPass(p: seq<byte>, stale: seq<byte>, ifaddr: seq<byte>)
    requires 1 <= |p| <= |stale| == BUFFER && Accepts(Over(p, stale), ifaddr)
    ensures CanPass(p, ifaddr)
  {
    hide Accepts;
    hide Over;
    hide Dropped;
    hide Known;
    hide MayBeOpen;
    hide Word;
    hide Filled;
    hide FromIfaddr;
    var buf, h := Over(p, stale), HeaderSize(p);
    OverIs(p, stale);
    AcceptsIff(buf, ifaddr);
    EightsPass(p, buf);
    KnownIsSeen(p, stale, ifaddr, h);
    KnownIsSeen(p, stale, ifaddr, h + 1);
    PortAsSeen(Known(p, ifaddr, h), Known(p, ifaddr, h + 1), buf[h], buf[h + 1]);
  }

  lemma RejectedCanFail(p: seq<byte>, stale: seq<byte>, ifaddr: seq<byte>)
    requires 1 <= |p| <= |stale| == BUFFER && !Accepts(Over(p, stale), ifaddr)
    ensures CanFail(p, ifaddr)
  {
    hide Accepts;
    hide Over;
    hide Dropped;
    hide Known;
    hide MayBeShut;
    hide Word;
    hide MayBeReserved;
    var buf, h := Over(p, stale), HeaderSize(p);
    OverIs(p, stale);
    AcceptsIff(buf, ifaddr);
    if |p| >= 16 && FromIfaddr(p, ifaddr) {
      SourceIs(buf, ifaddr);
      hide FromIfaddr;
      if Dropped(Word(buf, 16)) {
        ReservedMeets(p, buf);
      } else {
        KnownIsSeen(p, stale, ifaddr, h);
        KnownIsSeen(p, stale, ifaddr, h + 1);
        PortAsSeen(Known(p, ifaddr, h), Known(p, ifaddr, h + 1), buf[h], buf[h + 1]);
      }
    }
  }

  /** The interface's address, and eights but for one byte. */
  function Eights(ifaddr: seq<byte>, at: nat, odd: byte): (stale: seq<byte>)
    requires |ifaddr| == 4
    ensures |stale| == BUFFER
    ensures forall i :: 0 <= i < BUFFER ==>
              stale[i] == if 12 <= i < 16 then ifaddr[i - 12] else if i == at then odd else 8
  {
    seq(BUFFER, i requires 0 <= i < BUFFER => if 12 <= i < 16 then ifaddr[i - 12] else if i == at then odd else 8)
  }

  /** What lets a packet out that can be: the interface's address, eights, and port 80 or 443 if the
      packet has already begun on one. */
  lemma OpenBuffer(p: seq<byte>, ifaddr: seq<byte>) returns (stale: seq<byte>)
    requires 1 <= |p| <= BUFFER && CanPass(p, ifaddr)
    ensures |stale| == BUFFER && Accepts(Over(p, stale), ifaddr)
  {
    hide Dropped;
    hide Accepts;
    hide Word;
    hide Filled;
    hide Eights;
    hide Over;
    var h := HeaderSize(p);
    var odd: byte := if h + 1 == |p| && p[h] == 0 then 80 else if h + 1 == |p| && p[h] == 1 then 187 else 8;
    stale := Eights(ifaddr, h + 1, odd);
    var buf := Over(p, stale);
    OverIs(p, stale);
    AcceptsIff(buf, ifaddr);
    SourceIs(buf, ifaddr);
    EightsLetOut(p, buf, odd);
    PortLetOut(p, ifaddr, buf, odd);
  }

  /** Eights go on an address as well as any other bytes; 187 does after a 1. */
  lemma EightsLetOut(p: seq<byte>, buf: seq<byte>, odd: byte)
    requires 1 <= |p| && |buf| == BUFFER && !Dropped(Filled(p, 8))
    requires var h := HeaderSize(p);
      && (odd == 8 || (h + 1 == |p| && ((p[h] == 0 && odd == 80) || (p[h] == 1 && odd == 187))))
      && forall i :: 16 <= i < 20 ==> buf[i] == if i < |p| then p[i] else if i == h + 1 then odd else 8
    ensures !Dropped(Word(buf, 16))
  {
    hide Dropped;
    var h := HeaderSize(p);
    if h == 16 && |p| == 17 && odd != 8 {
      After1Or0(buf[16]);
      assert buf[16] == p[16] && buf[17] == odd && buf[18] == 8 && buf[19] == 8;
      assert Filled(p, 8) == Address(p[16], 8, 8, 8);
    } else {
      assert Word(buf, 16) == Filled(p, 8);
    }
  }

  lemma After1Or0(a: byte)
    requires a == 0 || a == 1
    ensures a == 0 ==> Dropped(Address(a, 8, 8, 8))
    ensures a == 1 ==> !Dropped(Address(a, 187, 8, 8))
  {
    hide Dropped;
    After0();
    After1();
  }

  lemma After0()
    ensures Dropped(0x0008_0808)
  {
    hide Dropped;
    DroppedIffReserved(0x0008_0808);
    HoldsLeading0();
    hide InBlock;
  }

  lemma After1()
    ensures !Dropped(0x01bb_0808)
  {
    hide Dropped;
    DroppedIffReserved(0x01bb_0808);
    hide InBlock;
    forall k | 0 <= k < |RESERVED| ensures !InBlock(k, 0x01bb_0808) {
      HoldsNot1(k);
    }
  }

  lemma HoldsLeading0()
    ensures InBlock(0, 0x0008_0808)
  {
    Powers();
    hide Pow2;
  }

  lemma HoldsNot1(k: nat)
    requires k < |RESERVED|
    ensures !InBlock(k, 0x01bb_0808)
  {
    Powers();
    assert Pow2(0) == 1;
    hide Pow2;
  }

  lemma PortLetOut(p: seq<byte>, ifaddr: seq<byte>, buf: seq<byte>, odd: byte)
    requires |buf| == BUFFER && 1 <= |p| && |ifaddr| == 4 && PortMayBeOpen(p, ifaddr)
    requires var h := HeaderSize(p);
      && odd == (if h + 1 == |p| && p[h] == 0 then 80 else if h + 1 == |p| && p[h] == 1 then 187 else 8)
      && forall i :: 0 <= i < 64 ==>
           buf[i] == if i < |p| then p[i] else if 12 <= i < 16 then ifaddr[i - 12] else if i == h + 1 then odd else 8
    ensures PortOpen(FromU16(buf[HeaderSize(p)], buf[HeaderSize(p) + 1]))
  {
  }

  /** What keeps a packet in that can be. */
  lemma ShutBuffer(p: seq<byte>, ifaddr: seq<byte>) returns (stale: seq<byte>)
    requires 1 <= |p| <= BUFFER && CanFail(p, ifaddr)
    ensures |stale| == BUFFER && !Accepts(Over(p, stale), ifaddr)
  {
    hide Dropped;
    hide MayBeReserved;
    hide Over;
    hide Accepts;
    stale := Zeros(BUFFER);
    if |p| < 16 && |ifaddr| == 4 {
      stale := stale[15 := if ifaddr[3] == 0 then 1 else 0];
      OverIs(p, stale);
      AcceptsIff(Over(p, stale), ifaddr);
      assert Over(p, stale)[12..16][3] == Over(p, stale)[15];
    } else if |p| >= 16 && MayBeReserved(p) {
      var d := ReservedCompletion(p);
      stale := stale[16 := d[0]][17 := d[1]][18 := d[2]][19 := d[3]];
      OverIs(p, stale);
      AcceptsIff(Over(p, stale), ifaddr);
    } else {
      OverIs(p, stale);
      AcceptsIff(Over(p, stale), ifaddr);
      SourceIs(Over(p, stale), ifaddr);
    }
  }

  lemma SettledDecides(p: seq<byte>, stale: seq<byte>, ifaddr: seq<byte>)
    requires 1 <= |p| <= |stale| == BUFFER && Settled(p, ifaddr)
    ensures Accepts(Over(p, stale), ifaddr) <==> Passes(p, ifaddr)
  {
    hide Accepts;
    hide Over;
    hide CanPass;
    hide CanFail;
    if Accepts(Over(p, stale), ifaddr) {
      AcceptedCanPass(p, stale, ifaddr);
    } else {
      RejectedCanFail(p, stale, ifaddr);
    }
  }

  /** An unsettled packet is let out or not by what an earlier packet left behind. */
  lemma UnsettledSways(p: seq<byte>, ifaddr: seq<byte>) returns (shut: seq<byte>, open: seq<byte>)
    requires 1 <= |p| <= BUFFER && !Settled(p, ifaddr)
    ensures |shut| == |open| == BUFFER
    ensures Accepts(Over(p, open), ifaddr) && !Accepts(Over(p, shut), ifaddr)
  {
    shut := ShutBuffer(p, ifaddr);
    open := OpenBuffer(p, ifaddr);
  }

  /** A packet's fate is its own, whatever lay in the buffer, exactly when it is settled; this holds of
      frames without a whole IPv4 header too. */
  lemma SettledIffOwnBytesDecide(p: seq<byte>, ifaddr: seq<byte>)
    requires 1 <= |p| <= BUFFER
    ensures Settled(p, ifaddr)
       <==> forall stale :: |stale| == BUFFER ==> (Accepts(Over(p, stale), ifaddr) <==> Passes(p, ifaddr))
  {
    hide Accepts;
    hide Over;
    hide Passes;
    if Settled(p, ifaddr) {
      forall stale: seq<byte> | |stale| == BUFFER ensures Accepts(Over(p, stale), ifaddr) <==> Passes(p, ifaddr) {
        SettledDecides(p, stale, ifaddr);
      }
    } else {
      var shut, open := UnsettledSways(p, ifaddr);
    }
  }

  /** A frame too short to have a source address of its own is never let out for what it is: some buffer
      keeps it in. */
  lemma ShortFramesAreNeverSafe(p: seq<byte>, ifaddr: seq<byte>)
    requires 1 <= |p| < 16
    ensures !Passes(p, ifaddr)
    ensures Settled(p, ifaddr) <==> forall stale :: |stale| == BUFFER ==> !Accepts(Over(p, stale), ifaddr)
  {
    hide CanPass;
    SettledIffOwnBytesDecide(p, ifaddr);
    hide Accepts;
    hide Over;
    hide Settled;
  }

  lemma EightsAreFree()
    ensures !Dropped(0x0808_0808)
  {
    hide Dropped;
    DroppedIffReserved(0x0808_0808);
    hide InBlock;
    forall k | 0 <= k < |RESERVED| ensures !InBlock(k, 0x0808_0808) {
      HoldsNot8(k);
    }
  }

  /** The shortest frame there is: four bytes of which nothing is known but a header of 20. */
  lemma FourBytesAreUnsettled(ifaddr: seq<byte>)
    requires |ifaddr| == 4
    ensures !Settled([0x45, 0, 0, 4], ifaddr)
  {
    hide Dropped;
    hide MayBeReserved;
    EightsAreFree();
    var p: seq<byte> := [0x45, 0, 0, 4];
    assert Filled(p, 8) == 0x0808_0808;
    hide Filled;
    assert HeaderSize(p) == 20;
  }
}
