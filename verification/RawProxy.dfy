/** The raw proxy's outgoing direction: the enclave side puts IP packets on a vsock stream one
    after another (networking/raw-proxy/src/ip_to_vsock_raw_outgoing.rs), the host side cuts the
    stream back into packets by their length field, filters them and sends them on
    (networking/raw-proxy/src/vsock_to_ip_raw_outgoing.rs). Either side drops its connection on
    an error and goes on with a new one. */
module RawProxy {
  import opened ByteStream
  import opened Bytes
  import opened PacketFilter

  // ---- What a connection's bytes become ---------------------------------------------------------

  datatype Received = Received(sent: seq<seq<byte>>, panicked: bool)

  /** The first frame of a stream: whole, cut off by the connection's end, or with a length below
      4, an empty slice range for which the process panics. */
  datatype Frame = Whole(size: nat) | CutOff | TooShort

  function NextFrame(input: seq<byte>): (f: Frame)
    ensures f.Whole? ==> 4 <= f.size <= BUFFER && f.size <= |input|
  {
    if |input| < 4 then CutOff
    else if TotalLength(input) < 4 then TooShort
    else if |input| < TotalLength(input) then CutOff
    else Whole(TotalLength(input))
  }

  /** The packets sent for the bytes a connection delivers before it breaks. */
  function Receive(buf: seq<byte>, input: seq<byte>, ifaddr: seq<byte>): Received
    requires |buf| == BUFFER
    decreases |input|
  {
    match NextFrame(input)
    case CutOff => Received([], false)
    case TooShort => Received([], true)
    case Whole(size) =>
      var now := Over(input[..size], buf);
      var rest := Receive(now, input[size..], ifaddr);
      if Accepts(now, ifaddr) then rest.(sent := [input[..size]] + rest.sent) else rest
  }

  /** Whole frames and then at least four bytes whose length field is below 4. */
  predicate ShortAfter(ps: seq<seq<byte>>, rest: seq<byte>) {
    && (forall p :: p in ps ==> |p| >= 4 && TotalLength(p) == |p|)
    && |rest| >= 4 && TotalLength(rest) < 4
  }

  ghost predicate EndsShort(input: seq<byte>) {
    exists ps: seq<seq<byte>>, rest: seq<byte> :: ShortAfter(ps, rest) && input == Flatten(ps) + rest
  }

  /** A connection makes the process panic exactly if its bytes are whole frames followed by a frame with
      a length below 4, whatever the buffer held and whichever packets pass. */
  lemma PanicsIffShort(buf: seq<byte>, input: seq<byte>, ifaddr: seq<byte>)
    requires |buf| == BUFFER
    ensures Receive(buf, input, ifaddr).panicked <==> EndsShort(input)
  {
    hide Receive;
    if Receive(buf, input, ifaddr).panicked {
      var ps, rest := ShortOfPanic(buf, input, ifaddr);
    }
    if EndsShort(input) {
      var ps: seq<seq<byte>>, rest: seq<byte> :| ShortAfter(ps, rest) && input == Flatten(ps) + rest;
      PanicOfShort(buf, ps, rest, ifaddr);
    }
  }

  lemma {:induction false} ShortOfPanic(buf: seq<byte>, input: seq<byte>, ifaddr: seq<byte>)
    returns (ps: seq<seq<byte>>, rest: seq<byte>)
    requires |buf| == BUFFER && Receive(buf, input, ifaddr).panicked
    ensures ShortAfter(ps, rest) && input == Flatten(ps) + rest
    decreases |input|
  {
    hide Accepts;
    hide Over;
    match NextFrame(input)
    case CutOff =>
      assert false;
    case TooShort =>
      ps, rest := [], input;
    case Whole(size) =>
      var p := input[..size];
      ps, rest := ShortOfPanic(Over(p, buf), input[size..], ifaddr);
      Assoc(p, Flatten(ps), rest);
      ps := [p] + ps;
      assert ps[1..] == ps[1..] && Flatten(ps) == p + Flatten(ps[1..]);
  }

  lemma {:induction false} PanicOfShort(buf: seq<byte>, ps: seq<seq<byte>>, rest: seq<byte>, ifaddr: seq<byte>)
    requires |buf| == BUFFER && ShortAfter(ps, rest)
    ensures Receive(buf, Flatten(ps) + rest, ifaddr).panicked
    decreases |ps|
  {
    hide Accepts;
    hide Over;
    var input := Flatten(ps) + rest;
    if ps == [] {
      assert input == rest;
    } else {
      var p, after := ps[0], Flatten(ps[1..]) + rest;
      Assoc(p, Flatten(ps[1..]), rest);
      assert input == p + after;
      assert input[..|p|] == p && input[|p|..] == after;
      assert NextFrame(input) == Whole(|p|);
      PanicOfShort(Over(p, buf), ps[1..], rest, ifaddr);
    }
  }

  /** The shortest such input: a header that claims three bytes. */
  lemma ShortLengthPanics(buf: seq<byte>, ifaddr: seq<byte>)
    requires |buf| == BUFFER
    ensures Receive(buf, [0x45, 0, 0, 3], ifaddr) == Received([], true)
  {
  }

  /** One connection after another, each with a fresh buffer, until a panic. */
  function ReceiveAll(inputs: seq<seq<byte>>, ifaddr: seq<byte>): Received {
    if inputs == [] then Received([], false)
    else
      var first := Receive(Zeros(BUFFER), inputs[0], ifaddr);
      if first.panicked then first
      else
        var rest := ReceiveAll(inputs[1..], ifaddr);
        rest.(sent := first.sent + rest.sent)
  }

  /** Some connection makes the process panic exactly if the bytes of one end so. */
  lemma {:induction false} PanicsIffSomeEndsShort(inputs: seq<seq<byte>>, ifaddr: seq<byte>)
    ensures ReceiveAll(inputs, ifaddr).panicked <==> exists i :: 0 <= i < |inputs| && EndsShort(inputs[i])
  {
    hide Receive;
    hide EndsShort;
    if inputs != [] {
      PanicsIffShort(Zeros(BUFFER), inputs[0], ifaddr);
      PanicsIffSomeEndsShort(inputs[1..], ifaddr);
      assert forall i :: 0 <= i < |inputs| - 1 ==> inputs[1..][i] == inputs[i + 1];
      if exists i :: 0 <= i < |inputs[1..]| && EndsShort(inputs[1..][i]) {
        var i :| 0 <= i < |inputs[1..]| && EndsShort(inputs[1..][i]);
        assert EndsShort(inputs[i + 1]);
      }
      if exists i :: 0 < i < |inputs| && EndsShort(inputs[i]) {
        var i :| 0 < i < |inputs| && EndsShort(inputs[i]);
        assert EndsShort(inputs[1..][i - 1]);
      }
    }
  }

  // ---- The host side ---------------------------------------------------------------------------------

  /** The raw IP socket: every send makes one datagram or fails. A `whole` socket never cuts one short, a
      `reliable` one never fails, a `broken` one always does; `failed` tells that a send has. */
  class IpSocket {
    const whole: bool
    const reliable: bool
    const broken: bool
    var sent: seq<seq<byte>>
    var failed: bool

    constructor (whole: bool, reliable: bool, broken: bool)
      requires !(reliable && broken)
      ensures this.whole == whole && this.reliable == reliable && this.broken == broken
      ensures sent == [] && !failed
    {
      this.whole, this.reliable, this.broken := whole, reliable, broken;
      sent, failed := [], false;
    }

    method SendTo(data: seq<byte>) returns (r: Option<nat>)
      requires data != []
      modifies this
      ensures reliable && !broken ==> r.Some?
      ensures broken ==> r.None?
      ensures failed == (old(failed) || r.None?)
      ensures r.None? ==> sent == old(sent)
      ensures r.Some? ==> 1 <= r.value <= |data| && sent == old(sent) + [data[..r.value]]
      ensures r.Some? && whole ==> r.value == |data|
    {
      var fails: bool := *;
      if broken || (fails && !reliable) {
        failed := true;
        return None;
      }
      var n := |data|;
      if !whole {
        n :| 1 <= n <= |data|;
      }
      sent := sent + [data[..n]];
      r := Some(n);
    }
  }

  /** Between `before` and `now` the packets `done` have gone out, each in one datagram if the
      socket is `whole`. */
  predicate Sent(before: seq<seq<byte>>, now: seq<seq<byte>>, done: seq<seq<byte>>, whole: bool) {
    && Flatten(now) == Flatten(before) + Flatten(done)
    && (whole ==> now == before + done)
  }

  lemma SentNothing(before: seq<seq<byte>>, whole: bool)
    ensures Sent(before, before, [], whole)
  {
  }

  lemma SentMore(s0: seq<seq<byte>>, s1: seq<seq<byte>>, s2: seq<seq<byte>>,
                 ps: seq<seq<byte>>, qs: seq<seq<byte>>, whole: bool)
    requires Sent(s0, s1, ps, whole) && Sent(s1, s2, qs, whole)
    ensures Sent(s0, s2, ps + qs, whole)
  {
    FlattenAppend(ps, qs);
    hide Flatten;
    Assoc(Flatten(s0), Flatten(ps), Flatten(qs));
    Assoc(s0, ps, qs);
  }

  /** The first `n` bytes of `data` have gone out, all at once if the socket is `whole`. */
  predicate Partly(before: seq<seq<byte>>, now: seq<seq<byte>>, data: seq<byte>, n: nat, whole: bool) {
    && n <= |data|
    && Flatten(now) == Flatten(before) + data[..n]
    && (n == 0 ==> now == before)
    && (whole && n > 0 ==> n == |data| && now == before + [data])
  }

  lemma PartlyMore(before: seq<seq<byte>>, now: seq<seq<byte>>, data: seq<byte>, n: nat, k: nat, whole: bool)
    requires Partly(before, now, data, n, whole) && 1 <= k && n + k <= |data|
    requires whole ==> n + k == |data|
    ensures Partly(before, now + [data[n..][..k]], data, n + k, whole)
  {
    var part := data[n..][..k];
    FlattenSnoc(now, part);
    assert data[..n + k] == data[..n] + part;
    Assoc(Flatten(before), data[..n], part);
    hide Flatten;
    assert whole ==> part == data;
  }

  lemma PartlyIsSent(before: seq<seq<byte>>, now: seq<seq<byte>>, data: seq<byte>, whole: bool)
    requires Partly(before, now, data, |data|, whole) && data != []
    ensures Sent(before, now, [data], whole)
  {
    FlattenOne(data);
    hide Flatten;
    assert data[..|data|] == data;
  }

  /** The send loop: the frame in one datagram, or cut into several. */
  method SendFrame(ip: IpSocket, buf: array<byte>, size: nat) returns (ok: bool)
    requires 0 < size <= buf.Length
    modifies ip
    ensures ip.reliable && !ip.broken ==> ok
    ensures ip.failed == (old(ip.failed) || !ok)
    ensures ip.broken ==> ip.sent == old(ip.sent)
    ensures ok ==> Sent(old(ip.sent), ip.sent, [buf[..size]], ip.whole)
    ensures !ok && ip.whole ==> ip.sent == old(ip.sent)
  {
    ghost var before, frame := ip.sent, buf[..size];
    var totalSent := 0;
    assert Partly(before, ip.sent, frame, 0, ip.whole);
    hide Flatten;
    while totalSent < size
      invariant ip.failed == old(ip.failed) && (ip.broken ==> totalSent == 0)
      invariant Partly(before, ip.sent, frame, totalSent, ip.whole)
    {
      ghost var sent := ip.sent;
      var data := buf[totalSent..size];
      var r := ip.SendTo(data);
      if r.None? {
        return false;
      }
      assert data == frame[totalSent..];
      PartlyMore(before, sent, frame, totalSent, r.value, ip.whole);
      totalSent := totalSent + r.value;
    }
    PartlyIsSent(before, ip.sent, frame, ip.whole);
    ok := true;
  }

  /** Reading four bytes and then the rest lays the packet over the buffer. */
  lemma FrameRead(stale: seq<byte>, mid: seq<byte>, now: seq<byte>, input: seq<byte>, size: nat)
    requires 4 <= size <= BUFFER == |stale| == |mid| && size <= |input|
    requires mid == stale[..0] + input[..4] + stale[4..]
    requires now == mid[..4] + input[4..][..size - 4] + mid[size..]
    ensures now == Over(input[..size], stale) && now[..size] == input[..size]
  {
    assert mid[size..] == stale[size..];
    assert input[..4] + input[4..][..size - 4] == input[..size];
  }

  /** The two exact reads of the loop. */
  method ReadFrame(conn: Inbound, buf: array<byte>) returns (f: Frame)
    requires buf.Length == BUFFER
    modifies conn, buf
    ensures f == NextFrame(old(conn.pending))
    ensures f.Whole? ==>
      && conn.pending == old(conn.pending)[f.size..]
      && buf[..f.size] == old(conn.pending)[..f.size]
      && buf[..] == Over(old(conn.pending)[..f.size], old(buf[..]))
  {
    ghost var stale, input := buf[..], conn.pending;
    var ok := ReadExact(conn, buf, 0, 4);
    if !ok {
      return CutOff;
    }
    var size := FromU16(buf[2], buf[3]);
    assert size == TotalLength(input) by { assert buf[2] == buf[..][2] && buf[3] == buf[..][3]; }
    if size < 4 {
      return TooShort;
    }
    ghost var mid := buf[..];
    ok := ReadExact(conn, buf, 4, size);
    if !ok {
      return CutOff;
    }
    FrameRead(stale, mid, buf[..], input, size);
    f := Whole(size);
  }

  /** How `handle_conn` leaves its loop. The error of a failed IP send carries the queue's tag,
      which the caller takes for impossible. */
  datatype Exit = VsockError | NfqError | Panic

  /** What an exit leaves sent, given all that the connection's bytes would have sent. */
  ghost predicate Outcome(e: Exit, ip: IpSocket, before: seq<seq<byte>>, all: Received)
    reads ip
  {
    && (e == NfqError <==> ip.failed)
    && (ip.reliable && !ip.broken ==> !ip.failed)
    && (ip.broken ==> ip.sent == before)
    && (e != NfqError ==> (e == Panic <==> all.panicked) && Sent(before, ip.sent, all.sent, ip.whole))
    && (ip.whole && e == NfqError ==> exists k :: 0 <= k < |all.sent| && ip.sent == before + all.sent[..k])
  }

  function Prepend(done: seq<seq<byte>>, rest: Received): Received {
    rest.(sent := done + rest.sent)
  }

  /** One iteration of the loop, in terms of what is still to come. */
  lemma ReceiveStep(done: seq<seq<byte>>, buf: seq<byte>, input: seq<byte>, ifaddr: seq<byte>)
    requires |buf| == BUFFER
    ensures var all := Prepend(done, Receive(buf, input, ifaddr));
      match NextFrame(input)
      case CutOff => all == Received(done, false)
      case TooShort => all == Received(done, true)
      case Whole(size) =>
        var now, p := Over(input[..size], buf), input[..size];
        if Accepts(now, ifaddr) then
          && all == Prepend(done + [p], Receive(now, input[size..], ifaddr))
          && |done| < |all.sent| && all.sent[..|done|] == done
        else all == Prepend(done, Receive(now, input[size..], ifaddr))
  {
    hide Accepts;
    hide Over;
    if NextFrame(input).Whole? {
      var size := NextFrame(input).size;
      var rest := Receive(Over(input[..size], buf), input[size..], ifaddr);
      assert done + ([input[..size]] + rest.sent) == done + [input[..size]] + rest.sent;
    }
  }

  method HandleConn(conn: Inbound, ip: IpSocket, ifaddr: seq<byte>) returns (e: Exit)
    requires !ip.failed
    modifies conn, ip
    ensures Outcome(e, ip, old(ip.sent), Receive(Zeros(BUFFER), old(conn.pending), ifaddr))
  {
    hide Accepts;
    hide Over;
    hide NextFrame;
    hide Receive;
    hide Flatten;
    ghost var all, before := Receive(Zeros(BUFFER), conn.pending, ifaddr), ip.sent;
    ghost var done: seq<seq<byte>> := [];
    var buf := new byte[BUFFER](_ => 0);
    assert buf[..] == Zeros(BUFFER);
    SentNothing(before, ip.whole);
    while true
      invariant all == Prepend(done, Receive(buf[..], conn.pending, ifaddr))
      invariant Sent(before, ip.sent, done, ip.whole)
      invariant !ip.failed && (ip.broken ==> ip.sent == before)
      decreases |conn.pending|
    {
      ghost var input := conn.pending;
      ReceiveStep(done, buf[..], input, ifaddr);
      hide Prepend;
      var f := ReadFrame(conn, buf);
      match f
      case CutOff =>
        return VsockError;
      case TooShort =>
        return Panic;
      case Whole(size) =>
        if !Accepts(buf[..], ifaddr) {
          continue;
        }
        ghost var sent := ip.sent;
        var ok := SendFrame(ip, buf, size);
        if !ok {
          return NfqError;
        }
        SentMore(before, sent, ip.sent, done, [input[..size]], ip.whole);
        done := done + [input[..size]];
    }
  }

  /** `main`: each connection in turn. A failed send brings the process down, and so does a short
      length, and nothing else does; as long as no send fails, all that the connections brought has
      been sent. */
  method Proxy(inputs: seq<seq<byte>>, ip: IpSocket, ifaddr: seq<byte>) returns (panicked: bool)
    requires !ip.failed
    modifies ip
    ensures panicked <==> ip.failed || ReceiveAll(inputs, ifaddr).panicked
    ensures !ip.failed ==> Sent(old(ip.sent), ip.sent, ReceiveAll(inputs, ifaddr).sent, ip.whole)
    ensures ip.reliable && !ip.broken ==> !ip.failed
    ensures ip.broken ==> ip.sent == old(ip.sent)
  {
    hide Receive;
    hide Sent;
    ghost var all, before := ReceiveAll(inputs, ifaddr), ip.sent;
    ghost var done: seq<seq<byte>> := [];
    SentNothing(before, ip.whole);
    var i := 0;
    while i < |inputs|
      invariant i <= |inputs|
      invariant all == Prepend(done, ReceiveAll(inputs[i..], ifaddr))
      invariant Sent(before, ip.sent, done, ip.whole)
      invariant !ip.failed && (ip.broken ==> ip.sent == before)
    {
      ghost var sent := ip.sent;
      ghost var first := Receive(Zeros(BUFFER), inputs[i], ifaddr);
      var conn := new Inbound(inputs[i]);
      var e := HandleConn(conn, ip, ifaddr);
      if e == NfqError {
        return true;
      }
      assert inputs[i..][1..] == inputs[i + 1..];
      SentMore(before, sent, ip.sent, done, first.sent, ip.whole);
      if e == Panic {
        return true;
      }
      done := done + first.sent;
      i := i + 1;
    }
    assert inputs[i..] == [] && done + [] == done;
    panicked := false;
  }

  /** An ordinary packet, to port 443 of 8.8.8.8. */
  function OrdinaryPacket(ifaddr: seq<byte>): seq<byte>
    requires |ifaddr| == 4
  {
    [0x45, 0, 0, 22, 0, 0, 0, 0, 64, 6, 0, 0, ifaddr[0], ifaddr[1], ifaddr[2], ifaddr[3], 8, 8, 8, 8, 1, 187]
  }

  lemma OrdinaryPacketPasses(ifaddr: seq<byte>, buf: seq<byte>)
    requires |ifaddr| == 4 && |buf| == BUFFER
    ensures Receive(buf, OrdinaryPacket(ifaddr), ifaddr) == Received([OrdinaryPacket(ifaddr)], false)
  {
    hide Accepts;
    hide Over;
    hide Passes;
    hide Settled;
    var p := OrdinaryPacket(ifaddr);
    OrdinaryPacketIsSettled(p, ifaddr);
    SettledDecides(p, buf, ifaddr);
    assert p[..22] == p && p[22..] == [];
    assert NextFrame([]) == CutOff;
    assert Receive(Over(p, buf), [], ifaddr) == Received([], false);
  }

  lemma OrdinaryPacketIsSettled(p: seq<byte>, ifaddr: seq<byte>)
    requires |ifaddr| == 4 && p == OrdinaryPacket(ifaddr)
    ensures Settled(p, ifaddr) && Passes(p, ifaddr) && NextFrame(p) == Whole(22)
  {
    hide Addressed;
    hide Settled;
    hide Passes;
    hide NextFrame;
    OrdinaryPacketIsAddressed(ifaddr);
    assert |p| == 22 && p[0] == 0x45 && p[2] == 0 && p[3] == 22 && p[20] == 1 && p[21] == 187;
    To443(p, ifaddr);
  }

  lemma To443(p: seq<byte>, ifaddr: seq<byte>)
    requires |p| == 22 && p[0] == 0x45 && p[2] == 0 && p[3] == 22 && p[20] == 1 && p[21] == 187
    requires Addressed(p, ifaddr)
    ensures Settled(p, ifaddr) && Passes(p, ifaddr) && NextFrame(p) == Whole(22)
  {
    WholeHeader(p, ifaddr);
    hide Addressed;
    hide Settled;
    hide Passes;
  }

  lemma OrdinaryPacketIsAddressed(ifaddr: seq<byte>)
    requires |ifaddr| == 4
    ensures Addressed(OrdinaryPacket(ifaddr), ifaddr)
  {
    var p := OrdinaryPacket(ifaddr);
    assert p[12..16] == ifaddr;
    assert p[16] == 8 && p[17] == 8 && p[18] == 8 && p[19] == 8;
    hide OrdinaryPacket;
    hide Dropped;
    EightsAreFree();
  }

  /** With a socket whose sends fail, one ordinary packet brings the process down. */
  method FailedSendPanics(ifaddr: seq<byte>) returns (panicked: bool)
    requires |ifaddr| == 4
    ensures panicked && !ReceiveAll([OrdinaryPacket(ifaddr)], ifaddr).panicked
  {
    var ip := new IpSocket(true, false, true);
    var inputs := [OrdinaryPacket(ifaddr)];
    OrdinaryPacketPasses(ifaddr, Zeros(BUFFER));
    assert inputs[1..] == [];
    assert ReceiveAll(inputs, ifaddr) == Received([OrdinaryPacket(ifaddr)] + [], false);
    panicked := Proxy(inputs, ip, ifaddr);
  }

  // ---- The enclave side ------------------------------------------------------------------------------

  /** The packet queue of the enclave's firewall: `waiting` arrive in turn, `taken` have. */
  class Queue {
    var waiting: seq<seq<byte>>
    ghost var taken: seq<seq<byte>>
    // how many calls on it have failed
    ghost var failures: nat

    method Recv() returns (r: Option<seq<byte>>)
      requires waiting != []
      modifies this
      ensures failures == old(failures) + if r.None? then 1 else 0
      ensures r.None? ==> waiting == old(waiting) && taken == old(taken)
      ensures r.Some? ==> old(waiting) == [r.value] + waiting && taken == old(taken) + [r.value]
    {
      var fails: bool := *;
      if fails {
        failures := failures + 1;
        return None;
      }
      r := Some(waiting[0]);
      taken := taken + [waiting[0]];
      waiting := waiting[1..];
    }

    method Verdict() returns (ok: bool)
      modifies this`failures
      ensures failures == old(failures) + if ok then 0 else 1
    {
      ok := *;
      failures := failures + if ok then 0 else 1;
    }

    /** A new queue in place of a failed one: what the kernel still held may be lost. */
    method Replace()
      modifies this`waiting
    {
      var lost: nat :| lost <= |waiting|;
      waiting := waiting[lost..];
    }
  }

  /** A vsock connection, its bytes and the packets they were sent for. */
  class Uplink {
    const conn: Outbound
    var packets: seq<seq<byte>>

    constructor ()
      ensures conn.bytes == [] && packets == [] && fresh(conn)
    {
      conn := new Outbound();
      packets := [];
    }

    ghost predicate Aligned()
      reads this, conn
    {
      conn.bytes == Flatten(packets)
    }
  }

  /** `handle_conn` of the enclave side, until an error or until nothing is waiting: an error of the queue
      exactly if a call on it failed, which leaves the stream between two packets, and one of the
      connection exactly if a write failed. */
  method SendPackets(up: Uplink, queue: Queue) returns (e: Option<Exit>)
    requires up.Aligned()
    modifies up, up.conn, queue
    ensures e != Some(Panic) && (e.None? ==> queue.waiting == [])
    ensures queue.failures == old(queue.failures) + if e == Some(NfqError) then 1 else 0
    ensures up.conn.failures == old(up.conn.failures) + if e == Some(VsockError) then 1 else 0
    ensures e != Some(VsockError) ==> up.Aligned()
    ensures up.conn.bytes <= Flatten(up.packets)
    ensures old(up.packets) <= up.packets
    ensures queue.taken == old(queue.taken) + up.packets[|old(up.packets)|..]
  {
    while queue.waiting != []
      invariant up.Aligned() && queue.failures == old(queue.failures) && up.conn.failures == old(up.conn.failures)
      invariant old(up.packets) <= up.packets
      invariant queue.taken == old(queue.taken) + up.packets[|old(up.packets)|..]
      decreases |queue.waiting|
    {
      var msg := queue.Recv();
      if msg.None? {
        return Some(NfqError);
      }
      var ok := SendPacket(up, msg.value);
      if !ok {
        return Some(VsockError);
      }
      ok := queue.Verdict();
      if !ok {
        return Some(NfqError);
      }
    }
    e := None;
  }

  /** The partial-send loop. */
  method SendPacket(up: Uplink, packet: seq<byte>) returns (ok: bool)
    requires up.Aligned()
    modifies up, up.conn
    ensures up.packets == old(up.packets) + [packet]
    ensures up.conn.failures == old(up.conn.failures) + if ok then 0 else 1
    ensures up.conn.bytes <= Flatten(up.packets)
    ensures ok ==> up.Aligned()
  {
    FlattenSnoc(up.packets, packet);
    up.packets := up.packets + [packet];
    ok := WriteAll(up.conn, packet);
  }

  /** What one connection of the enclave side was used for. */
  datatype Use = Use(packets: seq<seq<byte>>, bytes: seq<byte>)

  predicate UsesOk(uses: seq<Use>) {
    forall u :: u in uses ==> u.bytes <= Flatten(u.packets)
  }

  function PacketsOf(uses: seq<Use>): seq<seq<byte>> {
    if uses == [] then [] else PacketsOf(uses[..|uses| - 1]) + uses[|uses| - 1].packets
  }

  /** Since `start`, the packets of `uses` and then those of the current connection were taken. */
  predicate Account(start: seq<seq<byte>>, taken: seq<seq<byte>>, uses: seq<Use>, packets: seq<seq<byte>>) {
    UsesOk(uses) && taken == start + (PacketsOf(uses) + packets)
  }

  lemma AccountMore(start: seq<seq<byte>>, taken: seq<seq<byte>>, uses: seq<Use>,
                    before: seq<seq<byte>>, after: seq<seq<byte>>)
    requires Account(start, taken, uses, before) && before <= after
    ensures Account(start, taken + after[|before|..], uses, after)
  {
    assert after == before + after[|before|..];
  }

  lemma AccountClosed(start: seq<seq<byte>>, taken: seq<seq<byte>>, uses: seq<Use>, u: Use)
    requires Account(start, taken, uses, u.packets) && u.bytes <= Flatten(u.packets)
    ensures Account(start, taken, uses + [u], [])
  {
    assert (uses + [u])[..|uses|] == uses;
  }

  /** `main` of the enclave side, for as many errors as it is watched: every packet taken from the
      queue is sent on exactly one connection, in order, and only the last packet of a connection
      can be cut short. It goes on until nothing is waiting, or all the errors have happened: a new queue
      for each of the queue's, a new connection for each of the connection's. */
  method SendAll(queue: Queue, errors: nat) returns (uses: seq<Use>)
    modifies queue
    ensures UsesOk(uses)
    ensures queue.taken == old(queue.taken) + PacketsOf(uses)
    ensures uses != []
    ensures queue.waiting == [] || queue.failures - old(queue.failures) + |uses| - 1 == errors
  {
    assert Flatten<byte>([]) == [];
    hide Flatten;
    ghost var start := queue.taken;
    uses := [];
    var up := new Uplink();
    assert Account(start, queue.taken, uses, up.packets);
    var left: nat := errors;
    while left > 0
      invariant up.Aligned() && fresh(up) && fresh(up.conn)
      invariant queue.failures - old(queue.failures) + |uses| + left == errors
      invariant Account(start, queue.taken, uses, up.packets)
    {
      hide Account;
      ghost var taken, packets := queue.taken, up.packets;
      var e := SendPackets(up, queue);
      AccountMore(start, taken, uses, packets, up.packets);
      if e.None? {
        break;
      }
      if e.value == NfqError {
        queue.Replace();
      } else {
        AccountClosed(start, queue.taken, uses, Use(up.packets, up.conn.bytes));
        uses := uses + [Use(up.packets, up.conn.bytes)];
        up := new Uplink();
      }
      left := left - 1;
    }
    AccountClosed(start, queue.taken, uses, Use(up.packets, up.conn.bytes));
    uses := uses + [Use(up.packets, up.conn.bytes)];
  }

  // ---- End to end -----------------------------------------------------------------------------------

  /** A packet as long as its Total Length field says. */
  predicate Framed(p: seq<byte>) {
    4 <= |p| <= BUFFER && TotalLength(p) == |p|
  }

  predicate AllGood(ps: seq<seq<byte>>, ifaddr: seq<byte>) {
    forall p :: p in ps ==> Framed(p) && Settled(p, ifaddr)
  }

  /** The packets that lie wholly in the first `n` bytes of their stream. */
  function Delivered(ps: seq<seq<byte>>, n: nat): seq<seq<byte>> {
    if ps == [] || |ps[0]| > n then [] else [ps[0]] + Delivered(ps[1..], n - |ps[0]|)
  }

  function Kept(ps: seq<seq<byte>>, ifaddr: seq<byte>): seq<seq<byte>>
    requires forall p :: p in ps ==> |p| >= 4
  {
    if ps == [] then []
    else (if Passes(ps[0], ifaddr) then [ps[0]] else []) + Kept(ps[1..], ifaddr)
  }

  lemma {:induction false} DeliveredAreAmong(ps: seq<seq<byte>>, n: nat)
    ensures forall p :: p in Delivered(ps, n) ==> p in ps
  {
    if ps != [] && |ps[0]| <= n {
      DeliveredAreAmong(ps[1..], n - |ps[0]|);
    }
  }

  /** A stream that starts with a packet has it as its first frame; one that ends inside it has
      none. */
  lemma FirstFrame(p: seq<byte>, after: seq<byte>, input: seq<byte>)
    requires Framed(p) && input <= p + after
    ensures NextFrame(input) == if |input| < |p| then CutOff else Whole(|p|)
    ensures |input| >= |p| ==> input[..|p|] == p && input[|p|..] <= after
  {
    if |input| >= 4 {
      assert input[2] == (p + after)[2] == p[2] && input[3] == (p + after)[3] == p[3];
    }
    if |input| >= |p| {
      assert input == (p + after)[..|input|];
    }
  }

  /** The host side recovers from a connection's bytes, however they are cut up, the packets
      that came whole, and sends on those that pass. */
  lemma {:induction false} Reframing(ps: seq<seq<byte>>, input: seq<byte>, buf: seq<byte>, ifaddr: seq<byte>)
    requires AllGood(ps, ifaddr) && input <= Flatten(ps) && |buf| == BUFFER
    ensures forall p :: p in Delivered(ps, |input|) ==> |p| >= 4
    ensures Receive(buf, input, ifaddr) == Received(Kept(Delivered(ps, |input|), ifaddr), false)
  {
    assert ps == [] ==> NextFrame(input) == CutOff;
    hide Accepts;
    hide Over;
    hide Passes;
    hide NextFrame;
    hide Settled;
    DeliveredAreAmong(ps, |input|);
    if ps != [] {
      var p, after := ps[0], Flatten(ps[1..]);
      assert Framed(p) && Settled(p, ifaddr);
      FirstFrame(p, after, input);
      if |p| <= |input| {
        SettledDecides(p, buf, ifaddr);
        Reframing(ps[1..], input[|p|..], Over(p, buf), ifaddr);
      }
    }
  }

  /** What the host side was delivered of each connection. */
  predicate DeliveredFrom(inputs: seq<seq<byte>>, uses: seq<Use>) {
    |inputs| == |uses| && forall i :: 0 <= i < |uses| ==> inputs[i] <= uses[i].bytes
  }

  /** The packets that came whole on some connection, in order. */
  function AllDelivered(inputs: seq<seq<byte>>, uses: seq<Use>): seq<seq<byte>>
    requires |inputs| == |uses|
  {
    if uses == [] then []
    else Delivered(uses[0].packets, |inputs[0]|) + AllDelivered(inputs[1..], uses[1..])
  }

  lemma {:induction false} KeptAppend(ps: seq<seq<byte>>, qs: seq<seq<byte>>, ifaddr: seq<byte>)
    requires forall p :: p in ps + qs ==> |p| >= 4
    ensures Kept(ps + qs, ifaddr) == Kept(ps, ifaddr) + Kept(qs, ifaddr)
  {
    if ps == [] {
      assert ps + qs == qs;
    } else {
      assert (ps + qs)[1..] == ps[1..] + qs;
      KeptAppend(ps[1..], qs, ifaddr);
    }
  }

  /** From queue to raw socket: for any packets, any cuts and any reconnects, what is sent is what
      came whole on some connection, in order, filtered by each packet's own bytes. */
  lemma {:induction false} EndToEnd(inputs: seq<seq<byte>>, uses: seq<Use>, ifaddr: seq<byte>)
    requires UsesOk(uses) && DeliveredFrom(inputs, uses)
    requires forall u :: u in uses ==> AllGood(u.packets, ifaddr)
    ensures forall p :: p in AllDelivered(inputs, uses) ==> |p| >= 4
    ensures ReceiveAll(inputs, ifaddr) == Received(Kept(AllDelivered(inputs, uses), ifaddr), false)
  {
    hide Receive;
    hide AllGood;
    hide Delivered;
    if uses != [] {
      var u := uses[0];
      assert inputs[0] <= u.bytes <= Flatten(u.packets);
      Reframing(u.packets, inputs[0], Zeros(BUFFER), ifaddr);
      forall i | 0 <= i < |uses| - 1 ensures inputs[1..][i] <= uses[1..][i].bytes {
        assert inputs[i + 1] <= uses[i + 1].bytes;
      }
      EndToEnd(inputs[1..], uses[1..], ifaddr);
      KeptAppend(Delivered(u.packets, |inputs[0]|), AllDelivered(inputs[1..], uses[1..]), ifaddr);
    }
  }
}
