/** The last two handshake messages at the level of bytes: how CLIENTFIN and SERVERFIN are put
    together in fixed buffers, encrypted, sent, read into fixed buffers and checked. It justifies
    what `Handshake` assumes of whole packets: their size and which buffers can hold them. */
module HandshakeBuffers {
  import opened Bytes
  import opened ByteStream
  import opened NoiseCipher
  import Handshake

  const SMALL := Handshake.SMALL_BUFFER
  const LARGE := Handshake.LARGE_BUFFER

  /** A Noise message as it goes over the wire. */
  function OnWire(c: Cipher, n: nat, m: seq<byte>): seq<byte>
    requires |m| + TAG <= MAX_MESSAGE
  {
    U16(|m| + TAG) + c.enc(n, m)
  }

  /** What reading a message of the peer can come to. */
  datatype Incoming = Got(payload: seq<byte>) | Failed(outcome: Handshake.Outcome)

  /** `noise_read` on the bytes still to come, with buffers of `room` bytes: a message longer than
      the buffer is an out-of-range slice, a cut stream or a failed decryption an error. */
  function NextMessage(c: Cipher, n: nat, input: seq<byte>, room: nat): Incoming {
    if |input| < 2 then Failed(Handshake.Failure(Handshake.TransportError))
    else
      var len := FromU16(input[0], input[1]);
      if len > room then Failed(Handshake.Panic)
      else if |input| < 2 + len then Failed(Handshake.Failure(Handshake.TransportError))
      else
        match Read(c, n, input[2..2 + len], room)
        case Err(_) => Failed(Handshake.Failure(Handshake.NoiseError))
        case Ok(p) => Got(p)
  }

  /** What a reader makes of the bytes to come, by what they are: cut off in the length or in the message,
      longer than the buffer, not decrypting, or the payload. */
  lemma IncomingExactly(c: Cipher, n: nat, input: seq<byte>, room: nat)
    ensures var r := NextMessage(c, n, input, room);
      if |input| < 2 then r == Failed(Handshake.Failure(Handshake.TransportError))
      else
        var len := FromU16(input[0], input[1]);
        && (r == Failed(Handshake.Panic) <==> len > room)
        && (r == Failed(Handshake.Failure(Handshake.TransportError)) <==> len <= room && |input| - 2 < len)
        && (r == Failed(Handshake.Failure(Handshake.NoiseError))
            <==> len <= room && |input| - 2 >= len && (n >= MAX_NONCE || c.dec(n, input[2..][..len]).None?))
        && (r.Got? <==> len <= room && |input| - 2 >= len && n < MAX_NONCE && c.dec(n, input[2..][..len]).Some?)
        && (r.Got? ==> c.dec(n, input[2..][..len]) == Some(r.payload))
  {
    if |input| >= 2 && |input| - 2 >= FromU16(input[0], input[1]) {
      assert input[2..][..FromU16(input[0], input[1])] == input[2..2 + FromU16(input[0], input[1])];
    }
  }

  /** `noise_write`: encrypt `src` into `dst`, put the length before it, send both. */
  method NoiseWrite(c: Cipher, n: nat, out: Outbound, src: seq<byte>, dst: array<byte>) returns (ok: bool)
    requires dst.Length >= 2
    modifies out, dst
    ensures ok <==> |src| + TAG <= MAX_MESSAGE && |src| + TAG <= dst.Length - 2 && n < MAX_NONCE
                    && out.failures == old(out.failures)
    ensures ok ==> out.bytes == old(out.bytes) + OnWire(c, n, src)
    ensures old(out.bytes) <= out.bytes && out.failures >= old(out.failures)
  {
    var res := NoiseCipher.Write(c, n, src, dst.Length - 2);
    if res.Err? {
      return false;
    }
    var len := |res.value|;
    forall i | 0 <= i < len {
      dst[2 + i] := res.value[i];
    }
    var prefix := U16(len % 0x1_0000);
    dst[0], dst[1] := prefix[0], prefix[1];
    assert dst[..len + 2] == OnWire(c, n, src);
    ok := WriteAll(out, dst[..len + 2]);
  }

  /** `noise_read`: the payload lands at the start of `dst`. */
  method NoiseRead(c: Cipher, n: nat, conn: Inbound, src: array<byte>, dst: array<byte>) returns (r: Incoming)
    requires src != dst && src.Length == dst.Length
    modifies conn, src, dst
    ensures r == NextMessage(c, n, old(conn.pending), src.Length)
    ensures r.Got? ==> |r.payload| <= dst.Length && dst[..|r.payload|] == r.payload
    ensures r.Got? ==> conn.pending == old(conn.pending)[2 + |r.payload| + TAG..]
  {
    ghost var input := conn.pending;
    var head := new byte[2](_ => 0);
    var ok := ReadExact(conn, head, 0, 2);
    if !ok {
      return Failed(Handshake.Failure(Handshake.TransportError));
    }
    assert head[..] == input[..2];
    var len := FromU16(head[0], head[1]);
    assert len == FromU16(input[0], input[1]) by { assert head[0] == head[..][0] && head[1] == head[..][1]; }
    if len > src.Length {
      return Failed(Handshake.Panic);
    }
    ok := ReadExact(conn, src, 0, len);
    if !ok {
      return Failed(Handshake.Failure(Handshake.TransportError));
    }
    assert src[..len] == input[2..2 + len];
    var res := NoiseCipher.Read(c, n, src[..len], dst.Length);
    if res.Err? {
      return Failed(Handshake.Failure(Handshake.NoiseError));
    }
    var p := res.value;
    forall i | 0 <= i < |p| {
      dst[i] := p[i];
    }
    r := Got(p);
  }

  // ---- CLIENTFIN and SERVERFIN ---------------------------------------------------------------------

  /** `send_CLIENTFIN` with the buffers its caller picks: 1024 bytes without an attestation, 65000
      with one, which must not be longer than 60000. */
  method SendClientFin(c: Cipher, n: nat, out: Outbound, auth: Option<seq<byte>>, ask: bool) returns (ok: bool)
    modifies out
    ensures ok ==>
      var payload := if auth.Some? then auth.value else [];
      && |payload| <= Handshake.MAX_AUTH
      && out.bytes == old(out.bytes) + OnWire(c, n, Handshake.Fin(Handshake.Flag(ask), payload))
    ensures auth.Some? && |auth.value| > Handshake.MAX_AUTH ==> !ok && out.bytes == old(out.bytes)
    ensures ok <==> (auth.Some? ==> |auth.value| <= Handshake.MAX_AUTH) && n < MAX_NONCE
                    && out.failures == old(out.failures)
  {
    hide OnWire;
    if auth.Some? && |auth.value| > Handshake.MAX_AUTH {
      return false;
    }
    var payload := if auth.Some? then auth.value else [];
    var size := if auth.Some? then LARGE else SMALL;
    var buf := new byte[size](_ => 0);
    var noiseBuf := new byte[size](_ => 0);
    noiseBuf[0] := if ask then 1 else 0;
    Assemble(noiseBuf, 1, payload);
    assert noiseBuf[..|payload| + 3] == Handshake.Fin(Handshake.Flag(ask), payload);
    ok := NoiseWrite(c, n, out, noiseBuf[..|payload| + 3], buf);
  }

  method SendServerFin(c: Cipher, n: nat, out: Outbound, payload: seq<byte>) returns (ok: bool)
    modifies out
    ensures ok ==>
      && |payload| <= Handshake.MAX_AUTH
      && out.bytes == old(out.bytes) + OnWire(c, n, Handshake.Fin([], payload))
    ensures |payload| > Handshake.MAX_AUTH ==> !ok && out.bytes == old(out.bytes)
    ensures ok <==> |payload| <= Handshake.MAX_AUTH && n < MAX_NONCE && out.failures == old(out.failures)
  {
    hide OnWire;
    if |payload| > Handshake.MAX_AUTH {
      return false;
    }
    var buf := new byte[LARGE](_ => 0);
    var noiseBuf := new byte[LARGE](_ => 0);
    Assemble(noiseBuf, 0, payload);
    assert noiseBuf[..|payload| + 2] == Handshake.Fin([], payload);
    ok := NoiseWrite(c, n, out, noiseBuf[..|payload| + 2], buf);
  }

  /** The size and the payload, written after `head` bytes that stay. */
  method Assemble(noiseBuf: array<byte>, head: nat, payload: seq<byte>)
    requires head + 2 + |payload| <= noiseBuf.Length && |payload| <= Handshake.MAX_AUTH
    modifies noiseBuf
    ensures noiseBuf[..head + 2 + |payload|] == old(noiseBuf[..head]) + U16(|payload|) + payload
  {
    var size := U16(|payload| % 0x1_0000);
    noiseBuf[head], noiseBuf[head + 1] := size[0], size[1];
    forall i | 0 <= i < |payload| {
      noiseBuf[head + 2 + i] := payload[i];
    }
  }

  /** What the reader of a FIN with `head` leading bytes and buffers of `room` bytes makes of the
      bytes to come: the leading bytes and the payload, together, or why not. */
  function NextFin(c: Cipher, n: nat, input: seq<byte>, room: nat, head: nat): Incoming {
    match NextMessage(c, n, input, room)
    case Failed(o) => Failed(o)
    case Got(m) =>
      match Handshake.FinPayload(m, head)
      case None => Failed(Handshake.Failure(Handshake.ProtocolError))
      case Some(payload) => Got(m[..head] + payload)
  }

  /** Reading CLIENTFIN (`head` 1, 1024 bytes) or SERVERFIN (`head` 0, 65000 bytes): the checks of
      length and size field on the buffer. */
  method ReadFin(c: Cipher, n: nat, conn: Inbound, room: nat, head: nat) returns (r: Incoming)
    requires room >= head + 2
    modifies conn
    ensures r == NextFin(c, n, old(conn.pending), room, head)
  {
    hide NextMessage;
    var buf := new byte[room](_ => 0);
    var noiseBuf := new byte[room](_ => 0);
    var m := NoiseRead(c, n, conn, buf, noiseBuf);
    match m
    case Failed(o) =>
      r := Failed(o);
    case Got(message) =>
      var len := |message|;
      assert forall i :: 0 <= i < len ==> noiseBuf[i] == noiseBuf[..len][i] == message[i];
      if len < head + 2 {
        return Failed(Handshake.Failure(Handshake.ProtocolError));
      }
      if FromU16(noiseBuf[head], noiseBuf[head + 1]) != len - (head + 2) {
        return Failed(Handshake.Failure(Handshake.ProtocolError));
      }
      assert noiseBuf[..head] == message[..head] && noiseBuf[head + 2..len] == message[head + 2..];
      r := Got(noiseBuf[..head] + noiseBuf[head + 2..len]);
  }

  /** What one end sends, the other reads as sent, exactly when message, tag and framing fit the
      reader's buffer; otherwise the reader panics. */
  lemma FinCrosses(c: Cipher, n: nat, head: seq<byte>, payload: seq<byte>, rest: seq<byte>, room: nat)
    requires |head| <= 1 && |payload| <= Handshake.MAX_AUTH && n < MAX_NONCE
    ensures NextFin(c, n, OnWire(c, n, Handshake.Fin(head, payload)) + rest, room, |head|)
         == if |head| + 2 + |payload| + TAG <= room then Got(head + payload) else Failed(Handshake.Panic)
  {
    var m := Handshake.Fin(head, payload);
    var sealed := c.enc(n, m);
    var input := OnWire(c, n, m) + rest;
    assert |sealed| == |m| + TAG && c.dec(n, sealed) == Some(m);
    assert input[..2] == U16(|m| + TAG);
    U16RoundTrip(|m| + TAG);
    if |m| + TAG <= room {
      assert input[2..2 + |m| + TAG] == sealed;
      Handshake.FinRoundTrip(head, payload);
      assert m[..|head|] == head;
    }
  }

  /** So the server, whose buffers hold 1024 bytes, reads CLIENTFIN exactly up to 1005 bytes of
      attestation, and the client reads every SERVERFIN that the server may send. */
  lemma FinLimits(c: Cipher, n: nat, ask: bool, payload: seq<byte>, rest: seq<byte>)
    requires |payload| <= Handshake.MAX_AUTH && n < MAX_NONCE
    ensures NextFin(c, n, OnWire(c, n, Handshake.Fin(Handshake.Flag(ask), payload)) + rest, SMALL, 1)
         == if |payload| <= 1005 then Got(Handshake.Flag(ask) + payload) else Failed(Handshake.Panic)
    ensures NextFin(c, n, OnWire(c, n, Handshake.Fin([], payload)) + rest, LARGE, 0) == Got(payload)
  {
    FinCrosses(c, n, Handshake.Flag(ask), payload, rest, SMALL);
    FinCrosses(c, n, [], payload, rest, LARGE);
    assert [] + payload == payload;
  }

  /** The packet model's size is the size on the wire, without the length. */
  lemma WireSizeIsExact(c: Cipher, n: nat, payload: seq<byte>)
    requires |payload| + TAG <= MAX_MESSAGE
    ensures |OnWire(c, n, payload)| == 2 + Handshake.WireSize(Handshake.Message(Handshake.Transport(n), payload))
  {
    var sealed := c.enc(n, payload);
  }
}
