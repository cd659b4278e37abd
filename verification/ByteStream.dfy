/** Blocking byte streams: exact reads and whole writes over connections that move any number of
    bytes at a time and may break. */
module ByteStream {
  import opened Bytes

  /** A connection and the bytes it has yet to deliver; after them, reads fail. */
  class Inbound {
    var pending: seq<byte>

    constructor (input: seq<byte>)
      ensures pending == input
    {
      pending := input;
    }

    /** One `read`: any positive number of bytes that are there and fit, or 0 at the end. */
    method Read(buf: array<byte>, from: nat, end: nat) returns (n: nat)
      requires from < end <= buf.Length
      modifies this, buf
      ensures n <= end - from && n <= |old(pending)| && (n == 0 <==> old(pending) == [])
      ensures pending == old(pending)[n..]
      ensures buf[..] == old(buf[..])[..from] + old(pending)[..n] + old(buf[..])[from + n..]
    {
      if pending == [] {
        n := 0;
        assert buf[..] == buf[..][..from] + buf[..][from..];
        return;
      }
      n :| 1 <= n <= end - from && n <= |pending|;
      forall i | from <= i < from + n {
        buf[i] := pending[i - from];
      }
      pending := pending[n..];
    }
  }

  /** `read_exact`: all of the range, or an error. */
  method ReadExact(conn: Inbound, buf: array<byte>, from: nat, end: nat) returns (ok: bool)
    requires from <= end <= buf.Length
    modifies conn, buf
    ensures ok <==> |old(conn.pending)| >= end - from
    ensures ok ==> conn.pending == old(conn.pending)[end - from..]
    ensures ok ==> buf[..] == old(buf[..])[..from] + old(conn.pending)[..end - from] + old(buf[..])[end..]
  {
    ghost var input, before := conn.pending, buf[..];
    var at := from;
    assert buf[..] == before[..from] + input[..0] + before[from..];
    while at < end
      invariant from <= at <= end && at - from <= |input|
      invariant conn.pending == input[at - from..]
      invariant buf[..] == before[..from] + input[..at - from] + before[at..]
    {
      ghost var now := buf[..];
      var n := conn.Read(buf, at, end);
      if n == 0 {
        return false;
      }
      assert now[..at] == before[..from] + input[..at - from];
      assert now[at + n..] == before[at + n..];
      assert input[..at + n - from] == input[..at - from] + input[at - from..][..n];
      at := at + n;
    }
    ok := true;
  }

  /** The sending end of a connection. */
  class Outbound {
    var bytes: seq<byte>
    // how many writes have failed
    ghost var failures: nat

    constructor ()
      ensures bytes == [] && failures == 0
    {
      bytes, failures := [], 0;
    }

    /** One `write`: a positive number of bytes from the front, or an error. */
    method Write(data: seq<byte>) returns (r: Option<nat>)
      requires data != []
      modifies this
      ensures failures == old(failures) + if r.None? then 1 else 0
      ensures r.None? ==> bytes == old(bytes)
      ensures r.Some? ==> 1 <= r.value <= |data| && bytes == old(bytes) + data[..r.value]
    {
      var fails: bool := *;
      if fails {
        failures := failures + 1;
        return None;
      }
      var n :| 1 <= n <= |data|;
      bytes := bytes + data[..n];
      r := Some(n);
    }
  }

  /** Writing until everything is written: all of it, or a prefix and an error if a write failed. */
  method WriteAll(conn: Outbound, data: seq<byte>) returns (ok: bool)
    modifies conn
    ensures conn.failures == old(conn.failures) + if ok then 0 else 1
    ensures ok ==> conn.bytes == old(conn.bytes) + data
    ensures old(conn.bytes) <= conn.bytes <= old(conn.bytes) + data
  {
    var sent := 0;
    while sent < |data|
      invariant sent <= |data| && conn.failures == old(conn.failures)
      invariant conn.bytes == old(conn.bytes) + data[..sent]
    {
      var r := conn.Write(data[sent..]);
      if r.None? {
        assert old(conn.bytes) + data == old(conn.bytes) + data[..sent] + data[sent..];
        return false;
      }
      assert data[..sent + r.value] == data[..sent] + data[sent..][..r.value];
      sent := sent + r.value;
    }
    assert data[..sent] == data;
    ok := true;
  }
}
