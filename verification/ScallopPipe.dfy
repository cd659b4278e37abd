/** Two Scallop streams joined by a pair of links, under every interleaving of their calls. */
module ScallopPipe {
  import opened Bytes
  import opened NoiseCipher
  import opened ScallopWire
  import opened ScallopStream
  import Handshake

  /** `r` reads what `w` writes: all `w` sent is on the link, `r` consumed what was taken off it. */
  ghost predicate Carries(w: ScallopStream, r: ScallopStream)
    reads w, w.wbuf, r, r.rbuf, w.tx
  {
    && w.tx == r.rx
    && w.sendCipher == r.recvCipher
    && w.sendBase == r.recvBase
    && w.WriteSide()
    && r.ReadSide()
    && w.tx.Valid()
    && w.sent == w.tx.bytes
    && r.consumed == w.tx.bytes[..w.tx.taken]
  }

  ghost predicate Linked(a: ScallopStream, b: ScallopStream)
    reads a, a.wbuf, a.rbuf, b, b.wbuf, b.rbuf, a.tx, b.tx
  {
    && a != b
    && a.tx != b.tx
    && {a.rbuf, a.wbuf} !! {b.rbuf, b.wbuf}
    && a.rbuf != a.wbuf
    && b.rbuf != b.wbuf
    && Carries(a, b)
    && Carries(b, a)
  }

  /** What a reader handed out is a prefix of what the other end's `poll_write` accepted. */
  lemma PipeSafe(w: ScallopStream, r: ScallopStream)
    requires Carries(w, r)
    ensures r.delivered <= Flatten(w.accepted)
    ensures r.records <= w.accepted
  {
    DeliveredIsPrefix(w.sendCipher, w.WriterView(), r.ReaderView());
  }

  /** When the writer has flushed, the link is empty and the reader waits for more, the reader
      handed out everything that was accepted. */
  lemma PipeDrains(w: ScallopStream, r: ScallopStream)
    requires Carries(w, r)
    requires w.writeStart == w.writeEnd && w.tx.taken == |w.tx.bytes| && Starved(r.ReaderView())
    ensures r.delivered == Flatten(w.accepted)
  {
    DrainedMeansDelivered(w.sendCipher, w.WriterView(), r.ReaderView());
  }

  /** A reader on an intact link never gets stuck on a record, short of an exhausted counter. */
  lemma NeverStuck(w: ScallopStream, r: ScallopStream)
    requires Carries(w, r) && r.Stuck()
    ensures r.recvNonce >= MAX_NONCE
  {
    assert r.ReaderView().phase.have == r.rbuf[..];
    IntactBodyDecrypts(w.sendCipher, w.WriterView(), r.ReaderView());
  }

  datatype Op = Write(buf: seq<byte>) | Flush | Read(room: nat) | Shutdown

  /** One call on the write side of `s`, the other end being `peer`: it waits exactly if a call of the link
      does, and fails only because one did, or a write with the last counter used up. */
  method CallWriter(s: ScallopStream, peer: ScallopStream, op: Op) returns (r: Poll<()>)
    requires Linked(s, peer) && !op.Read?
    modifies s, s.tx
    ensures Linked(s, peer)
    ensures s.rbuf == old(s.rbuf) && (s.wbuf == old(s.wbuf) || fresh(s.wbuf))
    ensures r.Pending? <==> EndedWith(old(s.tx.writeLog), s.tx.writeLog, Pended)
    ensures r.Failed? <==>
      || EndedWith(old(s.tx.writeLog), s.tx.writeLog, Errored)
      || (op.Write? && EndedWith(old(s.tx.writeLog), s.tx.writeLog, Flushed) && old(s.sendNonce) >= MAX_NONCE)
    ensures s.accepted ==
      if r.Ready? && op.Write? then old(s.accepted) + [op.buf[..if |op.buf| < 64000 then |op.buf| else 64000]]
      else old(s.accepted)
    ensures r.Ready? && !op.Write? ==> s.writeStart == s.writeEnd && s.sent == Wire(s.outFrames)
    ensures r.Ready? && op.Shutdown? ==> s.tx.closed
  {
    hide ScallopStream.ReadSide;
    hide ScallopStream.WriteSide;
    hide EndedWith;
    match op {
      case Write(buf) =>
        var written := s.PollWrite(buf);
        r := match written case Pending => Pending case Failed => Failed case Ready(_) => Ready(());
      case Flush => r := s.PollFlush();
      case Shutdown => r := s.PollShutdown();
    }
    if s.writeStart == s.writeEnd {
      FlushedIsSent(s);
    }
  }

  lemma FlushedIsSent(s: ScallopStream)
    requires s.WriteSide() && s.writeStart == s.writeEnd
    ensures s.sent == Wire(s.outFrames)
  {
  }

  /** A read of `s`; it fails only because the link did, or with the last counter used up. */
  method CallReader(s: ScallopStream, peer: ScallopStream, room: nat) returns (r: Poll<seq<byte>>)
    requires Linked(s, peer)
    modifies s, s.rbuf, s.rx
    ensures Linked(s, peer)
    ensures s.wbuf == old(s.wbuf) && (s.rbuf == old(s.rbuf) || fresh(s.rbuf))
    ensures r.Pending? <==> EndedWith(old(s.rx.readLog), s.rx.readLog, Pended)
    ensures r.Failed? ==> EndedWith(old(s.rx.readLog), s.rx.readLog, Errored) || s.recvNonce >= MAX_NONCE
  {
    hide ScallopStream.ReadSide;
    hide ScallopStream.WriteSide;
    hide EndedWith;
    r := s.PollRead(room);
    if r.Failed? && !EndedWith(old(s.rx.readLog), s.rx.readLog, Errored) {
      NeverStuck(peer, s);
    }
  }

  /** Whatever the two ends call, in whatever order, each hands out a prefix of what the other
      accepted. `true` in the script is a call on `a`. */
  method Run(a: ScallopStream, b: ScallopStream, script: seq<(bool, Op)>)
    requires Linked(a, b)
    modifies a, a.rbuf, b, b.rbuf, a.tx, b.tx
    ensures Linked(a, b)
    ensures b.delivered <= Flatten(a.accepted)
    ensures a.delivered <= Flatten(b.accepted)
    ensures a.writeStart == a.writeEnd && a.tx.taken == |a.tx.bytes| && Starved(b.ReaderView()) ==>
      b.delivered == Flatten(a.accepted)
    ensures b.writeStart == b.writeEnd && b.tx.taken == |b.tx.bytes| && Starved(a.ReaderView()) ==>
      a.delivered == Flatten(b.accepted)
  {
    hide WriterOk;
    hide ReaderOk;
    for i := 0 to |script|
      invariant Linked(a, b)
      invariant a.rbuf == old(a.rbuf) || fresh(a.rbuf)
      invariant b.rbuf == old(b.rbuf) || fresh(b.rbuf)
    {
      var (onA, op) := script[i];
      var s, peer := if onA then a else b, if onA then b else a;
      match op {
        case Read(room) => var _ := CallReader(s, peer, room);
        case _ => var _ := CallWriter(s, peer, op);
      }
    }
    PipeSafe(a, b);
    PipeSafe(b, a);
    if a.writeStart == a.writeEnd && a.tx.taken == |a.tx.bytes| && Starved(b.ReaderView()) {
      PipeDrains(a, b);
    }
    if b.writeStart == b.writeEnd && b.tx.taken == |b.tx.bytes| && Starved(a.ReaderView()) {
      PipeDrains(b, a);
    }
  }

  /** Two fresh ends over two fresh links, with counters that match, are linked. */
  method Join(toServer: Cipher, toClient: Cipher, serverward: nat, clientward: nat)
    returns (client: ScallopStream, server: ScallopStream)
    ensures fresh(client) && fresh(server) && Linked(client, server)
    ensures client.accepted == server.accepted == []
    ensures client.sendNonce == server.recvNonce == serverward && server.sendNonce == client.recvNonce == clientward
  {
    hide ScallopStream.ReadSide;
    hide ScallopStream.WriteSide;
    var ab := new Link();
    var ba := new Link();
    client := new ScallopStream(toServer, toClient, serverward, clientward, ba, ab);
    server := new ScallopStream(toClient, toServer, clientward, serverward, ab, ba);
  }

  predicate BothOk(g: Handshake.State) {
    g.client.stage == Handshake.Finished(Handshake.Success) && g.server.stage == Handshake.Finished(Handshake.Success)
  }

  lemma CountersMatch(cfg: Handshake.Config, schedule: seq<bool>)
    requires BothOk(Handshake.Run(cfg, schedule))
    ensures var g := Handshake.Run(cfg, schedule); g.client.sendN == g.server.recvN && g.server.sendN == g.client.recvN
  {
    Handshake.Agreement(cfg, schedule);
  }

  /** The two streams that a handshake leaves on which both ends succeed: each end's counters are where
      the other's are, and the streams over them are linked. */
  method Connect(cfg: Handshake.Config, schedule: seq<bool>, toServer: Cipher, toClient: Cipher)
    returns (client: ScallopStream, server: ScallopStream)
    requires BothOk(Handshake.Run(cfg, schedule))
    ensures fresh(client) && fresh(server) && Linked(client, server)
    ensures client.accepted == server.accepted == []
    ensures var g := Handshake.Run(cfg, schedule);
      && client.sendNonce == g.client.sendN && client.recvNonce == g.client.recvN
      && server.sendNonce == g.server.sendN && server.recvNonce == g.server.recvN
  {
    hide Linked;
    CountersMatch(cfg, schedule);
    hide Handshake.Run;
    var g := Handshake.Run(cfg, schedule);
    client, server := Join(toServer, toClient, g.client.sendN, g.client.recvN);
  }
}
