/** The polled Scallop stream itself, over a base stream that may answer Pending, fail, or move
    any number of bytes at a time, and the run of two ends over one link. */
module ScallopStream {
  import opened Bytes
  import opened NoiseCipher
  import opened ScallopWire

  datatype Poll<+T> = Pending | Ready(value: T) | Failed

  datatype ReadMode = LengthMode | BodyMode | ReadMode

  /** How a call of the base ended: nothing yet, an error, bytes moved, the end of a closed link, all
      flushed, or shut down. */
  datatype Answer = Pended | Errored | Moved | Ended | Flushed | ShutDown

  /** Of the base calls that took the answers from `before` to `now` the last ended with `a`; none was made
      after an answer that ends the call. */
  predicate EndedWith(before: seq<Answer>, now: seq<Answer>, a: Answer) {
    before < now && now[|now| - 1] == a && WentOn(before, now[..|now| - 1])
  }

  /** All base calls since `before` moved bytes or flushed. */
  predicate WentOn(before: seq<Answer>, now: seq<Answer>) {
    before <= now && forall i :: |before| <= i < |now| ==> now[i] == Moved || now[i] == Flushed
  }

  lemma OneMore(before: seq<Answer>, now: seq<Answer>, a: Answer)
    requires WentOn(before, now)
    ensures EndedWith(before, now + [a], a)
    ensures a == Moved || a == Flushed ==> WentOn(before, now + [a])
    ensures a != Moved && a != Flushed ==> !WentOn(before, now + [a])
  {
    assert (now + [a])[..|now|] == now;
    assert (now + [a])[|now|] == a;
  }

  /** One direction of the base stream: the bytes ever written to it, of which the first `taken`
      were read, and how every call on it ended. How much a call moves, and whether it moves anything,
      is left open, except that a call that is Ready moves at least one byte or is at the end of a
      closed link. */
  class Link {
    var bytes: seq<byte>
    var taken: nat
    var closed: bool
    ghost var readLog: seq<Answer>
    ghost var writeLog: seq<Answer>

    constructor ()
      ensures bytes == [] && taken == 0 && !closed
    {
      bytes, taken, closed, readLog, writeLog := [], 0, false, [], [];
    }

    ghost predicate Valid() reads this { taken <= |bytes| }

    method PollRead(room: nat) returns (r: Poll<seq<byte>>)
      requires Valid() && room > 0
      modifies this`taken, this`readLog
      ensures Valid()
      ensures readLog == old(readLog) + [match r
                                     case Pending => Pended
                                     case Failed => Errored
                                     case Ready(got) => if got == [] then Ended else Moved]
      ensures r.Ready? ==>
        && taken == old(taken) + |r.value| && |r.value| <= room
        && r.value == bytes[old(taken)..taken]
        && (r.value == [] ==> closed && taken == |bytes|)
      ensures !r.Ready? ==> taken == old(taken)
    {
      if {
        case true =>
          r, readLog := Pending, readLog + [Pended];
        case true =>
          r, readLog := Failed, readLog + [Errored];
        case closed && taken == |bytes| =>
          r, readLog := Ready([]), readLog + [Ended];
        case taken < |bytes| =>
          var k: nat :| 1 <= k <= room && taken + k <= |bytes|;
          r, readLog := Ready(bytes[taken..taken + k]), readLog + [Moved];
          taken := taken + k;
      }
    }

    method PollWrite(data: seq<byte>) returns (r: Poll<nat>)
      requires Valid() && data != []
      modifies this`bytes, this`writeLog
      ensures Valid()
      ensures writeLog == old(writeLog) + [match r case Pending => Pended case Failed => Errored case Ready(_) => Moved]
      ensures r.Ready? ==> 1 <= r.value <= |data| && bytes == old(bytes) + data[..r.value]
      ensures !r.Ready? ==> bytes == old(bytes)
    {
      if {
        case true =>
          r, writeLog := Pending, writeLog + [Pended];
        case true =>
          r, writeLog := Failed, writeLog + [Errored];
        case true =>
          var k: nat :| 1 <= k <= |data|;
          r, bytes, writeLog := Ready(k), bytes + data[..k], writeLog + [Moved];
      }
    }

    method PollFlush() returns (r: Poll<()>)
      modifies this`writeLog
      ensures writeLog == old(writeLog)
                          + [match r case Pending => Pended case Failed => Errored case Ready(_) => Flushed]
    {
      if {
        case true =>
          r, writeLog := Pending, writeLog + [Pended];
        case true =>
          r, writeLog := Failed, writeLog + [Errored];
        case true =>
          r, writeLog := Ready(()), writeLog + [Flushed];
      }
    }

    method PollShutdown() returns (r: Poll<()>)
      modifies this`closed, this`writeLog
      ensures writeLog == old(writeLog)
                          + [match r case Pending => Pended case Failed => Errored case Ready(_) => ShutDown]
      ensures closed == (old(closed) || r.Ready?)
    {
      if {
        case true =>
          r, writeLog := Pending, writeLog + [Pended];
        case true =>
          r, writeLog := Failed, writeLog + [Errored];
        case true =>
          r, closed, writeLog := Ready(()), true, writeLog + [ShutDown];
      }
    }
  }

  /** The modes come in this order before bytes are handed out. */
  function Rank(m: ReadMode): nat {
    match m case LengthMode => 2 case BodyMode => 1 case ReadMode => 0
  }

  class ScallopStream {
    const sendCipher: Cipher
    const recvCipher: Cipher
    const rx: Link
    const tx: Link
    // the counters the handshake has already used
    const sendBase: nat
    const recvBase: nat
    var sendNonce: nat
    var recvNonce: nat

    // the record being read, encrypted up to Decrypt and decrypted after it
    var rbuf: array<byte>
    var pending: nat
    var mode: ReadMode
    var readEnd: nat
    var readStart: nat

    // the one record on its way out
    var wbuf: array<byte>
    var writeStart: nat
    var writeEnd: nat

    // what was read, decrypted and handed out, and what was accepted and sent, so far
    ghost var frames: seq<Frame>
    ghost var records: seq<seq<byte>>
    ghost var consumed: seq<byte>
    ghost var delivered: seq<byte>
    ghost var accepted: seq<seq<byte>>
    ghost var outFrames: seq<Frame>
    ghost var sent: seq<byte>

    ghost function PhaseView(): Phase
      requires pending <= rbuf.Length
      reads this`pending, this`mode, this`rbuf, this`readStart, rbuf
    {
      match mode
      case LengthMode => Length(rbuf[..rbuf.Length - pending])
      case BodyMode => Body(rbuf.Length, rbuf[..rbuf.Length - pending])
      case ReadMode => Reading(readStart)
    }

    ghost function ReaderView(): Reader
      requires pending <= rbuf.Length
      reads this`pending, this`mode, this`rbuf, this`readStart, this`frames, this`records
      reads this`consumed, this`delivered, rbuf
    {
      Reader(recvBase, frames, records, consumed, delivered, PhaseView())
    }

    ghost function WriterView(): Writer
      requires writeStart <= writeEnd <= wbuf.Length
      reads this`wbuf, this`writeStart, this`writeEnd, this`accepted, this`outFrames, this`sent, wbuf
    {
      Writer(sendBase, accepted, outFrames, sent, wbuf[writeStart..writeEnd])
    }

    ghost predicate ReadSide()
      reads this`pending, this`mode, this`rbuf, this`readStart, this`frames, this`records
      reads this`consumed, this`delivered, this`readEnd, this`recvNonce, rbuf
    {
      && pending <= rbuf.Length
      && recvNonce == recvBase + |records| && |records| == |frames|
      && (mode == LengthMode ==> rbuf.Length == 2)
      && (mode == ReadMode ==> pending == 0 && readStart <= readEnd <= rbuf.Length
                               && (readStart == 0 || readStart < readEnd)
                               && records != [] && rbuf[..readEnd] == records[|records| - 1])
      && ReaderOk(recvCipher, ReaderView())
    }

    ghost predicate WriteSide()
      reads this`wbuf, this`writeStart, this`writeEnd, this`accepted, this`outFrames, this`sent, this`sendNonce, wbuf
    {
      && writeStart <= writeEnd <= wbuf.Length
      && sendNonce == sendBase + |accepted|
      && WriterOk(sendCipher, WriterView())
    }

    ghost predicate Valid()
      reads this, rbuf, wbuf
    {
      && rbuf != wbuf
      && rx != tx
      && ReadSide()
      && WriteSide()
    }

    /** The state in which both handshakes leave the stream, with the counters where they are. */
    constructor (sendCipher: Cipher, recvCipher: Cipher, sendNonce: nat, recvNonce: nat, rx: Link, tx: Link)
      requires rx != tx
      ensures Valid() && fresh(rbuf) && fresh(wbuf)
      ensures this.sendCipher == sendCipher && this.recvCipher == recvCipher && this.rx == rx && this.tx == tx
      ensures sendBase == this.sendNonce == sendNonce && recvBase == this.recvNonce == recvNonce
      ensures consumed == [] && delivered == [] && accepted == [] && sent == []
    {
      this.sendCipher, this.recvCipher, this.rx, this.tx := sendCipher, recvCipher, rx, tx;
      sendBase, recvBase := sendNonce, recvNonce;
      this.sendNonce, this.recvNonce := sendNonce, recvNonce;
      rbuf := new byte[2](_ => 0);
      pending, mode, readEnd, readStart := 2, LengthMode, 0, 0;
      wbuf := new byte[0];
      writeStart, writeEnd := 0, 0;
      frames, records, consumed, delivered := [], [], [], [];
      accepted, outFrames, sent := [], [], [];
    }

    /** A read of at most `room` bytes. Pending only as the direct result of the base's Pending,
        and then no byte is lost; a read shorter than the room given ends a record or the
        stream, and one without bytes is the end of the stream or an empty record. */
    method PollRead(room: nat) returns (r: Poll<seq<byte>>)
      requires ReadSide() && rx.Valid()
      modifies this`pending, this`mode, this`rbuf, this`readStart, this`readEnd, this`recvNonce, rbuf
      modifies this`frames, this`records, this`consumed, this`delivered, rx`taken, rx`readLog
      ensures ReadSide() && rx.Valid()
      ensures rbuf == old(rbuf) || fresh(rbuf)
      ensures ConsumedSince(old(consumed), old(rx.taken))
      ensures r.Ready? ==> |r.value| <= room && delivered == old(delivered) + r.value
      ensures !r.Ready? ==> delivered == old(delivered)
      ensures r.Pending? <==> EndedWith(old(rx.readLog), rx.readLog, Pended)
      ensures r.Pending? ==> Starved(ReaderView())
      ensures r.Failed? <==> EndedWith(old(rx.readLog), rx.readLog, Errored) || Stuck()
      ensures r.Ready? ==> EndedWith(old(rx.readLog), rx.readLog, Ended) || WentOn(old(rx.readLog), rx.readLog)
      ensures r.Ready? && EndedWith(old(rx.readLog), rx.readLog, Ended) ==>
        r.value == [] && Starved(ReaderView()) && rx.closed && rx.taken == |rx.bytes|
      ensures r.Ready? && |r.value| < room && WentOn(old(rx.readLog), rx.readLog) ==> mode == LengthMode
      ensures r.Ready? && WentOn(old(rx.readLog), rx.readLog) ==>
        && records != [] && (|records| > |old(records)| || old(mode) == ReadMode)
        && (r.value == [] && room > 0 ==> records[|records| - 1] == [])
    {
      hide ReaderOk;
      ghost var before, start, asked := consumed, rx.taken, rx.readLog;
      while true
        invariant ReadSide() && rx.Valid() && (rbuf == old(rbuf) || fresh(rbuf))
        invariant ConsumedSince(before, start) && WentOn(asked, rx.readLog)
        invariant delivered == old(delivered)
        invariant |records| >= |old(records)|
        invariant mode == ReadMode ==> |records| > |old(records)| || old(mode) == ReadMode
        decreases Rank(mode)
      {
        var p := ReadPending(before, start, asked);
        match p {
          case Pending => return Pending;
          case Failed => return Failed;
          case Ready(eof) =>
            if eof {
              return Ready([]);
            }
        }

        if mode == ReadMode {
          var out := Transmit(room);
          return Ready(out);
        }
        var ok := Parse();
        if !ok {
          return Failed;
        }
      }
    }

    /** A complete body that the cipher does not take. */
    ghost predicate Stuck()
      reads this`mode, this`pending, this`recvNonce, this`rbuf, rbuf
    {
      mode == BodyMode && pending == 0 && (recvNonce >= MAX_NONCE || recvCipher.dec(recvNonce, rbuf[..]).None?)
    }

    /** A complete length or a complete body moves the reader to its next mode. */
    method Parse() returns (ok: bool)
      requires ReadSide() && pending == 0 && mode != ReadMode
      modifies this`pending, this`mode, this`rbuf, this`readStart, this`readEnd, this`recvNonce
      modifies this`frames, this`records, rbuf
      ensures ReadSide() && (rbuf == old(rbuf) || fresh(rbuf))
      ensures ok ==> Rank(mode) < Rank(old(mode))
      ensures ok ==> |records| == |old(records)| + if mode == ReadMode then 1 else 0
      ensures !ok ==> Stuck()
    {
      if mode == LengthMode {
        BeginBody();
        ok := true;
      } else {
        ok := Decrypt();
      }
    }

    /** What the reader consumed since it had `before`, when the link stood at `at`. */
    ghost predicate ConsumedSince(before: seq<byte>, at: nat)
      reads this`consumed, rx
    {
      at <= rx.taken <= |rx.bytes| && consumed == before + rx.bytes[at..rx.taken]
    }

    /** The inner loop of `poll_read`: fill the read buffer; Ready(true) at the end of the base. */
    method ReadPending(ghost before: seq<byte>, ghost start: nat, ghost asked: seq<Answer>) returns (r: Poll<bool>)
      requires ReadSide() && rx.Valid() && ConsumedSince(before, start) && WentOn(asked, rx.readLog)
      modifies this`pending, this`consumed, rbuf, rx`taken, rx`readLog
      ensures ReadSide() && rx.Valid() && ConsumedSince(before, start)
      ensures r == Ready(false) ==> pending == 0
      ensures r != Ready(false) ==> pending > 0
      ensures r == Ready(false) <==> WentOn(asked, rx.readLog)
      ensures r.Pending? <==> EndedWith(asked, rx.readLog, Pended)
      ensures r.Failed? <==> EndedWith(asked, rx.readLog, Errored)
      ensures r == Ready(true) <==> EndedWith(asked, rx.readLog, Ended)
      ensures r == Ready(true) ==> rx.closed && rx.taken == |rx.bytes|
    {
      hide ReaderOk;
      while pending != 0
        invariant ReadSide() && rx.Valid()
        invariant ConsumedSince(before, start) && WentOn(asked, rx.readLog)
        decreases pending
      {
        ghost var at, log := rx.taken, rx.readLog;
        var p := rx.PollRead(pending);
        OneMore(asked, log, rx.readLog[|log|]);
        match p {
          case Pending => return Pending;
          case Failed => return Failed;
          case Ready(got) =>
            if got == [] {
              return Ready(true);
            }
            Fill(got);
            assert rx.bytes[start..at] + got == rx.bytes[start..rx.taken];
        }
      }
      r := Ready(false);
    }

    /** `pending -= filled`, after the base wrote `got` at the end of what is there. */
    method Fill(got: seq<byte>)
      requires ReadSide() && got != [] && |got| <= pending
      modifies this`pending, this`consumed, rbuf
      ensures ReadSide()
      ensures pending == old(pending) - |got|
      ensures consumed == old(consumed) + got
    {
      hide ReaderOk;
      ghost var r := ReaderView();
      var at := rbuf.Length - pending;
      forall i | 0 <= i < |got| {
        rbuf[at + i] := got[i];
      }
      pending := pending - |got|;
      consumed := consumed + got;
      assert rbuf[..at + |got|] == old(rbuf[..])[..at] + got;
      assert ReaderView() == r.(consumed := r.consumed + got, phase := r.phase.(have := r.phase.have + got));
      Fills(recvCipher, r, got);
    }

    /** The length is complete: set up to read the record. */
    method BeginBody()
      requires ReadSide() && pending == 0 && mode == LengthMode
      modifies this`pending, this`mode, this`rbuf
      ensures ReadSide() && mode == BodyMode && fresh(rbuf)
    {
      hide ReaderOk;
      ghost var r := ReaderView();
      var recordLength := FromU16(rbuf[0], rbuf[1]);
      BeginsBody(recvCipher, r);
      pending := recordLength;
      mode := BodyMode;
      rbuf := new byte[pending](_ => 0);
      assert ReaderView() == r.(phase := Body(recordLength, []));
    }

    /** The body is complete: decrypt it in place under the next counter. */
    method Decrypt() returns (ok: bool)
      requires ReadSide() && pending == 0 && mode == BodyMode
      modifies this`mode, this`readStart, this`readEnd, this`recvNonce, this`frames, this`records, rbuf
      ensures ReadSide()
      ensures ok ==> mode == ReadMode && readStart == 0 && |records| == |old(records)| + 1
      ensures !ok ==> mode == BodyMode && Stuck()
    {
      hide ReaderOk;
      ghost var r := ReaderView();
      ghost var frame := rbuf[..];
      assert r.phase.have == frame;
      var res := NoiseCipher.Read(recvCipher, recvNonce, rbuf[..], rbuf.Length);
      if res.Err? {
        assert rbuf.Length <= MAX_MESSAGE by { BodyFits(recvCipher, r); }
        return false;
      }
      var p := res.value;
      Decrypted(recvCipher, r, p);
      forall i | 0 <= i < |p| {
        rbuf[i] := p[i];
      }
      recvNonce := recvNonce + 1;
      readStart, readEnd, mode := 0, |p|, ReadMode;
      assert rbuf[..readEnd] == p;
      frames, records := frames + [frame], records + [p];
      assert ReaderView() == r.(frames := frames, records := records, phase := Reading(0));
      ok := true;
    }

    /** Hand out the record, or as much of it as there is room for. */
    method Transmit(room: nat) returns (out: seq<byte>)
      requires ReadSide() && mode == ReadMode
      modifies this`pending, this`mode, this`readStart, this`rbuf, this`delivered
      ensures ReadSide() && (rbuf == old(rbuf) || fresh(rbuf))
      ensures |out| <= room && delivered == old(delivered) + out
      ensures mode != BodyMode && (|out| < room ==> mode == LengthMode)
      ensures out == [] && room > 0 ==> records[|records| - 1] == []
    {
      hide ReaderOk;
      ghost var r := ReaderView();
      ghost var all, last := rbuf[..], records[|records| - 1];
      assert last == all[..readEnd];
      ghost var n := if room < readEnd - readStart then room else readEnd - readStart;
      SliceOfPrefix(all, readEnd, readStart, readStart + n);
      if room < readEnd - readStart {
        out := rbuf[readStart..readStart + room];
        assert out == all[readStart..readStart + n];
        readStart := readStart + room;
      } else {
        out := rbuf[readStart..readEnd];
        assert out == all[readStart..readStart + n];
        rbuf := new byte[2](_ => 0);
        pending, mode := 2, LengthMode;
      }
      Transmits(recvCipher, r, n);
      delivered := delivered + out;
      assert ReaderView() == r.(delivered := delivered, phase := PhaseView());
    }

    /** The bytes sent since the writer had sent `before` are those the link gained over `link`. */
    ghost predicate SentSince(before: seq<byte>, link: seq<byte>)
      reads this`sent, tx
    {
      link <= tx.bytes && sent == before + tx.bytes[|link|..]
    }

    lemma Grows(s0: seq<byte>, l0: seq<byte>, s1: seq<byte>, l1: seq<byte>, s2: seq<byte>, l2: seq<byte>)
      requires l0 <= l1 && s1 == s0 + l1[|l0|..]
      requires l1 <= l2 && s2 == s1 + l2[|l1|..]
      ensures l0 <= l2 && s2 == s0 + l2[|l0|..]
    {
      assert l2[|l0|..] == l1[|l0|..] + l2[|l1|..];
    }

    /** What is queued leaves, and the base flushes. It ends as the base's last call of it did. */
    method PollFlush() returns (r: Poll<()>)
      requires WriteSide() && tx.Valid()
      modifies this`writeStart, this`sent, tx`bytes, tx`writeLog
      ensures WriteSide() && tx.Valid()
      ensures SentSince(old(sent), old(tx.bytes))
      ensures r.Ready? ==> writeStart == writeEnd && WentOn(old(tx.writeLog), tx.writeLog)
      ensures r.Ready? <==> EndedWith(old(tx.writeLog), tx.writeLog, Flushed)
      ensures r.Pending? <==> EndedWith(old(tx.writeLog), tx.writeLog, Pended)
      ensures r.Failed? <==> EndedWith(old(tx.writeLog), tx.writeLog, Errored)
    {
      hide WriterOk;
      ghost var asked := tx.writeLog;
      while writeStart != writeEnd
        invariant WriteSide() && tx.Valid()
        invariant SentSince(old(sent), old(tx.bytes)) && WentOn(asked, tx.writeLog)
        decreases writeEnd - writeStart
      {
        ghost var link, already, log := tx.bytes, sent, tx.writeLog;
        var out := wbuf[writeStart..writeEnd];
        var p := tx.PollWrite(out);
        OneMore(asked, log, tx.writeLog[|log|]);
        match p {
          case Pending => return Pending;
          case Failed => return Failed;
          case Ready(size) =>
            Sent(size);
            assert tx.bytes[|link|..] == out[..size];
            Grows(old(sent), old(tx.bytes), already, link, sent, tx.bytes);
        }
      }
      // the base may hold back what it took
      ghost var log := tx.writeLog;
      r := tx.PollFlush();
      OneMore(asked, log, tx.writeLog[|log|]);
    }

    /** `write_start += size`. */
    method Sent(size: nat)
      requires WriteSide() && size <= writeEnd - writeStart
      modifies this`writeStart, this`sent
      ensures WriteSide() && writeStart == old(writeStart) + size
      ensures sent == old(sent) + old(wbuf[writeStart..writeEnd])[..size]
    {
      hide WriterOk;
      ghost var w := WriterView();
      Sends(sendCipher, w, size);
      sent := sent + w.queued[..size];
      writeStart := writeStart + size;
      assert WriterView() == w.(sent := sent, queued := w.queued[size..]);
    }

    /** A write of `buf`: the previous record leaves first, then up to 64000 bytes become the
        next record. What is accepted is never lost; what is not accepted is not sent. */
    method PollWrite(buf: seq<byte>) returns (r: Poll<nat>)
      requires WriteSide() && tx.Valid()
      modifies this`wbuf, this`writeStart, this`writeEnd, this`sendNonce, this`accepted, this`outFrames, this`sent
      modifies tx`bytes, tx`writeLog
      ensures WriteSide() && tx.Valid() && (wbuf == old(wbuf) || fresh(wbuf))
      ensures SentSince(old(sent), old(tx.bytes))
      ensures r.Ready? ==>
        && r.value == (if |buf| < 64000 then |buf| else 64000)
        && accepted == old(accepted) + [buf[..r.value]]
      ensures !r.Ready? ==> accepted == old(accepted)
      ensures r.Pending? <==> EndedWith(old(tx.writeLog), tx.writeLog, Pended)
      ensures r.Failed? <==>
        || EndedWith(old(tx.writeLog), tx.writeLog, Errored)
        || (EndedWith(old(tx.writeLog), tx.writeLog, Flushed) && old(sendNonce) >= MAX_NONCE)
      ensures r.Ready? ==> EndedWith(old(tx.writeLog), tx.writeLog, Flushed)
    {
      hide WriterOk;
      // there is room for one record only
      var f := PollFlush();
      match f {
        case Pending => return Pending;
        case Failed => return Failed;
        case Ready(_) =>
      }
      // the cast is exact: 64000 fits 16 bits
      var len := (if |buf| < 64000 then |buf| else 64000) % 0x1_0000;
      var newBuf, message := Seal(buf[..len]);
      if message.None? {
        return Failed;
      }
      Enqueue(newBuf, buf[..len], message.value);
      r := Ready(len);
    }

    /** The new write buffer: the length of the Noise message, cast to 16 bits, and the message. */
    method Seal(payload: seq<byte>) returns (newBuf: array<byte>, message: Option<Frame>)
      requires |payload| <= 64000
      ensures fresh(newBuf)
      ensures message.None? <==> sendNonce >= MAX_NONCE
      ensures message.Some? ==>
        && sendCipher.dec(sendNonce, message.value) == Some(payload)
        && |message.value| + 2 <= newBuf.Length
        && newBuf[..|message.value| + 2] == U16(|message.value|) + message.value
    {
      newBuf := new byte[|payload| + 1000](_ => 0);
      var res := NoiseCipher.Write(sendCipher, sendNonce, payload, newBuf.Length - 2);
      if res.Err? {
        return newBuf, None;
      }
      var noiseLen := |res.value|;
      forall i | 0 <= i < noiseLen {
        newBuf[2 + i] := res.value[i];
      }
      var prefix := U16(noiseLen % 0x1_0000);
      newBuf[0], newBuf[1] := prefix[0], prefix[1];
      message := Some(res.value);
    }

    method Enqueue(newBuf: array<byte>, ghost payload: seq<byte>, message: Frame)
      requires WriteSide() && writeStart == writeEnd
      requires sendCipher.dec(sendNonce, message) == Some(payload)
      requires |message| + 2 <= newBuf.Length && newBuf[..|message| + 2] == U16(|message|) + message
      modifies this`wbuf, this`writeStart, this`writeEnd, this`sendNonce, this`accepted, this`outFrames
      ensures WriteSide() && wbuf == newBuf
      ensures accepted == old(accepted) + [payload]
    {
      ghost var w := WriterView();
      Enqueues(sendCipher, w, payload, message);
      wbuf, writeStart, writeEnd := newBuf, 0, |message| + 2;
      sendNonce := sendNonce + 1;
      accepted, outFrames := accepted + [payload], outFrames + [message];
      assert WriterView() == w.(accepted := accepted, frames := outFrames, queued := U16(|message|) + message);
    }

    /** A shutdown implies a flush: the link closes only once everything accepted was sent. */
    method PollShutdown() returns (r: Poll<()>)
      requires WriteSide() && tx.Valid()
      modifies this`writeStart, this`sent, tx`bytes, tx`writeLog, tx`closed
      ensures WriteSide() && tx.Valid()
      ensures SentSince(old(sent), old(tx.bytes))
      ensures r.Ready? ==> tx.closed && writeStart == writeEnd
      ensures tx.closed && !old(tx.closed) ==> writeStart == writeEnd
      ensures r.Ready? <==> EndedWith(old(tx.writeLog), tx.writeLog, ShutDown)
      ensures r.Pending? <==> EndedWith(old(tx.writeLog), tx.writeLog, Pended)
      ensures r.Failed? <==> EndedWith(old(tx.writeLog), tx.writeLog, Errored)
    {
      var f := PollFlush();
      match f {
        case Pending => return Pending;
        case Failed => return Failed;
        case Ready(_) =>
      }
      ghost var log := tx.writeLog;
      r := tx.PollShutdown();
      OneMore(old(tx.writeLog), log, tx.writeLog[|log|]);
    }
  }
}
