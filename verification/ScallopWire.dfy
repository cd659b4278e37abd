/** The Scallop record stream as seen on the wire: a concatenation of length-prefixed Noise
    messages. This module holds what a writer and a reader keep true of it, on values, and
    the theorems that join the two ends. */
module ScallopWire {
  import opened Bytes
  import opened NoiseCipher

  type Frame = f: seq<byte> | |f| <= MAX_MESSAGE

  /** The bytes that carry `frames`: a big-endian length before each message. */
  function Wire(frames: seq<Frame>): seq<byte> {
    if frames == [] then [] else U16(|frames[0]|) + frames[0] + Wire(frames[1..])
  }

  lemma {:induction false} WireAppend(xs: seq<Frame>, ys: seq<Frame>)
    ensures Wire(xs + ys) == Wire(xs) + Wire(ys)
  {
    if xs == [] {
      assert xs + ys == ys;
    } else {
      assert (xs + ys)[1..] == xs[1..] + ys;
      WireAppend(xs[1..], ys);
    }
  }

  lemma WireSnoc(xs: seq<Frame>, f: Frame)
    ensures Wire(xs + [f]) == Wire(xs) + (U16(|f|) + f)
  {
    WireAppend(xs, [f]);
    assert Wire([f]) == U16(|f|) + f + Wire([]);
  }

  /** What one end has written from counter `base` on: `accepted` are the payloads `poll_write` took, `frames` their
      encryptions, `sent` what the base stream took, `queued` what is left in `wbuf`. */
  datatype Writer = Writer(
    base: nat, accepted: seq<seq<byte>>, frames: seq<Frame>, sent: seq<byte>, queued: seq<byte>)

  /** Each message decrypts, under its own counter, to the payload at its place. */
  ghost predicate Decrypts(c: Cipher, base: nat, frames: seq<Frame>, payloads: seq<seq<byte>>) {
    && |frames| == |payloads|
    && forall i: nat {:trigger frames[i]} :: i < |frames| ==>
         c.dec(base + i, frames[i]) == Some(payloads[i]) && |frames[i]| == |payloads[i]| + TAG
  }

  ghost predicate WriterOk(c: Cipher, w: Writer) {
    && Decrypts(c, w.base, w.frames, w.accepted)
    && w.sent + w.queued == Wire(w.frames)
  }

  /** Where a reader stands between records: reading the length, reading a body of known
      length, or handing out a decrypted record from `start` on. */
  datatype Phase =
    | Length(have: seq<byte>)
    | Body(total: nat, have: seq<byte>)
    | Reading(start: nat)

  datatype Reader = Reader(
    base: nat, frames: seq<Frame>, records: seq<seq<byte>>, consumed: seq<byte>, delivered: seq<byte>, phase: Phase)

  ghost predicate ReaderOk(c: Cipher, r: Reader) {
    && Decrypts(c, r.base, r.frames, r.records)
    && match r.phase
       case Length(have) =>
         && |have| <= 2
         && r.consumed == Wire(r.frames) + have
         && r.delivered == Flatten(r.records)
       case Body(total, have) =>
         && |have| <= total <= MAX_MESSAGE
         && r.consumed == Wire(r.frames) + (U16(total) + have)
         && r.delivered == Flatten(r.records)
       case Reading(start) =>
         && r.records != []
         && start <= |r.records[|r.records| - 1]|
         && r.consumed == Wire(r.frames)
         && r.delivered + r.records[|r.records| - 1][start..] == Flatten(r.records)
  }

  /** The reader can do nothing more without bytes from its base. */
  predicate Starved(r: Reader) {
    match r.phase
    case Length(have) => |have| < 2
    case Body(total, have) => |have| < total
    case Reading(_) => false
  }

  function Tail(p: Phase): seq<byte> {
    match p
    case Length(have) => have
    case Body(total, have) => if total <= MAX_MESSAGE then U16(total) + have else have
    case Reading(_) => []
  }

  /** The four moves of a reader and the two of a writer, each keeping what holds of it. */
  lemma Fills(c: Cipher, r: Reader, got: seq<byte>)
    requires ReaderOk(c, r) && !r.phase.Reading?
    requires |r.phase.have| + |got| <= if r.phase.Length? then 2 else r.phase.total
    ensures ReaderOk(c, r.(consumed := r.consumed + got, phase := r.phase.(have := r.phase.have + got)))
  {
    match r.phase
    case Length(have) => assert Wire(r.frames) + have + got == Wire(r.frames) + (have + got);
    case Body(total, have) =>
      assert Wire(r.frames) + (U16(total) + have) + got == Wire(r.frames) + (U16(total) + (have + got));
  }

  lemma BeginsBody(c: Cipher, r: Reader)
    requires ReaderOk(c, r) && r.phase.Length? && |r.phase.have| == 2
    ensures ReaderOk(c, r.(phase := Body(FromU16(r.phase.have[0], r.phase.have[1]), [])))
  {
    var have := r.phase.have;
    assert have == U16(FromU16(have[0], have[1])) + [];
  }

  lemma BodyFits(c: Cipher, r: Reader)
    requires ReaderOk(c, r) && r.phase.Body?
    ensures r.phase.total <= MAX_MESSAGE
  {
  }

  lemma Decrypted(c: Cipher, r: Reader, p: seq<byte>)
    requires ReaderOk(c, r) && r.phase.Body? && |r.phase.have| == r.phase.total
    requires c.dec(r.base + |r.frames|, r.phase.have) == Some(p)
    ensures ReaderOk(c, r.(frames := r.frames + [r.phase.have], records := r.records + [p], phase := Reading(0)))
  {
    WireSnoc(r.frames, r.phase.have);
    FlattenSnoc(r.records, p);
    assert p[0..] == p;
  }

  lemma Transmits(c: Cipher, r: Reader, n: nat)
    requires ReaderOk(c, r) && r.phase.Reading?
    requires r.phase.start + n <= |r.records[|r.records| - 1]|
    ensures
      var last := r.records[|r.records| - 1];
      var s := r.(delivered := r.delivered + last[r.phase.start..r.phase.start + n]);
      && ReaderOk(c, s.(phase := Reading(r.phase.start + n)))
      && (r.phase.start + n == |last| ==> ReaderOk(c, s.(phase := Length([]))))
  {
    var last := r.records[|r.records| - 1];
    var i := r.phase.start;
    assert last[i..] == last[i..i + n] + last[i + n..];
    assert r.delivered + last[i..] == (r.delivered + last[i..i + n]) + last[i + n..];
  }

  lemma Sends(c: Cipher, w: Writer, n: nat)
    requires WriterOk(c, w) && n <= |w.queued|
    ensures WriterOk(c, w.(sent := w.sent + w.queued[..n], queued := w.queued[n..]))
  {
    assert w.queued == w.queued[..n] + w.queued[n..];
    assert w.sent + w.queued == (w.sent + w.queued[..n]) + w.queued[n..];
  }

  lemma Enqueues(c: Cipher, w: Writer, payload: seq<byte>, message: Frame)
    requires WriterOk(c, w) && w.queued == []
    requires c.dec(w.base + |w.frames|, message) == Some(payload)
    ensures WriterOk(c, w.(accepted := w.accepted + [payload], frames := w.frames + [message],
                           queued := U16(|message|) + message))
  {
    WireSnoc(w.frames, message);
    assert w.sent + w.queued == w.sent;
  }

  lemma FirstFramesAgree(f: Frame, x: seq<byte>, g: Frame, y: seq<byte>)
    requires U16(|f|) + f + x <= U16(|g|) + g + y
    ensures f == g && x <= y
  {
    var w, w' := U16(|f|) + f + x, U16(|g|) + g + y;
    assert w[..2] == U16(|f|) && w'[..2] == U16(|g|) && w[..2] == w'[..2];
    U16RoundTrip(|f|);
    U16RoundTrip(|g|);
    assert w[2..2 + |f|] == f && w'[2..2 + |g|] == g;
    assert w[2 + |f|..] == x && w'[2 + |g|..] == y;
  }

  /** Frames are self-delimiting: a reader that has cut `mine` out of a prefix of the stream
      that carries `theirs` has cut exactly the first frames. */
  lemma {:induction false} FramesArePrefix(mine: seq<Frame>, tail: seq<byte>, theirs: seq<Frame>)
    requires Wire(mine) + tail <= Wire(theirs)
    ensures mine <= theirs
    ensures tail <= Wire(theirs[|mine|..])
  {
    if mine == [] {
      assert theirs[0..] == theirs;
      assert Wire(mine) + tail == tail;
    } else {
      assert theirs != [] by { assert |Wire(mine) + tail| >= 2; }
      Assoc(U16(|mine[0]|) + mine[0], Wire(mine[1..]), tail);
      FirstFramesAgree(mine[0], Wire(mine[1..]) + tail, theirs[0], Wire(theirs[1..]));
      FramesArePrefix(mine[1..], tail, theirs[1..]);
      hide Wire;
      assert mine == [mine[0]] + mine[1..] && theirs == [theirs[0]] + theirs[1..];
      assert theirs[1..][|mine[1..]|..] == theirs[|mine|..];
    }
  }

  lemma ConsumedShape(c: Cipher, r: Reader)
    requires ReaderOk(c, r)
    ensures r.consumed == Wire(r.frames) + Tail(r.phase)
  {
  }

  lemma PayloadsArePrefix(c: Cipher, base: nat, mine: seq<Frame>, records: seq<seq<byte>>,
                          theirs: seq<Frame>, accepted: seq<seq<byte>>)
    requires Decrypts(c, base, mine, records) && Decrypts(c, base, theirs, accepted)
    requires mine <= theirs
    ensures records <= accepted
  {
    forall i: nat | i < |records| ensures records[i] == accepted[i] {
      assert mine[i] == theirs[i];
    }
  }

  /** Safety of the pipe: a reader that has seen any prefix of what was sent has decrypted
      exactly the first payloads, whole, and handed out a prefix of the accepted bytes. */
  lemma DeliveredIsPrefix(c: Cipher, w: Writer, r: Reader)
    requires WriterOk(c, w) && ReaderOk(c, r) && w.base == r.base
    requires r.consumed <= w.sent
    ensures r.records <= w.accepted
    ensures r.delivered <= Flatten(w.accepted)
  {
    ConsumedShape(c, r);
    assert r.consumed <= Wire(w.frames);
    FramesArePrefix(r.frames, Tail(r.phase), w.frames);
    PayloadsArePrefix(c, r.base, r.frames, r.records, w.frames, w.accepted);
    FlattenPrefix(r.records, w.accepted);
  }

  lemma WireStart(fs: seq<Frame>)
    ensures fs != [] ==> |Wire(fs)| >= 2 + |fs[0]| && FromU16(Wire(fs)[0], Wire(fs)[1]) == |fs[0]|
  {
    if fs != [] {
      U16RoundTrip(|fs[0]|);
      assert Wire(fs)[..2] == U16(|fs[0]|);
    }
  }

  /** A starved reader holds less than one whole record. */
  lemma StarvedTailIsShort(p: Phase, rest: seq<Frame>)
    requires match p
             case Length(have) => |have| < 2
             case Body(total, have) => |have| < total <= MAX_MESSAGE
             case Reading(_) => false
    requires Wire(rest) == Tail(p)
    ensures rest == []
  {
    WireStart(rest);
    if p.Body? {
      U16RoundTrip(p.total);
    }
  }

  /** Completeness of the pipe: when everything accepted was flushed and the reader took all
      of it and still asks for more, every accepted byte was delivered and the reader stands
      at a record boundary. */
  lemma DrainedMeansDelivered(c: Cipher, w: Writer, r: Reader)
    requires WriterOk(c, w) && ReaderOk(c, r) && w.base == r.base
    requires w.queued == [] && r.consumed == w.sent && Starved(r)
    ensures r.delivered == Flatten(w.accepted)
    ensures r.phase == Length([])
  {
    ConsumedShape(c, r);
    assert w.sent == Wire(w.frames);
    FramesArePrefix(r.frames, Tail(r.phase), w.frames);
    PayloadsArePrefix(c, r.base, r.frames, r.records, w.frames, w.accepted);
    var rest := w.frames[|r.frames|..];
    assert w.frames == r.frames + rest;
    WireAppend(r.frames, rest);
    assert Wire(rest) == Tail(r.phase);
    if rest != [] {
      assert rest[0] == w.frames[|r.frames|] && |rest[0]| >= TAG;
      StarvedTailIsShort(r.phase, rest);
    }
    assert r.records == w.accepted;
  }

  /** A complete body of an intact stream is the next frame that was sent, and decrypts. */
  lemma IntactBodyDecrypts(c: Cipher, w: Writer, r: Reader)
    requires WriterOk(c, w) && ReaderOk(c, r) && w.base == r.base
    requires r.consumed <= w.sent && r.phase.Body? && |r.phase.have| == r.phase.total
    ensures |r.frames| < |w.frames| && r.phase.have == w.frames[|r.frames|]
    ensures c.dec(r.base + |r.frames|, r.phase.have) == Some(w.accepted[|r.frames|])
    ensures |w.accepted[|r.frames|]| + TAG == r.phase.total
  {
    var mine := r.frames + [r.phase.have];
    WireSnoc(r.frames, r.phase.have);
    assert Wire(mine) + [] == r.consumed <= Wire(w.frames);
    FramesArePrefix(mine, [], w.frames);
    assert w.frames[|r.frames|] == mine[|r.frames|];
  }

  /** A record may be empty, and then a reader with room gets no bytes although the stream is
      not at its end; this happens exactly when the writer was given an empty buffer. */
  lemma EmptyRecordIffEmptyWrite(c: Cipher, w: Writer, r: Reader, i: nat)
    requires WriterOk(c, w) && ReaderOk(c, r) && w.base == r.base
    requires r.consumed <= w.sent && i < |r.records|
    ensures i < |w.accepted|
    ensures r.records[i] == [] <==> w.accepted[i] == []
  {
    DeliveredIsPrefix(c, w, r);
  }
}
