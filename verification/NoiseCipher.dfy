/** The cipher behind a Noise transport state, idealised: a message is only known to
    decrypt under the counter it was encrypted with, and nothing else about the
    ciphertext is assumed (section 3 of the Noise Protocol Framework). */
module NoiseCipher {
  import opened Bytes

  const TAG: nat := 16
  const MAX_MESSAGE: nat := 65535
  const MAX_NONCE: nat := 0xFFFF_FFFF_FFFF_FFFF

  datatype RawCipher = RawCipher(
    enc: (nat, seq<byte>) -> seq<byte>,
    dec: (nat, seq<byte>) -> Option<seq<byte>>)

  ghost predicate Ideal(c: RawCipher) {
    && (forall n: nat, p: seq<byte> {:trigger c.enc(n, p)} ::
          |c.enc(n, p)| == |p| + TAG && c.dec(n, c.enc(n, p)) == Some(p))
    && (forall n: nat, m: seq<byte> {:trigger c.dec(n, m)} ::
          c.dec(n, m).Some? ==> |m| == |c.dec(n, m).value| + TAG)
  }

  function Pad(n: nat, p: seq<byte>): seq<byte> { p + Zeros(TAG) }

  function Unpad(n: nat, m: seq<byte>): Option<seq<byte>> {
    if |m| < TAG then None else Some(m[..|m| - TAG])
  }

  /** One direction of a transport state. The witness shows that the laws can be met. */
  type Cipher = c: RawCipher | Ideal(c) ghost witness RawCipher(Pad, Unpad)

  datatype NoiseError = InputTooLong | Exhausted | DecryptFailed

  /** `TransportState::write_message` into a buffer of `room` bytes, at counter `n`. */
  function Write(c: Cipher, n: nat, payload: seq<byte>, room: nat): (r: Result<seq<byte>, NoiseError>)
    ensures r.Ok? ==> |r.value| == |payload| + TAG <= room && |r.value| <= MAX_MESSAGE
    ensures r.Ok? ==> c.dec(n, r.value) == Some(payload)
    ensures r.Ok? <==> |payload| + TAG <= MAX_MESSAGE && |payload| + TAG <= room && n < MAX_NONCE
  {
    if |payload| + TAG > MAX_MESSAGE || |payload| + TAG > room then Err(InputTooLong)
    else if n >= MAX_NONCE then Err(Exhausted)
    else Ok(c.enc(n, payload))
  }

  /** `TransportState::read_message` into a buffer of `room` bytes, at counter `n`. */
  function Read(c: Cipher, n: nat, message: seq<byte>, room: nat): (r: Result<seq<byte>, NoiseError>)
    ensures r.Ok? ==> c.dec(n, message) == Some(r.value) && |r.value| + TAG == |message| && |r.value| <= room
    ensures r.Ok? <==> |message| <= MAX_MESSAGE && n < MAX_NONCE && c.dec(n, message).Some? && |message| <= room + TAG
  {
    if |message| > MAX_MESSAGE then Err(InputTooLong)
    else if n >= MAX_NONCE then Err(Exhausted)
    else match c.dec(n, message)
      case None => Err(DecryptFailed)
      case Some(p) => if |p| > room then Err(DecryptFailed) else Ok(p)
  }
}
