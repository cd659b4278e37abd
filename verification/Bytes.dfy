/** Bytes, big-endian 16-bit integers and the few sequence facts every wire format here needs. */
module Bytes {

  type byte = x: int | 0 <= x < 256

  datatype Option<+T> = None | Some(value: T)

  datatype Result<+T, +E> = Ok(value: T) | Err(error: E)

  /** `u16::to_be_bytes`. */
  function U16(n: nat): (b: seq<byte>)
    requires n < 0x1_0000
    ensures |b| == 2
  {
    [n / 256, n % 256]
  }

  /** `u16::from_be_bytes`. */
  function FromU16(hi: byte, lo: byte): (n: nat)
    ensures n < 0x1_0000
  {
    hi * 256 + lo
  }

  lemma U16RoundTrip(n: nat)
    requires n < 0x1_0000
    ensures FromU16(U16(n)[0], U16(n)[1]) == n
  {
  }

  function Zeros(n: nat): (s: seq<byte>)
    ensures |s| == n
  {
    seq(n, _ => 0)
  }

  lemma SliceOfPrefix<T>(s: seq<T>, e: nat, i: nat, j: nat)
    requires i <= j <= e <= |s|
    ensures s[..e][i..j] == s[i..j]
  {
  }

  lemma Assoc<T>(x: seq<T>, y: seq<T>, z: seq<T>)
    ensures x + y + z == x + (y + z)
  {
  }

  function Flatten<T>(parts: seq<seq<T>>): seq<T> {
    if parts == [] then [] else parts[0] + Flatten(parts[1..])
  }

  lemma {:induction false} FlattenAppend<T>(xs: seq<seq<T>>, ys: seq<seq<T>>)
    ensures Flatten(xs + ys) == Flatten(xs) + Flatten(ys)
  {
    if xs == [] {
      assert xs + ys == ys;
    } else {
      assert (xs + ys)[1..] == xs[1..] + ys;
      FlattenAppend(xs[1..], ys);
    }
  }

  lemma FlattenSnoc<T>(xs: seq<seq<T>>, x: seq<T>)
    ensures Flatten(xs + [x]) == Flatten(xs) + x
  {
    FlattenAppend(xs, [x]);
    assert Flatten([x]) == x + Flatten<T>([]);
  }

  lemma FlattenOne<T>(x: seq<T>)
    ensures Flatten([x]) == x
  {
    assert Flatten([x]) == x + Flatten<T>([]);
  }

  /** A prefix of a list of parts flattens to a prefix of the whole. */
  lemma FlattenPrefix<T>(xs: seq<seq<T>>, ys: seq<seq<T>>)
    requires xs <= ys
    ensures Flatten(xs) <= Flatten(ys)
  {
    assert ys == xs + ys[|xs|..];
    FlattenAppend(xs, ys[|xs|..]);
  }
}
