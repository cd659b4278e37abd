/** The part of CBOR (section 3 of RFC 8949) that COSE attestation documents use: a printer that
    keeps the width of every head, and a decoder for any input. */
module Cbor {
  import opened Bytes

  /** How many bytes of argument follow the initial byte; 0 means it is inside. */
  datatype Width = W0 | W1 | W2 | W4 | W8

  datatype Item =
    | Uint(n: nat, w: Width)
    | Nint(n: nat, w: Width)
    | Bytes(b: seq<byte>, w: Width)
    | Text(b: seq<byte>, w: Width)
    | Arr(items: seq<Item>, w: Width)
    | Map(items: seq<Item>, w: Width)  // keys and values in turn
    | Null

  function Size(w: Width): nat {
    match w case W0 => 0 case W1 => 1 case W2 => 2 case W4 => 4 case W8 => 8
  }

  predicate Fits(n: nat, w: Width) {
    match w
    case W0 => n < 24
    case W1 => n < 0x100
    case W2 => n < 0x1_0000
    case W4 => n < 0x1_0000_0000
    case W8 => n < 0x1_0000_0000_0000_0000
  }

  function Power256(k: nat): (p: nat)
    ensures p > 0
  {
    if k == 0 then 1 else 256 * Power256(k - 1)
  }

  /** The low `k` bytes of `n`, big-endian. */
  function BigEndian(n: nat, k: nat): (b: seq<byte>)
    ensures |b| == k
    decreases k
  {
    if k == 0 then [] else BigEndian(n / 256, k - 1) + [n % 256]
  }

  function FromBigEndian(b: seq<byte>): nat
    decreases |b|
  {
    if b == [] then 0 else FromBigEndian(b[..|b| - 1]) * 256 + b[|b| - 1]
  }

  lemma {:induction false} BigEndianRoundTrip(n: nat, k: nat)
    requires n < Power256(k)
    ensures FromBigEndian(BigEndian(n, k)) == n
    decreases k
  {
    if k > 0 {
      BigEndianRoundTrip(n / 256, k - 1);
      assert BigEndian(n, k)[..k - 1] == BigEndian(n / 256, k - 1);
    }
  }

  function Info(n: nat, w: Width): byte
    requires Fits(n, w)
  {
    match w case W0 => n case W1 => 24 case W2 => 25 case W4 => 26 case W8 => 27
  }

  /** The head of an item: major type and argument. */
  function Head(major: nat, n: nat, w: Width): seq<byte>
    requires major < 8 && Fits(n, w)
  {
    [major * 32 + Info(n, w)] + BigEndian(n, Size(w))
  }

  datatype Decoded = Decoded(major: nat, n: nat, w: Width, rest: seq<byte>)

  function WidthOf(info: byte): Option<Width> {
    if info < 24 then Some(W0) else if info == 24 then Some(W1) else if info == 25 then Some(W2)
    else if info == 26 then Some(W4) else if info == 27 then Some(W8) else None
  }

  function DecodeHead(s: seq<byte>): (r: Option<Decoded>)
    ensures r.Some? ==> r.value.major < 8 && |r.value.rest| < |s|
  {
    if s == [] then None
    else
      match WidthOf(s[0] % 32)
      case None => None
      case Some(w) =>
        if |s| < 1 + Size(w) then None
        else if w == W0 then Some(Decoded(s[0] / 32, s[0] % 32, W0, s[1..]))
        else Some(Decoded(s[0] / 32, FromBigEndian(s[1..1 + Size(w)]), w, s[1 + Size(w)..]))
  }

  lemma FitsItsBytes(n: nat, w: Width)
    requires Fits(n, w) && w != W0
    ensures n < Power256(Size(w))
  {
    assert Power256(1) == 256;
    assert Power256(2) == 0x1_0000;
    assert Power256(3) == 0x100_0000;
    assert Power256(4) == 0x1_0000_0000;
    assert Power256(5) == 0x100_0000_0000;
    assert Power256(6) == 0x1_0000_0000_0000;
    assert Power256(7) == 0x100_0000_0000_0000;
    assert Power256(8) == 0x1_0000_0000_0000_0000;
  }

  lemma FirstByte(major: nat, n: nat, w: Width)
    requires major < 8 && Fits(n, w)
    ensures var b := major * 32 + Info(n, w);
      b < 256 && b / 32 == major && b % 32 == Info(n, w) && WidthOf(b % 32) == Some(w)
  {
  }

  lemma DecodesTo(s: seq<byte>, w: Width)
    requires |s| >= 1 + Size(w) && WidthOf(s[0] % 32) == Some(w)
    ensures DecodeHead(s)
         == Some(Decoded(s[0] / 32, if w == W0 then s[0] % 32 else FromBigEndian(s[1..1 + Size(w)]), w,
                         s[1 + Size(w)..]))
  {
    hide FromBigEndian;
    hide WidthOf;
  }

  lemma Argument(n: nat, w: Width)
    requires Fits(n, w)
    ensures n == if w == W0 then Info(n, w) else FromBigEndian(BigEndian(n, Size(w)))
  {
    if w != W0 {
      FitsItsBytes(n, w);
      BigEndianRoundTrip(n, Size(w));
    }
  }

  lemma HeadRoundTrip(major: nat, n: nat, w: Width, rest: seq<byte>)
    requires major < 8 && Fits(n, w)
    ensures DecodeHead(Head(major, n, w) + rest) == Some(Decoded(major, n, w, rest))
  {
    hide Info;
    hide WidthOf;
    hide Fits;
    hide Size;
    hide BigEndian;
    hide FromBigEndian;
    hide DecodeHead;
    FirstByte(major, n, w);
    Argument(n, w);
    var s, k := Head(major, n, w) + rest, Size(w);
    assert s[0] == major * 32 + Info(n, w);
    assert s[1..1 + k] == BigEndian(n, k);
    assert s[1 + k..] == rest;
    DecodesTo(s, w);
  }

  predicate WellFormed(i: Item)
    decreases i, 1
  {
    match i
    case Uint(n, w) => Fits(n, w)
    case Nint(n, w) => Fits(n, w)
    case Bytes(b, w) => Fits(|b|, w)
    case Text(b, w) => Fits(|b|, w)
    case Arr(items, w) => Fits(|items|, w) && AllWellFormed(items)
    case Map(items, w) => |items| % 2 == 0 && Fits(|items| / 2, w) && AllWellFormed(items)
    case Null => true
  }

  predicate AllWellFormed(items: seq<Item>)
    decreases items, 0
  {
    items == [] || (WellFormed(items[0]) && AllWellFormed(items[1..]))
  }

  function Encode(i: Item): seq<byte>
    requires WellFormed(i)
    decreases i, 1
  {
    match i
    case Uint(n, w) => Head(0, n, w)
    case Nint(n, w) => Head(1, n, w)
    case Bytes(b, w) => Head(2, |b|, w) + b
    case Text(b, w) => Head(3, |b|, w) + b
    case Arr(items, w) => Head(4, |items|, w) + EncodeAll(items)
    case Map(items, w) => Head(5, |items| / 2, w) + EncodeAll(items)
    case Null => [0xf6]
  }

  function EncodeAll(items: seq<Item>): seq<byte>
    requires AllWellFormed(items)
    decreases items, 0
  {
    if items == [] then [] else Encode(items[0]) + EncodeAll(items[1..])
  }

  /** The first item of `s` and what follows it. */
  function Decode(s: seq<byte>): (r: Option<(Item, seq<byte>)>)
    ensures r.Some? ==> |r.value.1| < |s|
    decreases |s|, 0
  {
    match DecodeHead(s)
    case None => None
    case Some(Decoded(major, n, w, rest)) =>
      if major == 0 then Some((Uint(n, w), rest))
      else if major == 1 then Some((Nint(n, w), rest))
      else if major == 2 then (if |rest| < n then None else Some((Bytes(rest[..n], w), rest[n..])))
      else if major == 3 then (if |rest| < n then None else Some((Text(rest[..n], w), rest[n..])))
      else if major == 4 then
        (match DecodeAll(rest, n) case None => None case Some((items, after)) => Some((Arr(items, w), after)))
      else if major == 5 then
        (match DecodeAll(rest, 2 * n) case None => None case Some((items, after)) => Some((Map(items, w), after)))
      else if major == 7 && w == W0 && n == 22 then Some((Null, rest))
      else None
  }

  function DecodeAll(s: seq<byte>, k: nat): (r: Option<(seq<Item>, seq<byte>)>)
    ensures r.Some? ==> |r.value.1| <= |s| && |r.value.0| == k
    decreases |s|, 1
  {
    if k == 0 then Some(([], s))
    else
      match Decode(s)
      case None => None
      case Some((i, rest)) =>
        match DecodeAll(rest, k - 1)
        case None => None
        case Some((items, after)) => Some(([i] + items, after))
  }

  /** What follows a head is read back by the branch of `Decode` its major type selects. */
  lemma StringRoundTrip(i: Item, rest: seq<byte>)
    requires (i.Bytes? || i.Text?) && WellFormed(i)
    ensures Decode(Encode(i) + rest) == Some((i, rest))
  {
    hide Head;
    hide DecodeHead;
    hide DecodeAll;
    var major := if i.Bytes? then 2 else 3;
    HeadRoundTrip(major, |i.b|, i.w, i.b + rest);
    assert Encode(i) + rest == Head(major, |i.b|, i.w) + (i.b + rest);
    assert (i.b + rest)[..|i.b|] == i.b && (i.b + rest)[|i.b|..] == rest;
  }

  lemma ListRoundTrip(i: Item, rest: seq<byte>)
    requires (i.Arr? || i.Map?) && WellFormed(i)
    requires DecodeAll(EncodeAll(i.items) + rest, |i.items|) == Some((i.items, rest))
    ensures Decode(Encode(i) + rest) == Some((i, rest))
  {
    hide Head;
    hide DecodeHead;
    hide DecodeAll;
    hide EncodeAll;
    var major, n := if i.Arr? then 4 else 5, if i.Arr? then |i.items| else |i.items| / 2;
    HeadRoundTrip(major, n, i.w, EncodeAll(i.items) + rest);
    assert Encode(i) + rest == Head(major, n, i.w) + (EncodeAll(i.items) + rest);
  }

  lemma ScalarRoundTrip(i: Item, rest: seq<byte>)
    requires (i.Uint? || i.Nint? || i.Null?) && WellFormed(i)
    ensures Decode(Encode(i) + rest) == Some((i, rest))
  {
    assert Head(7, 22, W0) == [0xf6];
    hide Head;
    hide DecodeHead;
    hide DecodeAll;
    match i
    case Uint(n, w) => HeadRoundTrip(0, n, w, rest);
    case Nint(n, w) => HeadRoundTrip(1, n, w, rest);
    case Null => HeadRoundTrip(7, 22, W0, rest);
  }

  /** Every item is decoded as it was printed, whatever follows it. */
  lemma {:induction false} RoundTrip(i: Item, rest: seq<byte>)
    requires WellFormed(i)
    ensures Decode(Encode(i) + rest) == Some((i, rest))
    decreases i, 1
  {
    if i.Bytes? || i.Text? {
      StringRoundTrip(i, rest);
    } else if i.Arr? || i.Map? {
      RoundTripAll(i.items, rest);
      ListRoundTrip(i, rest);
    } else {
      ScalarRoundTrip(i, rest);
    }
  }

  lemma {:induction false} RoundTripAll(items: seq<Item>, rest: seq<byte>)
    requires AllWellFormed(items)
    ensures DecodeAll(EncodeAll(items) + rest, |items|) == Some((items, rest))
    decreases items, 0
  {
    hide Encode;
    hide Decode;
    if items == [] {
      assert EncodeAll(items) + rest == rest;
    } else {
      var tail := items[1..];
      RoundTrip(items[0], EncodeAll(tail) + rest);
      assert EncodeAll(items) + rest == Encode(items[0]) + (EncodeAll(tail) + rest);
      RoundTripAll(tail, rest);
      assert items == [items[0]] + tail;
    }
  }

  lemma {:induction false} EncodeAppend(xs: seq<Item>, ys: seq<Item>)
    requires AllWellFormed(xs) && AllWellFormed(ys)
    ensures AllWellFormed(xs + ys)
    ensures EncodeAll(xs + ys) == EncodeAll(xs) + EncodeAll(ys)
    decreases |xs|
  {
    hide Encode;
    hide WellFormed;
    if xs == [] {
      assert xs + ys == ys;
    } else {
      assert (xs + ys)[1..] == xs[1..] + ys;
      EncodeAppend(xs[1..], ys);
    }
  }

  lemma EncodeOne(x: Item)
    requires WellFormed(x)
    ensures AllWellFormed([x]) && EncodeAll([x]) == Encode(x)
  {
    hide Encode;
    hide WellFormed;
    assert [x][1..] == [];
    assert EncodeAll([x]) == Encode(x) + EncodeAll([]);
  }

  lemma EncodeTwo(x: Item, y: Item)
    requires WellFormed(x) && WellFormed(y)
    ensures AllWellFormed([x, y]) && EncodeAll([x, y]) == Encode(x) + Encode(y)
  {
    hide Encode;
    hide WellFormed;
    EncodeOne(x);
    EncodeOne(y);
    EncodeAppend([x], [y]);
    assert [x] + [y] == [x, y];
  }

  /** The value under a text key, if any. */
  function Lookup(items: seq<Item>, key: seq<byte>): Option<Item> {
    if |items| < 2 then None
    else if items[0].Text? && items[0].b == key then Some(items[1])
    else Lookup(items[2..], key)
  }

  lemma {:induction false} LookupAt(items: seq<Item>, key: seq<byte>, at: nat)
    requires 2 * at + 1 < |items|
    requires items[2 * at].Text? && items[2 * at].b == key
    requires forall k :: 0 <= k < at ==> items[2 * k].Text? && items[2 * k].b != key
    ensures Lookup(items, key) == Some(items[2 * at + 1])
  {
    if at > 0 {
      assert items[2 * 0].b != key;
      var rest := items[2..];
      forall k | 0 <= k < at - 1 ensures rest[2 * k].Text? && rest[2 * k].b != key {
        assert rest[2 * k] == items[2 * (k + 1)];
      }
      LookupAt(rest, key, at - 1);
    }
  }
}
