/** The mock attestation server's hand-laid COSE_Sign1 document
    (attestation/server-custom-mock/src/lib.rs): a buffer of computed size filled at computed
    offsets. What it holds is the CBOR encoding of a document, and decoding that document gives
    the inputs back. */
module Attestation {
  import opened Bytes
  import opened Cbor

  datatype Error = PublicKeyTooLong | UserDataTooLong | NonceTooLong | PayloadTooBig | SigningFailed

  type Signature = s: seq<byte> | |s| == 96 ghost witness Zeros(96)

  /** The leaf and root certificates compiled into the server. */
  datatype Certificates = Certificates(leaf: seq<byte>, root: seq<byte>) {
    predicate Valid() { |leaf| == 466 && |root| == 404 }
  }

  function Ascii(s: string): (b: seq<byte>)
    ensures |b| == |s|
  {
    seq(|s|, i requires 0 <= i < |s| => s[i] as int % 256)
  }

  // ---- The document, as the standard describes it -------------------------------------------

  /** A map entry under a text key shorter than 24 bytes. */
  datatype Entry = Entry(key: string, value: Item) {
    predicate Valid() { |key| < 24 && WellFormed(value) }

    function Encoded(): seq<byte>
      requires Valid()
    {
      [0x60 + |key|] + Ascii(key) + Encode(value)
    }
  }

  function Flat(es: seq<Entry>): (items: seq<Item>)
    ensures |items| == 2 * |es|
  {
    if es == [] then [] else [Text(Ascii(es[0].key), W0), es[0].value] + Flat(es[1..])
  }

  /** The shortest width that holds a length below 2^16. */
  function WidthFor(n: nat): Width {
    if n < 24 then W0 else if n < 256 then W1 else W2
  }

  function Optional(o: Option<seq<byte>>): Item {
    match o case None => Null case Some(b) => Bytes(b, WidthFor(|b|))
  }

  /** The first `k` platform configuration registers, 48 bytes each. */
  function Pcrs(k: nat): (items: seq<Item>)
    ensures |items| == 2 * k
  {
    if k == 0 then [] else Pcrs(k - 1) + Pcr(k - 1)
  }

  function Pcr(k: nat): (items: seq<Item>)
    ensures |items| == 2
  {
    [Uint(k, W0), Bytes(Register(k), W1)]
  }

  function Register(k: nat): (b: seq<byte>)
    ensures |b| == 48
  {
    seq(48, _ => k % 256)
  }

  const MODULE_ID := "i-0d69bec447a037a2a-enc01939aab191aadd2"

  const U64 := 0x1_0000_0000_0000_0000

  function Fixed(millis: nat, certs: Certificates): seq<Entry> {
    [Entry("module_id", Text(Ascii(MODULE_ID), W1)),
     Entry("digest", Text(Ascii("SHA384"), W0)),
     Entry("timestamp", Uint(millis % U64, W8)),
     Entry("pcrs", Map(Pcrs(16), W0)),
     Entry("certificate", Bytes(certs.leaf, W2)),
     Entry("cabundle", Arr([Bytes(certs.root, W2)], W0))]
  }

  /** What the caller supplies. */
  datatype Claims = Claims(publicKey: Option<seq<byte>>, userData: Option<seq<byte>>, nonce: Option<seq<byte>>) {
    predicate Short() { Len(publicKey) <= 65535 && Len(userData) <= 65535 && Len(nonce) <= 65535 }

    function Entries(): seq<Entry> {
      [Entry("public_key", Optional(publicKey)),
       Entry("user_data", Optional(userData)),
       Entry("nonce", Optional(nonce))]
    }
  }

  function Len(o: Option<seq<byte>>): nat {
    match o case None => 0 case Some(b) => |b|
  }

  function AllEntries(c: Claims, millis: nat, certs: Certificates): seq<Entry> {
    Fixed(millis, certs) + c.Entries()
  }

  function PayloadItem(c: Claims, millis: nat, certs: Certificates): Item {
    Map(Flat(AllEntries(c, millis, certs)), W0)
  }

  /** The protected header {1: -35}: ES384. */
  function Protected(): seq<byte> {
    [0xa1, 0x01, 0x38, 0x22]
  }

  lemma ProtectedNamesES384()
    ensures WellFormed(Map([Uint(1, W0), Nint(34, W1)], W0))
    ensures Protected() == Encode(Map([Uint(1, W0), Nint(34, W1)], W0))
  {
    EncodeTwo(Uint(1, W0), Nint(34, W1));
    assert BigEndian(34, 1) == BigEndian(0, 0) + [34];
  }

  /** COSE_Sign1, section 4.2 of RFC 9052. */
  function Document(payload: seq<byte>, signature: seq<byte>): Item {
    Arr([Bytes(Protected(), W0), Map([], W0), Bytes(payload, W2), Bytes(signature, W1)], W0)
  }

  /** Sig_structure, section 4.4 of RFC 9052. */
  function SigStructure(protected: seq<byte>, payload: seq<byte>): Item {
    Arr([Text(Ascii("Signature1"), W0), Bytes(protected, W0), Bytes([], W0), Bytes(payload, W2)], W0)
  }

  /** The document the server should answer with, or the first check that fails. */
  function Expected(c: Claims, millis: nat, certs: Certificates, sign: seq<byte> -> Option<Signature>)
    : Result<seq<byte>, Error>
    requires certs.Valid()
  {
    if Len(c.publicKey) > 65535 then Err(PublicKeyTooLong)
    else if Len(c.userData) > 65535 then Err(UserDataTooLong)
    else if Len(c.nonce) > 65535 then Err(NonceTooLong)
    else
      var payload := Payload(c, millis, certs);
      if |payload| + 108 > 65535 then Err(PayloadTooBig)
      else
        SigStructureLayout(payload);
        match sign(Encode(SigStructure(Protected(), payload)))
        case None => Err(SigningFailed)
        case Some(signature) =>
          DocumentLayout(payload, signature);
          Ok(Encode(Document(payload, signature)))
  }

  lemma EncodeFour(a: Item, b: Item, c: Item, d: Item)
    requires WellFormed(a) && WellFormed(b) && WellFormed(c) && WellFormed(d)
    ensures WellFormed(Arr([a, b, c, d], W0))
    ensures Encode(Arr([a, b, c, d], W0)) == [0x84] + (Encode(a) + Encode(b) + Encode(c) + Encode(d))
  {
    FourItems(a, b, c, d);
    hide EncodeAll;
    hide AllWellFormed;
    assert Head(4, 4, W0) == [0x84];
  }

  lemma FourItems(a: Item, b: Item, c: Item, d: Item)
    requires WellFormed(a) && WellFormed(b) && WellFormed(c) && WellFormed(d)
    ensures AllWellFormed([a, b, c, d])
    ensures EncodeAll([a, b, c, d]) == Encode(a) + Encode(b) + Encode(c) + Encode(d)
  {
    hide Encode;
    hide WellFormed;
    EncodeTwo(a, b);
    EncodeTwo(c, d);
    EncodeAppend([a, b], [c, d]);
    hide EncodeAll;
    hide AllWellFormed;
    assert [a, b] + [c, d] == [a, b, c, d];
    Assoc(Encode(a) + Encode(b), Encode(c), Encode(d));
  }

  const COSE_HEADER: seq<byte> := [0x84, 0x44, 0xa1, 0x01, 0x38, 0x22, 0xa0, 0x59]

  lemma DocumentLayout(payload: seq<byte>, signature: Signature)
    requires |payload| < 0x1_0000
    ensures WellFormed(Document(payload, signature))
    ensures Encode(Document(payload, signature))
         == COSE_HEADER + BigEndian(|payload|, 2) + payload + ([0x58] + [0x60] + signature)
  {
    hide EncodeAll;
    hide AllWellFormed;
    hide WellFormed;
    hide Encode;
    hide BigEndian;
    var items := Document(payload, signature).items;
    DocumentItems(payload, signature);
    EncodeFour(items[0], items[1], items[2], items[3]);
    CoseLayout(BigEndian(|payload|, 2), payload, [0x58] + [0x60] + signature);
  }

  lemma CoseLayout(l: seq<byte>, p: seq<byte>, d: seq<byte>)
    ensures [0x84] + ([0x44, 0xa1, 0x01, 0x38, 0x22] + [0xa0] + ([0x59] + l + p) + d) == COSE_HEADER + l + p + d
  {
    var x: seq<byte> := [0x84] + ([0x44, 0xa1, 0x01, 0x38, 0x22] + [0xa0]);
    assert x + [0x59] == COSE_HEADER;
    assert [0x84] + ([0x44, 0xa1, 0x01, 0x38, 0x22] + [0xa0] + ([0x59] + l + p) + d) == x + ([0x59] + l + p) + d;
    Assoc(x, [0x59], l);
    Assoc(x, [0x59] + l, p);
  }

  lemma DocumentItems(payload: seq<byte>, signature: Signature)
    requires |payload| < 0x1_0000
    ensures WellFormed(Bytes(Protected(), W0)) && WellFormed(Map([], W0))
    ensures WellFormed(Bytes(payload, W2)) && WellFormed(Bytes(signature, W1))
    ensures Encode(Bytes(Protected(), W0)) == [0x44, 0xa1, 0x01, 0x38, 0x22]
    ensures Encode(Map([], W0)) == [0xa0]
    ensures Encode(Bytes(payload, W2)) == [0x59] + BigEndian(|payload|, 2) + payload
    ensures Encode(Bytes(signature, W1)) == [0x58] + [0x60] + signature
  {
    hide Protected;
    FixedItems();
    SignatureItem(signature);
  }

  lemma FixedItems()
    ensures |Protected()| == 4
    ensures Encode(Bytes(Protected(), W0)) == [0x44, 0xa1, 0x01, 0x38, 0x22]
    ensures WellFormed(Map([], W0)) && Encode(Map([], W0)) == [0xa0]
  {
    assert BigEndian(4, 0) == [] && BigEndian(0, 0) == [];
  }

  lemma SignatureItem(signature: Signature)
    ensures Encode(Bytes(signature, W1)) == [0x58] + [0x60] + signature
  {
    assert BigEndian(96, 1) == BigEndian(0, 0) + [96];
    assert Head(2, 96, W1) == [0x58] + [0x60];
  }

  /** The bytes the code feeds its hash. */
  lemma SigStructureLayout(payload: seq<byte>)
    requires |payload| < 0x1_0000
    ensures WellFormed(SigStructure(Protected(), payload))
    ensures Encode(SigStructure(Protected(), payload))
         == [0x84] + [0x6a] + Ascii("Signature1") + [0x44, 0xa1, 0x01, 0x38, 0x22] + [0x40]
          + ([0x59] + BigEndian(|payload|, 2)) + payload
  {
    hide Ascii;
    hide EncodeAll;
    hide AllWellFormed;
    hide WellFormed;
    hide Encode;
    hide BigEndian;
    var items := SigStructure(Protected(), payload).items;
    SigStructureItems();
    DocumentItems(payload, Zeros(96));
    EncodeFour(items[0], items[1], items[2], items[3]);
    SigLayout(Ascii("Signature1"), BigEndian(|payload|, 2), payload);
  }

  lemma SigLayout(t: seq<byte>, l: seq<byte>, p: seq<byte>)
    ensures [0x84] + ([0x6a] + t + [0x44, 0xa1, 0x01, 0x38, 0x22] + [0x40] + ([0x59] + l + p))
         == [0x84] + [0x6a] + t + [0x44, 0xa1, 0x01, 0x38, 0x22] + [0x40] + ([0x59] + l) + p
  {
    var x: seq<byte> := [0x84] + [0x6a] + t;
    var y: seq<byte> := x + [0x44, 0xa1, 0x01, 0x38, 0x22] + [0x40];
    Assoc([0x84], [0x6a], t);
    Assoc([0x84], [0x6a] + t, [0x44, 0xa1, 0x01, 0x38, 0x22]);
    Assoc([0x84], [0x6a] + t + [0x44, 0xa1, 0x01, 0x38, 0x22], [0x40]);
    Assoc([0x84], [0x6a] + t + [0x44, 0xa1, 0x01, 0x38, 0x22] + [0x40], [0x59] + l + p);
    Assoc(y, [0x59] + l, p);
  }

  lemma SigStructureItems()
    ensures WellFormed(Text(Ascii("Signature1"), W0)) && WellFormed(Bytes([], W0))
    ensures Encode(Text(Ascii("Signature1"), W0)) == [0x6a] + Ascii("Signature1")
    ensures Encode(Bytes([], W0)) == [0x40]
  {
    hide Ascii;
  }

  // ---- Encodings of entry lists ----------------------------------------------------------------

  predicate AllValid(es: seq<Entry>) {
    forall e :: e in es ==> e.Valid()
  }

  lemma EntryEncoding(e: Entry)
    requires e.Valid()
    ensures AllWellFormed([Text(Ascii(e.key), W0), e.value])
    ensures EncodeAll([Text(Ascii(e.key), W0), e.value]) == e.Encoded()
  {
    hide Ascii;
    var key := Text(Ascii(e.key), W0);
    EncodeTwo(key, e.value);
    assert Head(3, |e.key|, W0) == [0x60 + |e.key|];
  }

  lemma {:induction false} FlatWellFormed(es: seq<Entry>)
    requires AllValid(es)
    ensures AllWellFormed(Flat(es))
  {
    if es != [] {
      EntryEncoding(es[0]);
      FlatWellFormed(es[1..]);
      EncodeAppend([Text(Ascii(es[0].key), W0), es[0].value], Flat(es[1..]));
    }
  }

  lemma {:induction false} FlatAppend(xs: seq<Entry>, ys: seq<Entry>)
    ensures Flat(xs + ys) == Flat(xs) + Flat(ys)
  {
    if xs == [] {
      assert xs + ys == ys;
    } else {
      assert (xs + ys)[1..] == xs[1..] + ys;
      FlatAppend(xs[1..], ys);
    }
  }

  lemma {:induction false} FlatAt(es: seq<Entry>, k: nat)
    requires k < |es|
    ensures Flat(es)[2 * k] == Text(Ascii(es[k].key), W0) && Flat(es)[2 * k + 1] == es[k].value
  {
    if k > 0 {
      FlatAt(es[1..], k - 1);
    }
  }

  /** The start of a nine-entry map holding these entries. */
  function Laid(es: seq<Entry>): seq<byte>
    requires AllValid(es)
  {
    FlatWellFormed(es);
    [0xa9] + EncodeAll(Flat(es))
  }

  /** Laying one more entry: its key's head, its key and its value follow what is there. */
  lemma LaidStep(es: seq<Entry>, k: nat)
    requires AllValid(es) && k < |es|
    ensures AllValid(es[..k]) && AllValid(es[..k + 1])
    ensures Laid(es[..k + 1]) == Laid(es[..k]) + es[k].Encoded()
  {
    hide Encode;
    hide EncodeAll;
    hide AllWellFormed;
    hide WellFormed;
    hide Ascii;
    var e := es[k];
    var pair := [Text(Ascii(e.key), W0), e.value];
    assert es[..k + 1] == es[..k] + [e];
    FlatWellFormed(es[..k]);
    FlatAppend(es[..k], [e]);
    assert Flat([e]) == pair by { assert Flat([e]) == pair + Flat([]); }
    hide Flat;
    EntryEncoding(e);
    EncodeAppend(Flat(es[..k]), pair);
    Assoc([0xa9], EncodeAll(Flat(es[..k])), e.Encoded());
    hide Entry.Encoded;
  }

  lemma PcrEncoding(k: nat)
    requires k < 16
    ensures AllWellFormed(Pcr(k)) && |EncodeAll(Pcr(k))| == 51
    ensures EncodeAll(Pcr(k)) == [k] + [0x58] + [0x30] + Register(k)
  {
    EncodeTwo(Pcr(k)[0], Pcr(k)[1]);
    assert BigEndian(48, 1) == BigEndian(0, 0) + [48];
  }

  lemma {:induction false} PcrsWellFormed(k: nat)
    requires k <= 16
    ensures AllWellFormed(Pcrs(k)) && |EncodeAll(Pcrs(k))| == 51 * k
  {
    hide Encode;
    hide WellFormed;
    hide Pcr;
    if k > 0 {
      PcrsWellFormed(k - 1);
      PcrEncoding(k - 1);
      EncodeAppend(Pcrs(k - 1), Pcr(k - 1));
    }
  }

  // ---- Sizes -------------------------------------------------------------------------------------

  /** The lengths the code adds up before it allocates the buffer. */
  function EncodedLen(o: Option<seq<byte>>): nat {
    match o
    case None => 1
    case Some(b) => if |b| < 24 then 1 + |b| else if |b| < 256 then 2 + |b| else 3 + |b|
  }

  function PayloadSize(c: Claims): nat {
    1832 + EncodedLen(c.publicKey) + EncodedLen(c.userData) + EncodedLen(c.nonce)
  }

  lemma OptionalEncoding(o: Option<seq<byte>>)
    requires Len(o) <= 65535
    ensures WellFormed(Optional(o)) && |Encode(Optional(o))| == EncodedLen(o)
  {
  }

  lemma PcrsStep(x: seq<byte>, k: nat)
    requires k < 16
    ensures AllWellFormed(Pcrs(k)) && AllWellFormed(Pcrs(k + 1))
    ensures x + EncodeAll(Pcrs(k)) + [k] + [0x58] + [0x30] + Register(k) == x + EncodeAll(Pcrs(k + 1))
  {
    hide Encode;
    hide EncodeAll;
    hide AllWellFormed;
    hide Pcr;
    PcrsWellFormed(k);
    PcrEncoding(k);
    EncodeAppend(Pcrs(k), Pcr(k));
  }

  function FixedSize(k: nat): nat
    requires k < 6
  {
    [41, 7, 9, 817, 469, 408][k]
  }

  /** The fixed values are well formed, and take the space the code counts for them. */
  lemma FixedEncoding(millis: nat, certs: Certificates, k: nat)
    requires certs.Valid() && k < 6
    ensures Fixed(millis, certs)[k].Valid()
    ensures |Encode(Fixed(millis, certs)[k].value)| == FixedSize(k)
  {
    hide BigEndian;
    hide Ascii;
    hide EncodeAll;
    hide AllWellFormed;
    if k == 3 {
      hide Pcrs;
      PcrsWellFormed(16);
    } else if k == 5 {
      EncodeOne(Bytes(certs.root, W2));
    }
  }

  lemma FixedValid(millis: nat, certs: Certificates)
    requires certs.Valid()
    ensures AllValid(Fixed(millis, certs))
  {
    forall k | 0 <= k < 6 ensures Fixed(millis, certs)[k].Valid() {
      FixedEncoding(millis, certs, k);
    }
  }

  lemma EntriesValid(c: Claims, millis: nat, certs: Certificates)
    requires certs.Valid() && c.Short()
    ensures AllValid(AllEntries(c, millis, certs)) && WellFormed(PayloadItem(c, millis, certs))
  {
    FixedValid(millis, certs);
    OptionalEncoding(c.publicKey);
    OptionalEncoding(c.userData);
    OptionalEncoding(c.nonce);
    FlatWellFormed(AllEntries(c, millis, certs));
  }

  function Payload(c: Claims, millis: nat, certs: Certificates): seq<byte>
    requires certs.Valid() && c.Short()
  {
    EntriesValid(c, millis, certs);
    Encode(PayloadItem(c, millis, certs))
  }

  lemma PayloadIsLaid(c: Claims, millis: nat, certs: Certificates)
    requires certs.Valid() && c.Short()
    ensures AllValid(AllEntries(c, millis, certs))
    ensures Payload(c, millis, certs) == Laid(AllEntries(c, millis, certs))
  {
    EntriesValid(c, millis, certs);
    assert Head(5, 9, W0) == [0xa9];
  }

  /** What the `k`-th entry takes: head and key, then value. */
  function EntrySize(c: Claims, k: nat): nat
    requires k < 9
  {
    [10 + 41, 7 + 7, 10 + 9, 5 + 817, 12 + 469, 9 + 408,
     11 + EncodedLen(c.publicKey), 10 + EncodedLen(c.userData), 6 + EncodedLen(c.nonce)][k]
  }

  lemma EntrySizeIsExact(c: Claims, millis: nat, certs: Certificates, k: nat)
    requires certs.Valid() && c.Short() && k < 9
    ensures AllEntries(c, millis, certs)[k].Valid()
    ensures |AllEntries(c, millis, certs)[k].Encoded()| == EntrySize(c, k)
  {
    hide Encode;
    if k < 6 {
      FixedEncoding(millis, certs, k);
    }
    OptionalEncoding(c.publicKey);
    OptionalEncoding(c.userData);
    OptionalEncoding(c.nonce);
  }

  lemma LaidSize(c: Claims, millis: nat, certs: Certificates, k: nat)
    requires certs.Valid() && c.Short() && k < 9
    ensures AllValid(AllEntries(c, millis, certs))
    ensures |Laid(AllEntries(c, millis, certs)[..k + 1])|
         == |Laid(AllEntries(c, millis, certs)[..k])| + EntrySize(c, k)
  {
    hide Encode;
    hide Laid;
    EntriesValid(c, millis, certs);
    LaidStep(AllEntries(c, millis, certs), k);
    EntrySizeIsExact(c, millis, certs, k);
  }

  /** The sizes added up in advance are those of the encoding. */
  lemma PayloadSizeIsExact(c: Claims, millis: nat, certs: Certificates)
    requires certs.Valid() && c.Short()
    ensures |Payload(c, millis, certs)| == PayloadSize(c)
  {
    hide Payload;
    PayloadIsLaid(c, millis, certs);
    var es := AllEntries(c, millis, certs);
    assert |es| == 9;
    hide AllEntries;
    LaidSize(c, millis, certs, 0);
    LaidSize(c, millis, certs, 1);
    LaidSize(c, millis, certs, 2);
    LaidSize(c, millis, certs, 3);
    LaidSize(c, millis, certs, 4);
    LaidSize(c, millis, certs, 5);
    LaidSize(c, millis, certs, 6);
    LaidSize(c, millis, certs, 7);
    LaidSize(c, millis, certs, 8);
    assert es[..9] == es;
    assert Laid(es[..0]) == [0xa9];
  }

  // ---- What the code writes for each entry ---------------------------------------------------

  /** The payload up to its `k`-th entry. */
  function Prefix(c: Claims, millis: nat, certs: Certificates, k: nat): seq<byte>
    requires certs.Valid() && c.Short() && k <= 9
  {
    EntriesValid(c, millis, certs);
    Laid(AllEntries(c, millis, certs)[..k])
  }

  lemma PrefixEnds(c: Claims, millis: nat, certs: Certificates)
    requires certs.Valid() && c.Short()
    ensures Prefix(c, millis, certs, 0) == [0xa9]
    ensures Prefix(c, millis, certs, 9) == Payload(c, millis, certs)
  {
    hide Payload;
    EntriesValid(c, millis, certs);
    PayloadIsLaid(c, millis, certs);
    assert AllEntries(c, millis, certs)[..9] == AllEntries(c, millis, certs);
  }

  /** However the code cuts an entry into writes, the bytes are the entry's. */
  lemma PrefixStep(c: Claims, millis: nat, certs: Certificates, k: nat,
                   head: seq<byte>, key: seq<byte>, value: seq<byte>)
    requires certs.Valid() && c.Short() && k < 9
    requires var e := AllEntries(c, millis, certs)[k];
      e.Valid() && head == [0x60 + |e.key|] && key == Ascii(e.key) && value == Encode(e.value)
    ensures Prefix(c, millis, certs, k + 1) == Prefix(c, millis, certs, k) + head + key + value
    ensures Prefix(c, millis, certs, k + 1) == Prefix(c, millis, certs, k) + (head + key) + value
  {
    hide Encode;
    hide Ascii;
    hide Laid;
    EntriesValid(c, millis, certs);
    LaidStep(AllEntries(c, millis, certs), k);
    Assoc(Prefix(c, millis, certs, k), head, key);
    Assoc(Prefix(c, millis, certs, k), head + key, value);
  }

  lemma ModuleIdLaid(c: Claims, millis: nat, certs: Certificates)
    requires certs.Valid() && c.Short()
    ensures Prefix(c, millis, certs, 1)
         == Prefix(c, millis, certs, 0) + [0x69] + Ascii("module_id") + ([0x78, 0x27] + Ascii(MODULE_ID))
  {
    hide Ascii;
    hide Prefix;
    FixedEncoding(millis, certs, 0);
    assert BigEndian(39, 1) == BigEndian(0, 0) + [39];
    PrefixStep(c, millis, certs, 0, [0x69], Ascii("module_id"), [0x78, 0x27] + Ascii(MODULE_ID));
  }

  lemma DigestLaid(c: Claims, millis: nat, certs: Certificates)
    requires certs.Valid() && c.Short()
    ensures Prefix(c, millis, certs, 2)
         == Prefix(c, millis, certs, 1) + ([0x66] + Ascii("digest")) + ([0x66] + Ascii("SHA384"))
  {
    hide Ascii;
    hide Prefix;
    FixedEncoding(millis, certs, 1);
    PrefixStep(c, millis, certs, 1, [0x66], Ascii("digest"), [0x66] + Ascii("SHA384"));
  }

  lemma TimestampLaid(c: Claims, millis: nat, certs: Certificates)
    requires certs.Valid() && c.Short()
    ensures Prefix(c, millis, certs, 3)
         == Prefix(c, millis, certs, 2) + ([0x69] + Ascii("timestamp")) + [0x1b] + BigEndian(millis % U64, 8)
  {
    hide Ascii;
    hide Prefix;
    hide BigEndian;
    FixedEncoding(millis, certs, 2);
    PrefixStep(c, millis, certs, 2, [0x69], Ascii("timestamp"), [0x1b] + BigEndian(millis % U64, 8));
    Assoc(Prefix(c, millis, certs, 2) + ([0x69] + Ascii("timestamp")), [0x1b], BigEndian(millis % U64, 8));
  }

  lemma PcrsLaid(c: Claims, millis: nat, certs: Certificates)
    requires certs.Valid() && c.Short()
    ensures AllWellFormed(Pcrs(16))
    ensures Prefix(c, millis, certs, 4)
         == Prefix(c, millis, certs, 3) + ([0x64] + Ascii("pcrs")) + [0xb0] + EncodeAll(Pcrs(16))
  {
    hide Ascii;
    hide Prefix;
    hide Pcrs;
    hide EncodeAll;
    hide AllWellFormed;
    PcrsWellFormed(16);
    FixedEncoding(millis, certs, 3);
    PrefixStep(c, millis, certs, 3, [0x64], Ascii("pcrs"), [0xb0] + EncodeAll(Pcrs(16)));
    Assoc(Prefix(c, millis, certs, 3) + ([0x64] + Ascii("pcrs")), [0xb0], EncodeAll(Pcrs(16)));
  }

  lemma CertificateLaid(c: Claims, millis: nat, certs: Certificates)
    requires certs.Valid() && c.Short()
    ensures Prefix(c, millis, certs, 5) == Prefix(c, millis, certs, 4) + ([0x6b] + Ascii("certificate"))
                                         + [0x59] + BigEndian(466, 2) + certs.leaf
  {
    hide Ascii;
    hide Prefix;
    hide BigEndian;
    FixedEncoding(millis, certs, 4);
    PrefixStep(c, millis, certs, 4, [0x6b], Ascii("certificate"), [0x59] + BigEndian(466, 2) + certs.leaf);
    var x := Prefix(c, millis, certs, 4) + ([0x6b] + Ascii("certificate"));
    Assoc(x, [0x59], BigEndian(466, 2));
    Assoc(x, [0x59] + BigEndian(466, 2), certs.leaf);
  }

  lemma CabundleLaid(c: Claims, millis: nat, certs: Certificates)
    requires certs.Valid() && c.Short()
    ensures Prefix(c, millis, certs, 6) == Prefix(c, millis, certs, 5) + ([0x68] + Ascii("cabundle"))
                                         + [0x81] + [0x59] + BigEndian(404, 2) + certs.root
  {
    hide Ascii;
    hide Prefix;
    assert BigEndian(1, 0) == [];
    hide BigEndian;
    hide EncodeAll;
    hide AllWellFormed;
    FixedEncoding(millis, certs, 5);
    EncodeOne(Bytes(certs.root, W2));
    var value := [0x81] + ([0x59] + BigEndian(404, 2) + certs.root);
    PrefixStep(c, millis, certs, 5, [0x68], Ascii("cabundle"), value);
    var x := Prefix(c, millis, certs, 5) + ([0x68] + Ascii("cabundle"));
    FiveParts(x, [0x81], [0x59], BigEndian(404, 2), certs.root);
    hide Encode;
    hide FixedSize;
  }

  lemma FiveParts(x: seq<byte>, a: seq<byte>, b: seq<byte>, l: seq<byte>, r: seq<byte>)
    ensures x + (a + (b + l + r)) == x + a + b + l + r
  {
    Assoc(x, a, b + l + r);
    Assoc(x + a, b, l);
    Assoc(x + a, b + l, r);
  }

  lemma ClaimsLaid(c: Claims, millis: nat, certs: Certificates)
    requires certs.Valid() && c.Short()
    ensures WellFormed(Optional(c.publicKey)) && WellFormed(Optional(c.userData)) && WellFormed(Optional(c.nonce))
    ensures Prefix(c, millis, certs, 7)
         == Prefix(c, millis, certs, 6) + ([0x6a] + Ascii("public_key")) + Encode(Optional(c.publicKey))
    ensures Prefix(c, millis, certs, 8)
         == Prefix(c, millis, certs, 7) + ([0x69] + Ascii("user_data")) + Encode(Optional(c.userData))
    ensures Prefix(c, millis, certs, 9)
         == Prefix(c, millis, certs, 8) + ([0x65] + Ascii("nonce")) + Encode(Optional(c.nonce))
  {
    hide Ascii;
    hide Prefix;
    hide Encode;
    OptionalEncoding(c.publicKey);
    OptionalEncoding(c.userData);
    OptionalEncoding(c.nonce);
    PrefixStep(c, millis, certs, 6, [0x6a], Ascii("public_key"), Encode(Optional(c.publicKey)));
    PrefixStep(c, millis, certs, 7, [0x69], Ascii("user_data"), Encode(Optional(c.userData)));
    PrefixStep(c, millis, certs, 8, [0x65], Ascii("nonce"), Encode(Optional(c.nonce)));
  }

  // ---- The buffer --------------------------------------------------------------------------------

  /** A run of writes: `written` lies in the buffer from `from` on, nothing else has changed. */
  datatype Span = Span(before: seq<byte>, from: nat, written: seq<byte>) {
    predicate Holds(now: seq<byte>, end: nat) {
      && from <= end <= |before| == |now|
      && now[..from] == before[..from]
      && now[from..end] == written
      && now[end..] == before[end..]
    }
  }

  lemma SpanStep(w: Span, now: seq<byte>, later: seq<byte>, mid: nat, end: nat, b: seq<byte>)
    requires w.Holds(now, mid) && mid <= end <= |now| == |later|
    requires later[..mid] == now[..mid] && later[mid..end] == b && later[end..] == now[end..]
    ensures w.(written := w.written + b).Holds(later, end)
  {
    assert later[..w.from] == later[..mid][..w.from];
    assert later[w.from..mid] == later[..mid][w.from..] == now[..mid][w.from..] == now[w.from..mid];
    assert later[w.from..end] == later[w.from..mid] + later[mid..end];
    assert now[end..] == now[mid..][end - mid..];
    assert w.before[end..] == w.before[mid..][end - mid..];
  }

  /** `attestation[from..end].copy_from_slice(b)`, after the writes `w`. */
  method Put(a: array<byte>, from: nat, end: nat, b: seq<byte>, ghost w: Span) returns (ghost v: Span)
    requires from <= end <= a.Length && |b| == end - from
    requires w.Holds(a[..], from)
    modifies a
    ensures v == w.(written := w.written + b) && v.Holds(a[..], end)
  {
    ghost var now := a[..];
    forall i | from <= i < end {
      a[i] := b[i - from];
    }
    assert a[..][from..end] == b;
    assert a[..][..from] == now[..from] && a[..][end..] == now[end..];
    SpanStep(w, now, a[..], from, end, b);
    v := w.(written := w.written + b);
  }

  /** The inner `encode`: an optional byte string at `at`. */
  method EncodeOptional(a: array<byte>, at: nat, o: Option<seq<byte>>, ghost w: Span)
    returns (n: nat, ghost v: Span)
    requires Len(o) <= 65535 && at + EncodedLen(o) <= a.Length
    requires w.Holds(a[..], at)
    modifies a
    ensures n == EncodedLen(o) && WellFormed(Optional(o))
    ensures v == w.(written := w.written + Encode(Optional(o))) && v.Holds(a[..], at + n)
  {
    hide Span.Holds;
    hide HeadOf;
    hide Encode;
    OptionalLayout(o);
    match o
    case None =>
      v := Put(a, at, at + 1, [0xf6], w);
      n := 1;
    case Some(b) =>
      n, v := EncodeHead(a, at, |b|, w);
      v := Put(a, at + n, at + n + |b|, b, v);
      n := n + |b|;
      Assoc(w.written, HeadOf(|b|), b);
  }

  /** The bytes before a byte string of length `n`. */
  method EncodeHead(a: array<byte>, at: nat, n: nat, ghost w: Span) returns (k: nat, ghost v: Span)
    requires n <= 65535 && at + (if n < 24 then 1 else if n < 256 then 2 else 3) <= a.Length
    requires w.Holds(a[..], at)
    modifies a
    ensures k == if n < 24 then 1 else if n < 256 then 2 else 3
    ensures v == w.(written := w.written + HeadOf(n)) && v.Holds(a[..], at + k)
  {
    HeadBytes(w.written, n);
    hide Span.Holds;
    hide BigEndian;
    hide HeadOf;
    if n < 24 {
      v := Put(a, at, at + 1, [0x40 + n], w);
      k := 1;
    } else if n < 256 {
      v := Put(a, at, at + 1, [0x58], w);
      v := Put(a, at + 1, at + 2, [n], v);
      k := 2;
    } else {
      v := Put(a, at, at + 1, [0x59], w);
      v := Put(a, at + 1, at + 3, BigEndian(n, 2), v);
      k := 3;
    }
  }

  lemma HeadBytes(x: seq<byte>, n: nat)
    requires n < 0x1_0000
    ensures x + HeadOf(n)
         == if n < 24 then x + [0x40 + n] else if n < 256 then x + [0x58] + [n] else x + [0x59] + BigEndian(n, 2)
  {
    hide BigEndian;
  }

  function HeadOf(n: nat): seq<byte>
    requires n < 0x1_0000
  {
    if n < 24 then [0x40 + n] else if n < 256 then [0x58] + [n] else [0x59] + BigEndian(n, 2)
  }

  lemma OptionalLayout(o: Option<seq<byte>>)
    requires Len(o) <= 65535
    ensures WellFormed(Optional(o))
    ensures Encode(Optional(o)) == if o.None? then [0xf6] else HeadOf(|o.value|) + o.value
  {
    if o.Some? {
      var n := |o.value|;
      assert BigEndian(n, 1) == BigEndian(n / 256, 0) + [n % 256];
      assert Head(2, n, WidthFor(n)) == HeadOf(n);
    }
  }

  method WriteLabels(a: array<byte>, ghost millis: nat, ghost c: Claims, ghost certs: Certificates, ghost w: Span)
    returns (ghost v: Span)
    requires a.Length >= 1815 && certs.Valid() && c.Short()
    requires w.Holds(a[..], 10) && w.written == []
    modifies a
    ensures v == w.(written := Prefix(c, millis, certs, 2)) && v.Holds(a[..], 76)
  {
    hide Span.Holds;
    hide Ascii;
    hide Prefix;
    hide Payload;
    PrefixEnds(c, millis, certs);
    v := Put(a, 10, 11, [0xa9], w);
    v := Put(a, 11, 12, [0x69], v);
    v := Put(a, 12, 21, Ascii("module_id"), v);
    v := Put(a, 21, 62, [0x78, 0x27] + Ascii(MODULE_ID), v);
    ModuleIdLaid(c, millis, certs);
    v := Put(a, 62, 69, [0x66] + Ascii("digest"), v);
    v := Put(a, 69, 76, [0x66] + Ascii("SHA384"), v);
    DigestLaid(c, millis, certs);
  }

  method WriteTimestamp(a: array<byte>, millis: nat, ghost w: Span) returns (ghost v: Span)
    requires a.Length >= 1815
    requires w.Holds(a[..], 76)
    modifies a
    ensures v == w.(written := w.written + ([0x69] + Ascii("timestamp")) + [0x1b] + BigEndian(millis % U64, 8))
    ensures v.Holds(a[..], 95)
  {
    hide Span.Holds;
    hide Ascii;
    hide BigEndian;
    v := Put(a, 76, 86, [0x69] + Ascii("timestamp"), w);
    v := Put(a, 86, 87, [0x1b], v);
    v := Put(a, 87, 95, BigEndian(millis % U64, 8), v);
  }

  /** The body of the register loop. */
  method WritePcr(a: array<byte>, i: nat, ghost w: Span) returns (ghost v: Span)
    requires i < 16 && a.Length >= 1815
    requires w.Holds(a[..], 101 + i * 51)
    modifies a
    ensures v == w.(written := w.written + [i] + [0x58] + [0x30] + Register(i))
    ensures v.Holds(a[..], 101 + (i + 1) * 51)
  {
    hide Span.Holds;
    hide Register;
    v := Put(a, 101 + i * 51, 102 + i * 51, [i], w);
    v := Put(a, 102 + i * 51, 103 + i * 51, [0x58], v);
    v := Put(a, 103 + i * 51, 104 + i * 51, [0x30], v);
    v := Put(a, 104 + i * 51, 152 + i * 51, Register(i), v);
  }

  method WritePcrs(a: array<byte>, ghost w: Span) returns (ghost v: Span)
    requires a.Length >= 1815
    requires w.Holds(a[..], 95)
    modifies a
    ensures AllWellFormed(Pcrs(16))
    ensures v == w.(written := w.written + ([0x64] + Ascii("pcrs")) + [0xb0] + EncodeAll(Pcrs(16)))
    ensures v.Holds(a[..], 917)
  {
    hide Span.Holds;
    hide Ascii;
    hide EncodeAll;
    hide AllWellFormed;
    hide Pcrs;
    hide Register;
    v := Put(a, 95, 100, [0x64] + Ascii("pcrs"), w);
    v := Put(a, 100, 101, [0xb0], v);
    ghost var u := v;
    PcrsWellFormed(0);
    for i := 0 to 16
      invariant AllWellFormed(Pcrs(i))
      invariant v == u.(written := u.written + EncodeAll(Pcrs(i)))
      invariant v.Holds(a[..], 101 + i * 51)
    {
      v := WritePcr(a, i, v);
      PcrsStep(u.written, i);
    }
  }

  method WriteCertificates(a: array<byte>, certs: Certificates, ghost w: Span) returns (ghost v: Span)
    requires a.Length >= 1815 && certs.Valid()
    requires w.Holds(a[..], 917)
    modifies a
    ensures v == w.(written := w.written + ([0x6b] + Ascii("certificate")) + [0x59] + BigEndian(466, 2) + certs.leaf
                             + ([0x68] + Ascii("cabundle")) + [0x81] + [0x59] + BigEndian(404, 2) + certs.root)
    ensures v.Holds(a[..], 1815)
  {
    hide Span.Holds;
    hide Ascii;
    hide BigEndian;
    v := Put(a, 917, 929, [0x6b] + Ascii("certificate"), w);
    v := Put(a, 929, 930, [0x59], v);
    v := Put(a, 930, 932, BigEndian(|certs.leaf|, 2), v);
    v := Put(a, 932, 1398, certs.leaf, v);
    v := Put(a, 1398, 1407, [0x68] + Ascii("cabundle"), v);
    v := Put(a, 1407, 1408, [0x81], v);
    v := Put(a, 1408, 1409, [0x59], v);
    v := Put(a, 1409, 1411, BigEndian(|certs.root|, 2), v);
    v := Put(a, 1411, 1815, certs.root, v);
  }

  method WriteClaims(a: array<byte>, c: Claims, ghost millis: nat, ghost certs: Certificates, ghost w: Span)
    returns (offset: nat, ghost v: Span)
    requires certs.Valid() && c.Short() && a.Length >= 10 + PayloadSize(c)
    requires w.Holds(a[..], 1815) && w.written == Prefix(c, millis, certs, 6)
    modifies a
    ensures offset == 10 + PayloadSize(c)
    ensures v == w.(written := Payload(c, millis, certs)) && v.Holds(a[..], offset)
  {
    hide Span.Holds;
    hide Ascii;
    hide Encode;
    hide Prefix;
    hide Payload;
    hide EncodedLen;
    ClaimsLaid(c, millis, certs);
    PrefixEnds(c, millis, certs);
    offset := 1815;
    offset, v := WriteClaim(a, offset, [0x6a] + Ascii("public_key"), c.publicKey, w);
    offset, v := WriteClaim(a, offset, [0x69] + Ascii("user_data"), c.userData, v);
    offset, v := WriteClaim(a, offset, [0x65] + Ascii("nonce"), c.nonce, v);
  }

  /** A key and the optional byte string after it, at `at`. */
  method WriteClaim(a: array<byte>, at: nat, key: seq<byte>, o: Option<seq<byte>>, ghost w: Span)
    returns (offset: nat, ghost v: Span)
    requires Len(o) <= 65535 && at + |key| + EncodedLen(o) <= a.Length
    requires w.Holds(a[..], at)
    modifies a
    ensures offset == at + |key| + EncodedLen(o) && WellFormed(Optional(o))
    ensures v == w.(written := w.written + key + Encode(Optional(o))) && v.Holds(a[..], offset)
  {
    hide Span.Holds;
    hide Encode;
    offset := at;
    v := Put(a, offset, offset + |key|, key, w);
    offset := offset + |key|;
    var n;
    n, v := EncodeOptional(a, offset, o, v);
    offset := offset + n;
  }

  method WritePayload(a: array<byte>, c: Claims, millis: nat, certs: Certificates) returns (offset: nat)
    requires certs.Valid() && c.Short() && a.Length == PayloadSize(c) + 108
    modifies a
    ensures offset == 10 + PayloadSize(c)
    ensures a[10..offset] == Payload(c, millis, certs)
  {
    hide BigEndian;
    hide Ascii;
    hide Prefix;
    hide Payload;
    hide EncodeAll;
    hide AllWellFormed;
    assert PayloadSize(c) >= 1832;
    hide EncodedLen;
    ghost var w := Span(a[..], 10, []);
    w := WriteLabels(a, millis, c, certs, w);
    w := WriteTimestamp(a, millis, w);
    TimestampLaid(c, millis, certs);
    w := WritePcrs(a, w);
    PcrsLaid(c, millis, certs);
    w := WriteCertificates(a, certs, w);
    CertificateLaid(c, millis, certs);
    CabundleLaid(c, millis, certs);
    offset, w := WriteClaims(a, c, millis, certs, w);
  }

  /** The COSE fields around the payload; the signature is still to come. */
  method WriteCose(a: array<byte>, payloadSize: nat, offset: nat)
    requires payloadSize < 0x1_0000 && offset == 10 + payloadSize && a.Length == offset + 98
    modifies a
    ensures a[..10] == COSE_HEADER + BigEndian(payloadSize, 2)
    ensures a[10..offset] == old(a[10..offset])
    ensures a[offset..offset + 2] == [0x58] + [0x60]
  {
    hide BigEndian;
    ghost var s0 := a[..];
    ghost var v := Put(a, 0, 8, COSE_HEADER, Span(s0, 0, []));
    v := Put(a, 8, 10, BigEndian(payloadSize, 2), v);
    ghost var s1 := a[..];
    assert s1[10..offset] == s1[10..][..payloadSize] == s0[10..][..payloadSize] == s0[10..offset];
    v := Put(a, offset, offset + 1, [0x58], Span(s1, offset, []));
    v := Put(a, offset + 1, offset + 2, [0x60], v);
    ghost var s2 := a[..];
    assert s2[10..offset] == s2[..offset][10..] == s1[..offset][10..] == s1[10..offset];
    assert s2[..10] == s2[..offset][..10] == s1[..offset][..10] == s1[..10];
  }

  method WriteSignature(a: array<byte>, offset: nat, signature: Signature)
    requires a.Length == offset + 98
    modifies a
    ensures a[..offset + 2] == old(a[..offset + 2]) && a[offset + 2..] == signature
  {
    ghost var v := Put(a, offset + 2, offset + 98, signature, Span(a[..], offset + 2, []));
    assert v.written == signature;
    assert a[offset + 2..] == a[..][offset + 2..offset + 98];
  }

  /** `get_attestation_doc`: what lies in the buffer is the document. */
  method GetAttestationDoc(c: Claims, millis: nat, certs: Certificates, sign: seq<byte> -> Option<Signature>)
    returns (r: Result<seq<byte>, Error>)
    requires certs.Valid()
    ensures r == Expected(c, millis, certs, sign)
  {
    hide Ascii;
    hide BigEndian;
    hide Encode;
    hide Payload;
    hide EncodedLen;
    if Len(c.publicKey) > 65535 {
      return Err(PublicKeyTooLong);
    }
    if Len(c.userData) > 65535 {
      return Err(UserDataTooLong);
    }
    if Len(c.nonce) > 65535 {
      return Err(NonceTooLong);
    }
    var payloadSize := PayloadSize(c);
    var totalSize := payloadSize + 108;
    PayloadSizeIsExact(c, millis, certs);
    if totalSize > 65535 {
      return Err(PayloadTooBig);
    }
    ghost var payload := Payload(c, millis, certs);
    var attestation := new byte[totalSize](_ => 0);
    var offset := WritePayload(attestation, c, millis, certs);
    WriteCose(attestation, payloadSize, offset);

    SigStructureLayout(payload);
    var hashed := [0x84];
    hashed := hashed + [0x6a];
    hashed := hashed + Ascii("Signature1");
    hashed := hashed + [0x44, 0xa1, 0x01, 0x38, 0x22];
    hashed := hashed + [0x40];
    hashed := hashed + [0x59, attestation[8], attestation[9]];
    hashed := hashed + attestation[10..10 + payloadSize];
    assert [0x59, attestation[8], attestation[9]] == [0x59] + BigEndian(payloadSize, 2) by {
      assert attestation[8] == attestation[..10][8] && attestation[9] == attestation[..10][9];
    }
    match sign(hashed)
    case None =>
      r := Err(SigningFailed);
    case Some(signature) =>
      ghost var s0 := attestation[..];
      WriteSignature(attestation, offset, signature);
      DocumentLayout(payload, signature);
      Joined(s0, attestation[..], offset, signature);
      r := Ok(attestation[..]);
  }

  lemma Joined(s0: seq<byte>, s1: seq<byte>, offset: nat, signature: Signature)
    requires 10 <= offset && |s0| == |s1| == offset + 98
    requires s1[..offset + 2] == s0[..offset + 2] && s1[offset + 2..] == signature
    ensures s1 == s0[..10] + s0[10..offset] + (s0[offset..offset + 2] + signature)
  {
    assert s1 == s1[..offset + 2] + s1[offset + 2..];
  }

  // ---- Reading the document back -----------------------------------------------------------------

  /** What a verifier takes out of the payload, and out of a document. */
  datatype Contents = Contents(moduleId: seq<byte>, digest: seq<byte>, millis: nat, registers: seq<seq<byte>>,
                               certificate: seq<byte>, authorities: seq<seq<byte>>, claims: Claims)

  datatype Opened = Opened(contents: Contents, payload: seq<byte>, signed: seq<byte>, signature: seq<byte>)

  /** Byte strings keyed 0, 1, 2 and so on. */
  function RegistersOf(items: seq<Item>): Option<seq<seq<byte>>> {
    if items == [] then Some([])
    else if |items| == 1 then None
    else
      var n := |items| - 2;
      match (RegistersOf(items[..n]), items[n], items[n + 1])
      case (Some(rs), Uint(k, _), Bytes(b, _)) => if k == |rs| then Some(rs + [b]) else None
      case _ => None
  }

  function BytesOf(items: seq<Item>): Option<seq<seq<byte>>> {
    if items == [] then Some([])
    else
      match (items[0], BytesOf(items[1..]))
      case (Bytes(b, _), Some(bs)) => Some([b] + bs)
      case _ => None
  }

  /** An optional byte string: absent is not empty. */
  function OptionalOf(i: Option<Item>): Option<Option<seq<byte>>> {
    match i
    case Some(Null) => Some(None)
    case Some(Bytes(b, _)) => Some(Some(b))
    case _ => None
  }

  function OpenPayload(items: seq<Item>): Option<Contents> {
    match (OpenClaims(items), Lookup(items, Ascii("module_id")), Lookup(items, Ascii("digest")),
           Lookup(items, Ascii("timestamp")), Lookup(items, Ascii("pcrs")), Lookup(items, Ascii("certificate")),
           Lookup(items, Ascii("cabundle")))
    case (Some(claims), Some(Text(m, _)), Some(Text(d, _)), Some(Uint(t, _)), Some(Map(rs, _)), Some(Bytes(c, _)),
          Some(Arr(cas, _))) =>
      (match (RegistersOf(rs), BytesOf(cas))
       case (Some(registers), Some(authorities)) => Some(Contents(m, d, t, registers, c, authorities, claims))
       case _ => None)
    case _ => None
  }

  function OpenClaims(items: seq<Item>): Option<Claims> {
    match (OptionalOf(Lookup(items, Ascii("public_key"))), OptionalOf(Lookup(items, Ascii("user_data"))),
           OptionalOf(Lookup(items, Ascii("nonce"))))
    case (Some(p), Some(u), Some(n)) => Some(Claims(p, u, n))
    case _ => None
  }

  /** A COSE_Sign1 decoder: four items, the third a payload that is a map. */
  function Open(document: seq<byte>): Option<Opened> {
    match Decode(document)
    case Some((Arr(items, _), rest)) =>
      if rest != [] || |items| != 4 then None
      else if !items[0].Bytes? || !items[1].Map? || !items[2].Bytes? || !items[3].Bytes? then None
      else if !WellFormed(SigStructure(items[0].b, items[2].b)) then None
      else
        (match Decode(items[2].b)
         case Some((Map(entries, _), after)) =>
           (match OpenPayload(entries)
            case Some(contents) =>
              if after != [] then None
              else Some(Opened(contents, items[2].b, Encode(SigStructure(items[0].b, items[2].b)), items[3].b))
            case None => None)
         case _ => None)
    case _ => None
  }

  lemma EntryAt(es: seq<Entry>, key: string, at: nat)
    requires at < |es| && es[at].key == key
    requires forall k :: 0 <= k < at ==> Ascii(es[k].key) != Ascii(key)
    ensures Lookup(Flat(es), Ascii(key)) == Some(es[at].value)
  {
    hide Ascii;
    forall k | 0 <= k < |es|
      ensures Flat(es)[2 * k] == Text(Ascii(es[k].key), W0) && Flat(es)[2 * k + 1] == es[k].value
    {
      FlatAt(es, k);
    }
    LookupAt(Flat(es), Ascii(key), at);
  }

  function Keys(): seq<string> {
    ["module_id", "digest", "timestamp", "pcrs", "certificate", "cabundle", "public_key", "user_data", "nonce"]
  }

  /** The keys have different lengths but for three, which begin differently. */
  lemma KeyMark(i: nat)
    requires i < 9
    ensures |Ascii(Keys()[i])| == [9, 6, 9, 4, 11, 8, 10, 9, 5][i]
    ensures Ascii(Keys()[i])[0] as char == ['m', 'd', 't', 'p', 'c', 'c', 'p', 'u', 'n'][i]
  {
  }

  lemma KeysDiffer(i: nat, k: nat)
    requires i < k < 9
    ensures Ascii(Keys()[i]) != Ascii(Keys()[k])
  {
    KeyMark(i);
    KeyMark(k);
    hide Ascii;
    hide Keys;
  }

  lemma EntryOf(c: Claims, millis: nat, certs: Certificates, at: nat)
    requires at < 9
    ensures Lookup(Flat(AllEntries(c, millis, certs)), Ascii(Keys()[at]))
         == Some(AllEntries(c, millis, certs)[at].value)
  {
    var es := AllEntries(c, millis, certs);
    assert forall k :: 0 <= k < 9 ==> es[k].key == Keys()[k];
    hide Ascii;
    hide Flat;
    hide Lookup;
    hide Keys;
    hide AllEntries;
    forall k | 0 <= k < at ensures Ascii(es[k].key) != Ascii(Keys()[at]) {
      KeysDiffer(k, at);
    }
    EntryAt(es, Keys()[at], at);
  }

  function Registers(n: nat): (rs: seq<seq<byte>>)
    ensures |rs| == n && forall k :: 0 <= k < n ==> rs[k] == Register(k)
  {
    if n == 0 then [] else Registers(n - 1) + [Register(n - 1)]
  }

  lemma {:induction false} RegistersDecode(n: nat)
    ensures RegistersOf(Pcrs(n)) == Some(Registers(n))
  {
    hide Register;
    if n > 0 {
      RegistersDecode(n - 1);
      assert Pcrs(n)[..2 * n - 2] == Pcrs(n - 1);
    }
  }

  /** What the document says besides the claims. */
  function Said(c: Claims, millis: nat, certs: Certificates): Contents {
    Contents(Ascii(MODULE_ID), Ascii("SHA384"), millis % U64, Registers(16),
             certs.leaf, [certs.root], c)
  }

  lemma FixedAre(c: Claims, millis: nat, certs: Certificates)
    ensures var es := AllEntries(c, millis, certs);
      && es[0].value == Text(Ascii(MODULE_ID), W1) && es[1].value == Text(Ascii("SHA384"), W0)
      && es[2].value == Uint(millis % U64, W8) && es[3].value == Map(Pcrs(16), W0)
      && es[4].value == Bytes(certs.leaf, W2) && es[5].value == Arr([Bytes(certs.root, W2)], W0)
  {
  }

  lemma FixedLookups(c: Claims, millis: nat, certs: Certificates)
    ensures var items := Flat(AllEntries(c, millis, certs));
      && Lookup(items, Ascii("module_id")) == Some(Text(Ascii(MODULE_ID), W1))
      && Lookup(items, Ascii("digest")) == Some(Text(Ascii("SHA384"), W0))
      && Lookup(items, Ascii("timestamp")) == Some(Uint(millis % U64, W8))
      && Lookup(items, Ascii("pcrs")) == Some(Map(Pcrs(16), W0))
      && Lookup(items, Ascii("certificate")) == Some(Bytes(certs.leaf, W2))
      && Lookup(items, Ascii("cabundle")) == Some(Arr([Bytes(certs.root, W2)], W0))
  {
    FixedAre(c, millis, certs);
    hide Flat;
    hide Lookup;
    hide Ascii;
    hide Pcrs;
    hide AllEntries;
    EntryOf(c, millis, certs, 0);
    EntryOf(c, millis, certs, 1);
    EntryOf(c, millis, certs, 2);
    EntryOf(c, millis, certs, 3);
    EntryOf(c, millis, certs, 4);
    EntryOf(c, millis, certs, 5);
  }

  lemma PayloadOpens(c: Claims, millis: nat, certs: Certificates)
    ensures OpenPayload(Flat(AllEntries(c, millis, certs))) == Some(Said(c, millis, certs))
  {
    hide Flat;
    hide Lookup;
    hide Ascii;
    hide AllEntries;
    hide Pcrs;
    hide Registers;
    hide RegistersOf;
    hide BytesOf;
    hide OpenClaims;
    hide OpenPayload;
    hide Register;
    ClaimsOpen(c, millis, certs);
    RegistersDecode(16);
    RootDecodes(certs);
    FixedLookups(c, millis, certs);
    OpensTo(Flat(AllEntries(c, millis, certs)), c, Ascii(MODULE_ID), Ascii("SHA384"), millis % U64, Pcrs(16),
            certs.leaf, [Bytes(certs.root, W2)]);
  }

  lemma OpensTo(items: seq<Item>, claims: Claims, moduleId: seq<byte>, digest: seq<byte>, millis: nat,
                registers: seq<Item>, certificate: seq<byte>, authorities: seq<Item>)
    requires OpenClaims(items) == Some(claims)
    requires Lookup(items, Ascii("module_id")) == Some(Text(moduleId, W1))
    requires Lookup(items, Ascii("digest")) == Some(Text(digest, W0))
    requires Lookup(items, Ascii("timestamp")) == Some(Uint(millis, W8))
    requires Lookup(items, Ascii("pcrs")) == Some(Map(registers, W0))
    requires Lookup(items, Ascii("certificate")) == Some(Bytes(certificate, W2))
    requires Lookup(items, Ascii("cabundle")) == Some(Arr(authorities, W0))
    requires RegistersOf(registers).Some? && BytesOf(authorities).Some?
    ensures OpenPayload(items)
         == Some(Contents(moduleId, digest, millis, RegistersOf(registers).value, certificate,
                          BytesOf(authorities).value, claims))
  {
    hide Lookup;
    hide Ascii;
    hide RegistersOf;
    hide BytesOf;
    hide OpenClaims;
  }

  lemma RootDecodes(certs: Certificates)
    ensures BytesOf([Bytes(certs.root, W2)]) == Some([certs.root])
  {
    assert [Bytes(certs.root, W2)][1..] == [] && BytesOf([]) == Some([]);
    assert [certs.root] + [] == [certs.root];
  }

  lemma ClaimsOpen(c: Claims, millis: nat, certs: Certificates)
    ensures OpenClaims(Flat(AllEntries(c, millis, certs))) == Some(c)
  {
    EntryOf(c, millis, certs, 6);
    EntryOf(c, millis, certs, 7);
    EntryOf(c, millis, certs, 8);
    hide Flat;
    hide Lookup;
    hide Ascii;
  }

  /** The sixteen registers are 48 bytes each, all of them the register's number. */
  lemma RegistersSaid(c: Claims, millis: nat, certs: Certificates, k: nat, i: nat)
    requires k < 16 && i < 48
    ensures |Said(c, millis, certs).registers| == 16 && |Said(c, millis, certs).registers[k]| == 48
    ensures Said(c, millis, certs).registers[k][i] == k
  {
    assert Said(c, millis, certs).registers[k] == Register(k);
  }

  // ---- What is refused ---------------------------------------------------------------------------

  /** A document is refused for a claim beyond 65535 bytes, the first in this order, then for a size beyond
      65535, all of it but the claims being 1940 bytes, then for want of a signature. */
  lemma RefusedExactly(c: Claims, millis: nat, certs: Certificates, sign: seq<byte> -> Option<Signature>)
    requires certs.Valid()
    ensures var r := Expected(c, millis, certs, sign);
      if c.publicKey.Some? && |c.publicKey.value| > 65535 then r == Err(PublicKeyTooLong)
      else if c.userData.Some? && |c.userData.value| > 65535 then r == Err(UserDataTooLong)
      else if c.nonce.Some? && |c.nonce.value| > 65535 then r == Err(NonceTooLong)
      else
        && WellFormed(Optional(c.publicKey)) && WellFormed(Optional(c.userData)) && WellFormed(Optional(c.nonce))
        && if 1940 + |Encode(Optional(c.publicKey))| + |Encode(Optional(c.userData))| + |Encode(Optional(c.nonce))|
              > 65535
           then r == Err(PayloadTooBig)
           else r == Err(SigningFailed) || (r.Ok? && |r.value| <= 65535)
  {
    if c.Short() {
      PayloadSizeIsExact(c, millis, certs);
      OptionalEncoding(c.publicKey);
      OptionalEncoding(c.userData);
      OptionalEncoding(c.nonce);
      hide Encode;
      hide WellFormed;
      hide Payload;
      hide EncodedLen;
      var payload := Payload(c, millis, certs);
      if |payload| + 108 <= 65535 {
        SigStructureLayout(payload);
        var signature := sign(Encode(SigStructure(Protected(), payload)));
        if signature.Some? {
          DocumentLayout(payload, signature.value);
        }
      }
    }
  }

  /** The bytes a claim takes: its own, and a head that grows with them; one if it is absent. */
  lemma ClaimSize(o: Option<seq<byte>>)
    requires Len(o) <= 65535
    ensures WellFormed(Optional(o))
    ensures |Encode(Optional(o))|
         == (match o case None => 1
             case Some(b) => |b| + if |b| <= 23 then 1 else if |b| <= 255 then 2 else 3)
  {
    OptionalEncoding(o);
  }

  /** The printer is undone by the decoder: the claims, the time, the payload, the bytes the
      signature is over, the signature, and all else that the document says come back. */
  lemma DecoderUndoesPrinter(c: Claims, millis: nat, certs: Certificates, sign: seq<byte> -> Option<Signature>)
    requires certs.Valid() && Expected(c, millis, certs, sign).Ok?
    ensures c.Short() && |Payload(c, millis, certs)| < 0x1_0000
    ensures WellFormed(SigStructure(Protected(), Payload(c, millis, certs)))
    ensures var payload := Payload(c, millis, certs);
            var signed := Encode(SigStructure(Protected(), payload));
            && sign(signed).Some?
            && Open(Expected(c, millis, certs, sign).value)
               == Some(Opened(Said(c, millis, certs), payload, signed, sign(signed).value))
  {
    hide Encode;
    hide Decode;
    hide OpenPayload;
    hide Payload;
    hide AllEntries;
    var payload := Payload(c, millis, certs);
    SigStructureLayout(payload);
    var signature := sign(Encode(SigStructure(Protected(), payload))).value;
    DocumentLayout(payload, signature);
    RoundTrip(Document(payload, signature), []);
    var document := Encode(Document(payload, signature));
    assert document + [] == document;
    assert payload + [] == payload;
    PayloadDecodes(c, millis, certs);
    PayloadOpens(c, millis, certs);
  }

  lemma PayloadDecodes(c: Claims, millis: nat, certs: Certificates)
    requires certs.Valid() && c.Short()
    ensures Decode(Payload(c, millis, certs)) == Some((PayloadItem(c, millis, certs), []))
  {
    EntriesValid(c, millis, certs);
    hide Encode;
    hide Decode;
    hide WellFormed;
    hide PayloadItem;
    RoundTrip(PayloadItem(c, millis, certs), []);
    assert Payload(c, millis, certs) + [] == Payload(c, millis, certs);
  }

  /** Documents that carry different claims differ, an absent claim from an empty one too. */
  lemma DocumentsDetermineClaims(c: Claims, d: Claims, t: nat, u: nat, certs: Certificates,
                                 sign: seq<byte> -> Option<Signature>)
    requires certs.Valid() && Expected(c, t, certs, sign).Ok?
    requires Expected(c, t, certs, sign) == Expected(d, u, certs, sign)
    ensures c == d && t % U64 == u % U64
  {
    hide Expected;
    hide Open;
    DecoderUndoesPrinter(c, t, certs, sign);
    DecoderUndoesPrinter(d, u, certs, sign);
  }
}
