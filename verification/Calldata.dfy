/** How the executor gets a worker's code out of the transaction that stored it
    (serverless/executor/src/workerd.rs:93-108): by position and by stripping zeros, without the
    length the transaction carries. */
module Calldata {
  import opened Bytes

  datatype Error = InvalidLength | InvalidCalldata | BadHex

  // ---- Hexadecimal -------------------------------------------------------------------------------

  function HexValue(c: char): (v: Option<nat>)
    ensures v.Some? ==> v.value < 16
  {
    if '0' <= c <= '9' then Some(c as int - '0' as int)
    else if 'a' <= c <= 'f' then Some(c as int - 'a' as int + 10)
    else if 'A' <= c <= 'F' then Some(c as int - 'A' as int + 10)
    else None
  }

  function HexDigit(n: nat): (c: char)
    requires n < 16
    ensures HexValue(c) == Some(n)
  {
    if n < 10 then '0' + n as char else 'a' + (n - 10) as char
  }

  /** `hex::decode`: pairs of digits of either case. */
  function HexDecode(s: string): Option<seq<byte>> {
    if s == "" then Some([])
    else if |s| == 1 || HexValue(s[0]).None? || HexValue(s[1]).None? then None
    else
      match HexDecode(s[2..])
      case None => None
      case Some(rest) => Some([HexValue(s[0]).value * 16 + HexValue(s[1]).value] + rest)
  }

  function HexEncode(b: seq<byte>): (s: string)
    ensures |s| == 2 * |b|
  {
    if b == [] then "" else [HexDigit(b[0] / 16), HexDigit(b[0] % 16)] + HexEncode(b[1..])
  }

  lemma {:induction false} HexRoundTrip(b: seq<byte>)
    ensures HexDecode(HexEncode(b)) == Some(b)
  {
    if b != [] {
      HexRoundTrip(b[1..]);
      assert HexEncode(b)[2..] == HexEncode(b[1..]);
      assert b == [b[0]] + b[1..];
    }
  }

  // ---- Stripping ------------------------------------------------------------------------------------

  predicate AllZero(b: seq<byte>) { forall i :: 0 <= i < |b| ==> b[i] == 0 }

  /** `b` without its trailing zeros, or `b` itself if there is nothing else in it. */
  function Stripped(b: seq<byte>): (r: seq<byte>)
    ensures r <= b
    ensures if AllZero(b) then r == b else r != [] && r[|r| - 1] != 0 && AllZero(b[|r|..])
  {
    if AllZero(b) || b[|b| - 1] != 0 then b else Stripped(b[..|b| - 1])
  }

  /** The search from the end and the truncation; a search that finds nothing counts as 0. */
  method StripTrailingZeros(calldata: seq<byte>) returns (r: seq<byte>)
    ensures r == Stripped(calldata)
  {
    var idx := 0;
    while idx < |calldata| && calldata[|calldata| - 1 - idx] == 0
      invariant idx <= |calldata|
      invariant AllZero(calldata[|calldata| - idx..])
    {
      idx := idx + 1;
    }
    if idx == |calldata| {
      // no such position
      idx := 0;
      assert calldata[0..] == calldata;
    }
    r := calldata[..|calldata| - idx];
    assert AllZero(calldata[|r|..]) || AllZero(calldata);
    StrippedIsUnique(calldata, r);
  }

  lemma StrippedIsUnique(b: seq<byte>, r: seq<byte>)
    requires r <= b
    requires if AllZero(b) then r == b else r != [] && r[|r| - 1] != 0 && AllZero(b[|r|..])
    ensures r == Stripped(b)
  {
    if !AllZero(b) {
      EndsInZero(b, r, Stripped(b));
      EndsInZero(b, Stripped(b), r);
    }
  }

  lemma EndsInZero(b: seq<byte>, short: seq<byte>, long: seq<byte>)
    requires short <= b && long <= b && AllZero(b[|short|..])
    ensures |short| < |long| ==> long[|long| - 1] == 0
  {
    if |short| < |long| {
      assert b[|short|..][|long| - 1 - |short|] == long[|long| - 1];
    }
  }

  // ---- The whole ----------------------------------------------------------------------------------------

  /** Selector and offset word. */
  const PREFIX := "0xff7cdaf3" + "00000000000000000000000000000000000000000000000000000000000000" + "20"

  method DecodeCode(calldata: string) returns (r: Result<seq<byte>, Error>)
    ensures r == Code(calldata)
  {
    if |calldata| < 138 {
      return Err(InvalidLength);
    }
    if !(PREFIX <= calldata) {
      return Err(InvalidCalldata);
    }
    var decoded := HexDecode(calldata[138..]);
    if decoded.None? {
      return Err(BadHex);
    }
    var code := StripTrailingZeros(decoded.value);
    r := Ok(code);
  }

  function Code(calldata: string): Result<seq<byte>, Error> {
    if |calldata| < 138 then Err(InvalidLength)
    else if !(PREFIX <= calldata) then Err(InvalidCalldata)
    else
      match HexDecode(calldata[138..])
      case None => Err(BadHex)
      case Some(b) => Ok(Stripped(b))
  }

  /** Hexadecimal text is pairs of digits, each pair a byte. */
  lemma {:induction false} HexExactly(s: string)
    ensures HexDecode(s).Some? <==> |s| % 2 == 0 && forall i :: 0 <= i < |s| ==> HexValue(s[i]).Some?
    ensures HexDecode(s).Some? ==>
      && |HexDecode(s).value| == |s| / 2
      && forall k :: 0 <= k < |s| / 2 ==>
           HexDecode(s).value[k] == 16 * HexValue(s[2 * k]).value + HexValue(s[2 * k + 1]).value
    decreases |s|
  {
    hide HexValue;
    if |s| >= 2 {
      var rest := s[2..];
      HexExactly(rest);
      assert forall i :: 0 <= i < |rest| ==> rest[i] == s[i + 2];
      assert (forall i :: 0 <= i < |s| ==> HexValue(s[i]).Some?)
         <==> HexValue(s[0]).Some? && HexValue(s[1]).Some? && forall i :: 0 <= i < |rest| ==> HexValue(rest[i]).Some?
      by {
        if forall i :: 0 <= i < |rest| ==> HexValue(rest[i]).Some? {
          forall i | 2 <= i < |s| ensures HexValue(s[i]).Some? == HexValue(rest[i - 2]).Some? {
          }
        }
      }
      if HexDecode(s).Some? {
        forall k | 0 <= k < |s| / 2
          ensures HexDecode(s).value[k] == 16 * HexValue(s[2 * k]).value + HexValue(s[2 * k + 1]).value
        {
          if k > 0 {
            assert HexDecode(s).value[k] == HexDecode(rest).value[k - 1];
            assert rest[2 * (k - 1)] == s[2 * k] && rest[2 * (k - 1) + 1] == s[2 * k + 1];
          }
        }
      }
    }
  }

  /** What is refused, and why: too short, another method or offset, or what follows the length word is not
      hexadecimal. */
  lemma RefusedExactly(calldata: string)
    ensures var zeros := "00000000000000000000000000000000000000000000000000000000000000";
      match Code(calldata)
      case Err(InvalidLength) => |calldata| < 138
      case Err(InvalidCalldata) => |calldata| >= 138 && calldata[..74] != "0xff7cdaf3" + zeros + "20"
      case Err(BadHex) =>
        && |calldata| >= 138 && calldata[..74] == "0xff7cdaf3" + zeros + "20"
        && (|calldata| % 2 == 1 || exists i :: 138 <= i < |calldata| && HexValue(calldata[i]).None?)
      case Ok(_) =>
        && |calldata| >= 138 && calldata[..74] == "0xff7cdaf3" + zeros + "20"
        && |calldata| % 2 == 0 && forall i :: 138 <= i < |calldata| ==> HexValue(calldata[i]).Some?
  {
    var zeros := "00000000000000000000000000000000000000000000000000000000000000";
    assert PREFIX == "0xff7cdaf3" + zeros + "20" && |zeros| == 62;
    hide PREFIX;
    hide Stripped;
    hide HexDecode;
    hide HexValue;
    if |calldata| >= 138 {
      HexFrom(calldata, 138);
      assert PREFIX <= calldata <==> calldata[..74] == PREFIX;
    }
  }

  lemma HexFrom(s: string, from: nat)
    requires from <= |s|
    ensures HexDecode(s[from..]).Some?
       <==> (|s| - from) % 2 == 0 && forall i :: from <= i < |s| ==> HexValue(s[i]).Some?
  {
    var rest := s[from..];
    HexExactly(rest);
    hide HexDecode;
    hide HexValue;
    assert forall i :: 0 <= i < |rest| ==> rest[i] == s[i + from];
    assert forall i :: from <= i < |s| ==> s[i] == rest[i - from];
  }

  /** The zeros that fill the last 32-byte word. */
  function Padding(n: nat): nat { (32 - n % 32) % 32 }

  /** A transaction that stores `code`: the prefix, a word with the length, the padded code. */
  function Stored(code: seq<byte>, length: string): string
    requires |length| == 64
  {
    PREFIX + length + HexEncode(code + Zeros(Padding(|code|)))
  }

  /** What a stored code reads back as. */
  lemma StoredReadsAs(code: seq<byte>, length: string)
    requires |length| == 64
    ensures Code(Stored(code, length)) == Ok(Stripped(code + Zeros(Padding(|code|))))
  {
    var padded := code + Zeros(Padding(|code|));
    assert |PREFIX| == 74;
    assert Stored(code, length)[138..] == HexEncode(padded);
    HexRoundTrip(padded);
  }

  /** A stored code is read back as it was exactly if it does not end in a zero byte, or is nothing
      but whole words of zeros; its length word plays no part. */
  lemma ReadBackIff(code: seq<byte>, length: string)
    requires |length| == 64
    ensures Code(Stored(code, length)) == Ok(code)
       <==> code == [] || code[|code| - 1] != 0 || (AllZero(code) && |code| % 32 == 0)
  {
    StoredReadsAs(code, length);
    hide Code;
    hide Stored;
    hide Stripped;
    PaddingStripped(code, Padding(|code|));
  }

  /** Stripping undoes padding unless it takes zeros of the code, or leaves those of the padding. */
  lemma PaddingStripped(code: seq<byte>, padding: nat)
    ensures Stripped(code + Zeros(padding)) == code
       <==> (code != [] && code[|code| - 1] != 0) || (AllZero(code) && padding == 0)
  {
    if AllZero(code) {
      ZerosKept(code, padding);
    } else {
      ZerosTaken(code, padding);
    }
    hide Stripped;
  }

  lemma ZerosKept(code: seq<byte>, padding: nat)
    requires AllZero(code)
    ensures Stripped(code + Zeros(padding)) == code + Zeros(padding)
    ensures Stripped(code + Zeros(padding)) == code <==> padding == 0
  {
    hide Stripped;
    var padded := code + Zeros(padding);
    assert AllZero(padded);
    assert |padded| == |code| + padding;
  }

  lemma ZerosTaken(code: seq<byte>, padding: nat)
    requires !AllZero(code)
    ensures code != []
    ensures Stripped(code + Zeros(padding)) == code <==> code[|code| - 1] != 0
  {
    hide Stripped;
    var padded := code + Zeros(padding);
    var i :| 0 <= i < |code| && code[i] != 0;
    assert padded[i] != 0;
    if code[|code| - 1] != 0 {
      assert padded[|code|..] == Zeros(padding);
      StrippedIsUnique(padded, code);
    }
  }
}
