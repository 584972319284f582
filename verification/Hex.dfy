/** Hash strings (`decode_hex32` of src/data/ss58.rs). */
module Hex {
  import opened Wrappers
  import opened Bytes

  function Digit(c: char): (r: Option<nat>)
    ensures r.Some? ==> r.value < 16
  {
    if '0' <= c <= '9' then Some((c - '0') as nat)
    else if 'a' <= c <= 'f' then Some((c - 'a') as nat + 10)
    else if 'A' <= c <= 'F' then Some((c - 'A') as nat + 10)
    else None
  }

  predicate AllHexDigits(s: string) {
    forall i :: 0 <= i < |s| ==> Digit(s[i]).Some?
  }

  function HexChar(d: nat): char
    requires d < 16
  {
    "0123456789abcdef"[d]
  }

  /** `strip_prefix("0x")`, when it is there. */
  function Body(s: string): string {
    if |s| >= 2 && s[..2] == "0x" then s[2..] else s
  }

  function ByteOf(hi: nat, lo: nat): byte
    requires hi < 16 && lo < 16
  {
    (16 * hi + lo) as byte
  }

  function DecodePairs(s: string): (r: Option<seq<byte>>)
    requires |s| % 2 == 0
    ensures r.Some? ==> |r.value| == |s| / 2
    decreases |s|
  {
    if s == [] then Some([])
    else
      var hi, lo, rest := Digit(s[0]), Digit(s[1]), DecodePairs(s[2..]);
      if hi.None? || lo.None? || rest.None? then None
      else Some([ByteOf(hi.value, lo.value)] + rest.value)
  }

  function DecodeHex32(s: string): (r: Option<Hash>)
    ensures r.Some? ==> |r.value| == 32
  {
    if |Body(s)| != 64 then None else DecodePairs(Body(s))
  }

  function EncodeHex(h: seq<byte>): string {
    if h == [] then []
    else [HexChar(h[0] as nat / 16), HexChar(h[0] as nat % 16)] + EncodeHex(h[1..])
  }

  lemma DigitOfChar(d: nat)
    requires d < 16
    ensures Digit(HexChar(d)) == Some(d)
  {
  }

  lemma DecodePair(hi: nat, lo: nat, s: string)
    requires hi < 16 && lo < 16 && |s| % 2 == 0 && DecodePairs(s).Some?
    ensures DecodePairs([HexChar(hi), HexChar(lo)] + s) == Some([ByteOf(hi, lo)] + DecodePairs(s).value)
  {
    DigitOfChar(hi);
    DigitOfChar(lo);
    hide Digit, HexChar, ByteOf;
    var t := [HexChar(hi), HexChar(lo)] + s;
    assert t[2..] == s;
  }

  lemma ByteOfHalves(b: byte)
    ensures b as nat / 16 < 16 && ByteOf(b as nat / 16, b as nat % 16) == b
  {
  }

  lemma AllHexDigitsPair(hi: nat, lo: nat, s: string)
    requires hi < 16 && lo < 16 && AllHexDigits(s)
    ensures AllHexDigits([HexChar(hi), HexChar(lo)] + s)
  {
    DigitOfChar(hi);
    DigitOfChar(lo);
  }

  lemma {:induction false} DecodeEncoded(h: seq<byte>)
    ensures |EncodeHex(h)| == 2 * |h| && AllHexDigits(EncodeHex(h))
    ensures DecodePairs(EncodeHex(h)) == Some(h)
    decreases |h|
  {
    if h != [] {
      hide DecodePairs, AllHexDigits, HexChar, ByteOf;
      var rest := h[1..];
      DecodeEncoded(rest);
      var hi, lo := h[0] as nat / 16, h[0] as nat % 16;
      DecodePair(hi, lo, EncodeHex(rest));
      AllHexDigitsPair(hi, lo, EncodeHex(rest));
      ByteOfHalves(h[0]);
      assert h == [h[0]] + rest;
    }
  }

  /** A printed hash decodes to itself, with or without its prefix. */
  lemma HexRoundTrip(h: Hash)
    requires |h| == 32
    ensures DecodeHex32(EncodeHex(h)) == Some(h)
    ensures DecodeHex32("0x" + EncodeHex(h)) == Some(h)
  {
    DecodeEncoded(h);
    var s := EncodeHex(h);
    assert Digit(s[1]).Some? && Digit('x') == None;
    assert s[..2][1] == s[1] != "0x"[1];
    assert Body("0x" + s) == s;
  }

  /** The lower-case form of a string of hex digits. */
  function Lower(s: string): string
    requires AllHexDigits(s)
  {
    seq(|s|, i requires 0 <= i < |s| => "0123456789abcdef"[Digit(s[i]).value])
  }

  lemma AllHexDigitsSplit(s: string)
    requires |s| >= 2
    ensures AllHexDigits(s) <==> Digit(s[0]).Some? && Digit(s[1]).Some? && AllHexDigits(s[2..])
  {
    assert forall i :: 0 <= i < |s| - 2 ==> s[2..][i] == s[i + 2];
    if AllHexDigits(s[2..]) {
      assert forall i :: 2 <= i < |s| ==> s[i] == s[2..][i - 2];
    }
  }

  lemma LowerSplit(s: string)
    requires |s| >= 2 && AllHexDigits(s) && AllHexDigits(s[2..])
    ensures Digit(s[0]).value < 16 && Digit(s[1]).value < 16
    ensures Lower(s) == [HexChar(Digit(s[0]).value), HexChar(Digit(s[1]).value)] + Lower(s[2..])
  {
    hide Digit;
  }

  lemma EncodePair(hi: nat, lo: nat, h: seq<byte>)
    requires hi < 16 && lo < 16 && h != [] && h[0] == ByteOf(hi, lo)
    ensures EncodeHex(h) == [HexChar(hi), HexChar(lo)] + EncodeHex(h[1..])
  {
    assert h[0] as nat / 16 == hi && h[0] as nat % 16 == lo;
  }

  lemma {:induction false} PairsDecodeIff(s: string)
    requires |s| % 2 == 0
    ensures DecodePairs(s).Some? <==> AllHexDigits(s)
    ensures AllHexDigits(s) ==> EncodeHex(DecodePairs(s).value) == Lower(s)
    decreases |s|
  {
    if s != [] {
      PairsDecodeIff(s[2..]);
      AllHexDigitsSplit(s);
      if AllHexDigits(s) {
        LowerSplit(s);
        hide Digit, HexChar, AllHexDigits, Lower, EncodeHex;
        var h := DecodePairs(s).value;
        assert h[1..] == DecodePairs(s[2..]).value;
        EncodePair(Digit(s[0]).value, Digit(s[1]).value, h);
      }
    }
  }

  /** Exactly the strings of 64 hex digits after the optional prefix decode, in either case. */
  lemma DecodeHex32Iff(s: string)
    ensures DecodeHex32(s).Some? <==> |Body(s)| == 64 && AllHexDigits(Body(s))
    ensures DecodeHex32(s).Some? ==> EncodeHex(DecodeHex32(s).value) == Lower(Body(s))
  {
    if |Body(s)| == 64 { PairsDecodeIff(Body(s)); }
  }

  /** The sixteen digits, in either case. */
  lemma DigitIff(c: char, d: nat)
    ensures Digit(c) == Some(d) <==> d < 16 && (c == "0123456789abcdef"[d] || c == "0123456789ABCDEF"[d])
  {
  }

  lemma {:induction false} PairsBytes(s: string, i: nat)
    requires |s| % 2 == 0 && DecodePairs(s).Some? && 2 * i < |s|
    ensures var b := DecodePairs(s).value[i] as int; Digit(s[2 * i]) == Some(b / 16) && Digit(s[2 * i + 1]) == Some(b % 16)
    decreases i
  {
    if i > 0 {
      PairsBytes(s[2..], i - 1);
      hide Digit;
      assert s[2..][2 * (i - 1)] == s[2 * i] && s[2..][2 * (i - 1) + 1] == s[2 * i + 1];
    }
  }

  /** Each byte is a pair of digits, the high half first. */
  lemma DecodedBytes(s: string, i: nat)
    requires DecodeHex32(s).Some? && i < 32
    ensures var b := DecodeHex32(s).value[i] as int;
      Digit(Body(s)[2 * i]) == Some(b / 16) && Digit(Body(s)[2 * i + 1]) == Some(b % 16)
  {
    PairsBytes(Body(s), i);
  }
}
