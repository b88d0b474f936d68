/** Bytes, `bytes.hex` and `binascii.unhexlify`. */
module Hex {
  import opened Common

  type Byte = b: nat | b < 256
  type Bytes = seq<Byte>

  function Digit(d: nat): char
    requires d < 16
  {
    if d < 10 then '0' + d as char else 'a' + (d - 10) as char
  }

  /** The value of a hexadecimal digit of either case. */
  function ValueOf(c: char): Option<nat> {
    if '0' <= c <= '9' then Some(c as nat - '0' as nat)
    else if 'a' <= c <= 'f' then Some(c as nat - 'a' as nat + 10)
    else if 'A' <= c <= 'F' then Some(c as nat - 'A' as nat + 10)
    else None
  }

  lemma ValueBelow16(c: char)
    ensures ValueOf(c).Some? ==> ValueOf(c).value < 16
  {
  }

  lemma DigitValue(d: nat)
    requires d < 16
    ensures ValueOf(Digit(d)) == Some(d)
  {
  }

  function Hexlify(b: Bytes): string {
    if b == [] then "" else [Digit(b[0] / 16), Digit(b[0] % 16)] + Hexlify(b[1..])
  }

  function Unhexlify(s: string): Option<Bytes> {
    if s == "" then Some([])
    else if |s| == 1 then None
    else
      var hi, lo, rest := ValueOf(s[0]), ValueOf(s[1]), Unhexlify(s[2..]);
      ValueBelow16(s[0]);
      ValueBelow16(s[1]);
      if hi.Some? && lo.Some? && rest.Some? then Some([hi.value * 16 + lo.value] + rest.value) else None
  }

  /** Two digits in front give one byte in front. */
  lemma UnhexlifyByte(hi: nat, lo: nat, rest: string)
    requires hi < 16 && lo < 16 && Unhexlify(rest).Some?
    ensures Unhexlify([Digit(hi), Digit(lo)] + rest) == Some([hi * 16 + lo] + Unhexlify(rest).value)
  {
    var s := [Digit(hi), Digit(lo)] + rest;
    assert s[2..] == rest && s[0] == Digit(hi) && s[1] == Digit(lo);
    DigitValue(hi);
    DigitValue(lo);
  }

  lemma {:induction false} UnhexlifyHexlify(b: Bytes)
    ensures Unhexlify(Hexlify(b)) == Some(b)
  {
    if b != [] {
      UnhexlifyHexlify(b[1..]);
      UnhexlifyByte(b[0] / 16, b[0] % 16, Hexlify(b[1..]));
      assert b == [b[0]] + b[1..];
    }
  }

  /** Two digits for each byte, lower case, the high one first. */
  lemma {:induction false} HexlifyAt(b: Bytes, i: nat)
    requires i < |b|
    ensures |Hexlify(b)| == 2 * |b|
    ensures Hexlify(b)[2 * i] == "0123456789abcdef"[b[i] / 16] && Hexlify(b)[2 * i + 1] == "0123456789abcdef"[b[i] % 16]
  {
    DigitShown(b[0] / 16);
    DigitShown(b[0] % 16);
    if i > 0 {
      HexlifyAt(b[1..], i - 1);
      assert Hexlify(b)[2..] == Hexlify(b[1..]);
    } else if |b| > 1 {
      HexlifyAt(b[1..], 0);
    } else {
      assert Hexlify(b[1..]) == "";
    }
  }

  lemma DigitShown(d: nat)
    requires d < 16
    ensures Digit(d) == "0123456789abcdef"[d] && ValueOf("0123456789ABCDEF"[d]) == Some(d)
  {
  }

  predicate IsHexDigit(c: char) {
    '0' <= c <= '9' || 'a' <= c <= 'f' || 'A' <= c <= 'F'
  }

  /** Exactly the even numbers of hexadecimal digits of either case mean bytes. */
  lemma {:induction false} UnhexlifyAccepts(s: string)
    ensures Unhexlify(s).Some? <==> |s| % 2 == 0 && forall i :: 0 <= i < |s| ==> IsHexDigit(s[i])
  {
    if |s| >= 2 {
      UnhexlifyAccepts(s[2..]);
      assert (forall i :: 0 <= i < |s| ==> IsHexDigit(s[i])) <==>
             IsHexDigit(s[0]) && IsHexDigit(s[1]) && forall i :: 0 <= i < |s[2..]| ==> IsHexDigit(s[2..][i]) by {
        assert forall i :: 2 <= i < |s| ==> s[i] == s[2..][i - 2];
      }
    }
  }
}
