/** UTF-8 (RFC 3629, sections 3 and 4), as src/chat-text.cpp and src/json.cpp write it and src/chat-text.cpp reads it. */
module Utf8 {
  import opened Words

  type Bytes = seq<Byte>

  const REPLACEMENT: nat := 0xFFFD

  /** A Unicode scalar value: any code point but a surrogate. */
  predicate Scalar(cp: int) { 0 <= cp < 0xD800 || 0xE000 <= cp < 0x11_0000 }

  function Encode(cp: nat): (bytes: Bytes)
    requires cp < 0x11_0000
    ensures 1 <= |bytes| <= 4
  {
    if cp < 0x80 then [cp]
    else if cp < 0x800 then [0xC0 + cp / 0x40, 0x80 + cp % 0x40]
    else if cp < 0x10000 then [0xE0 + cp / 0x1000, 0x80 + cp / 0x40 % 0x40, 0x80 + cp % 0x40]
    else [0xF0 + cp / 0x4_0000, 0x80 + cp / 0x1000 % 0x40, 0x80 + cp / 0x40 % 0x40, 0x80 + cp % 0x40]
  }

  predicate Continues(b: Byte) { 0x80 <= b < 0xC0 }

  /** The value of length continuation bytes behind one that contributes value, if they all are. */
  function Folded(s: Bytes, value: nat, length: nat): (r: Option<nat>)
    requires length <= |s|
    decreases length
  {
    if length == 0 then Some(value)
    else if !Continues(s[0]) then None
    else Folded(s[1..], value * 0x40 + s[0] % 0x40, length - 1)
  }

  datatype Decoded = Decoded(cp: nat, length: nat)
  const BROKEN := Decoded(REPLACEMENT, 1)

  /** The sequence at the front; overlong forms, surrogates and anything malformed give U+FFFD for one byte. */
  function Decode(s: Bytes): (d: Decoded)
    requires s != []
    ensures Scalar(d.cp) && 1 <= d.length <= |s|
  {
    if s[0] < 0x80 then Decoded(s[0], 1)
    else
      var (length, value, least) :=
        if 0xC0 <= s[0] < 0xE0 then (2, s[0] % 0x20, 0x80)
        else if 0xE0 <= s[0] < 0xF0 then (3, s[0] % 0x10, 0x800)
        else if 0xF0 <= s[0] < 0xF8 then (4, s[0] % 0x08, 0x10000)
        else (0, 0, 0);
      if length == 0 || |s| < length then BROKEN
      else
        var cp := Folded(s[1..], value, length - 1);
        if cp.None? || cp.value < least || !Scalar(cp.value) then BROKEN
        else Decoded(cp.value, length)
  }

  /** Reading the bytes at i one after the other. */
  method DecodeAt(s: Bytes, i: nat) returns (d: Decoded)
    requires i < |s|
    ensures d == Decode(s[i..])
  {
    var b0 := s[i];
    if b0 < 0x80 {
      return Decoded(b0, 1);
    }
    var length: nat, value: nat, least: nat := 0, 0, 0;
    if 0xC0 <= b0 < 0xE0 {
      length, value, least := 2, b0 % 0x20, 0x80;
    } else if 0xE0 <= b0 < 0xF0 {
      length, value, least := 3, b0 % 0x10, 0x800;
    } else if 0xF0 <= b0 < 0xF8 {
      length, value, least := 4, b0 % 0x08, 0x10000;
    } else {
      return BROKEN;
    }
    if |s| - i < length {
      return BROKEN;
    }
    ghost var start: nat := value;
    assert s[i..][1..] == s[i + 1..];
    var k := 1;
    while k < length
      invariant 1 <= k <= length <= |s| - i
      invariant Folded(s[i + k..], value, length - k) == Folded(s[i + 1..], start, length - 1)
    {
      var b := s[i + k];
      assert s[i + k..][1..] == s[i + k + 1..];
      if !Continues(b) {
        return BROKEN;
      }
      value := value * 0x40 + b % 0x40;
      k := k + 1;
    }
    if value < least || !Scalar(value) {
      return BROKEN;
    }
    d := Decoded(value, length);
  }

  lemma Decode2(a: nat, b: nat, rest: Bytes)
    requires 2 <= a < 0x20 && b < 0x40
    ensures Decode([0xC0 + a, 0x80 + b] + rest) == Decoded(a * 0x40 + b, 2)
  {
    var s := [0xC0 + a, 0x80 + b] + rest;
    assert s[1..][0] == 0x80 + b;
    assert Folded(s[1..][1..], a * 0x40 + b, 0) == Some(a * 0x40 + b);
    assert Folded(s[1..], a, 1) == Some(a * 0x40 + b);
    hide Folded;
  }

  lemma Decode3(a: nat, b: nat, c: nat, rest: Bytes)
    requires a < 0x10 && b < 0x40 && c < 0x40
    requires var cp := (a * 0x40 + b) * 0x40 + c; cp >= 0x800 && Scalar(cp)
    ensures Decode([0xE0 + a, 0x80 + b, 0x80 + c] + rest) == Decoded((a * 0x40 + b) * 0x40 + c, 3)
  {
    var s, ab := [0xE0 + a, 0x80 + b, 0x80 + c] + rest, a * 0x40 + b;
    assert s[1..][0] == 0x80 + b && s[1..][1..][0] == 0x80 + c;
    assert Folded(s[1..][1..][1..], ab * 0x40 + c, 0) == Some(ab * 0x40 + c);
    assert Folded(s[1..][1..], ab, 1) == Some(ab * 0x40 + c);
    assert Folded(s[1..], a, 2) == Some(ab * 0x40 + c);
    hide Folded;
  }

  lemma Decode4(a: nat, b: nat, c: nat, d: nat, rest: Bytes)
    requires a < 8 && b < 0x40 && c < 0x40 && d < 0x40
    requires var cp := ((a * 0x40 + b) * 0x40 + c) * 0x40 + d; cp >= 0x10000 && Scalar(cp)
    ensures Decode([0xF0 + a, 0x80 + b, 0x80 + c, 0x80 + d] + rest) == Decoded(((a * 0x40 + b) * 0x40 + c) * 0x40 + d, 4)
  {
    var s, ab := [0xF0 + a, 0x80 + b, 0x80 + c, 0x80 + d] + rest, a * 0x40 + b;
    var abc, t := ab * 0x40 + c, s[1..];
    assert t[0] == 0x80 + b && t[1..][0] == 0x80 + c && t[1..][1..][0] == 0x80 + d;
    assert Folded(t[1..][1..][1..], abc * 0x40 + d, 0) == Some(abc * 0x40 + d);
    assert Folded(t[1..][1..], abc, 1) == Some(abc * 0x40 + d);
    assert Folded(t[1..], ab, 2) == Some(abc * 0x40 + d);
    assert Folded(t, a, 3) == Some(abc * 0x40 + d);
    hide Folded;
  }

  lemma Digits3(cp: nat)
    requires cp < 0x10000
    ensures cp / 0x1000 < 0x10 && cp == (cp / 0x1000 * 0x40 + cp / 0x40 % 0x40) * 0x40 + cp % 0x40
  {
  }

  lemma Digits4(cp: nat)
    requires cp < 0x11_0000
    ensures cp / 0x4_0000 < 8
    ensures cp == ((cp / 0x4_0000 * 0x40 + cp / 0x1000 % 0x40) * 0x40 + cp / 0x40 % 0x40) * 0x40 + cp % 0x40
  {
  }

  /** Decoding undoes encoding, on every scalar value and whatever follows. */
  lemma DecodeEncode(cp: nat, rest: Bytes)
    requires Scalar(cp)
    ensures Decode(Encode(cp) + rest) == Decoded(cp, |Encode(cp)|)
  {
    if cp < 0x80 {
    } else {
      hide Decode;
      if cp < 0x800 {
        Decode2(cp / 0x40, cp % 0x40, rest);
      } else if cp < 0x10000 {
        Digits3(cp);
        Decode3(cp / 0x1000, cp / 0x40 % 0x40, cp % 0x40, rest);
      } else {
        Digits4(cp);
        Decode4(cp / 0x4_0000, cp / 0x1000 % 0x40, cp / 0x40 % 0x40, cp % 0x40, rest);
      }
    }
  }

  lemma Encode2(a: nat, b: nat)
    requires a < 0x20 && b < 0x40 && a * 0x40 + b >= 0x80
    ensures Encode(a * 0x40 + b) == [0xC0 + a, 0x80 + b]
  {
    var cp := a * 0x40 + b;
    assert cp / 0x40 == a && cp % 0x40 == b;
  }

  lemma Encode3(a: nat, b: nat, c: nat)
    requires a < 0x10 && b < 0x40 && c < 0x40 && (a * 0x40 + b) * 0x40 + c >= 0x800
    ensures Encode((a * 0x40 + b) * 0x40 + c) == [0xE0 + a, 0x80 + b, 0x80 + c]
  {
    var cp := (a * 0x40 + b) * 0x40 + c;
    assert cp / 0x1000 == a && cp / 0x40 % 0x40 == b && cp % 0x40 == c;
  }

  lemma Encode4(a: nat, b: nat, c: nat, d: nat)
    requires a < 8 && b < 0x40 && c < 0x40 && d < 0x40
    requires 0x10000 <= ((a * 0x40 + b) * 0x40 + c) * 0x40 + d < 0x11_0000
    ensures Encode(((a * 0x40 + b) * 0x40 + c) * 0x40 + d) == [0xF0 + a, 0x80 + b, 0x80 + c, 0x80 + d]
  {
    var cp := ((a * 0x40 + b) * 0x40 + c) * 0x40 + d;
    assert cp / 0x4_0000 == a && cp / 0x1000 % 0x40 == b && cp / 0x40 % 0x40 == c && cp % 0x40 == d;
  }

  lemma {:induction false} FoldedIs(s: Bytes, value: nat, length: nat)
    requires length <= |s|
    ensures Folded(s, value, length).Some? ==> forall k :: 0 <= k < length ==> Continues(s[k])
    decreases length
  {
    if length > 0 {
      FoldedIs(s[1..], value * 0x40 + s[0] % 0x40, length - 1);
      if Folded(s, value, length).Some? {
        forall k | 0 <= k < length
          ensures Continues(s[k])
        {
          assert k > 0 ==> s[k] == s[1..][k - 1];
        }
      }
    }
  }

  /** What Decode reads is the encoding of what it gives, or one byte that no encoding starts with. */
  lemma DecodeReads(s: Bytes)
    requires s != []
    ensures var d := Decode(s);
            if exists cp: nat :: Scalar(cp) && Encode(cp) <= s then Encode(d.cp) == s[..d.length] else d == Decoded(0xFFFD, 1)
    ensures forall cp: nat :: Scalar(cp) && Encode(cp) <= s ==> Decode(s) == Decoded(cp, |Encode(cp)|)
  {
    forall cp: nat | Scalar(cp) && Encode(cp) <= s
      ensures Decode(s) == Decoded(cp, |Encode(cp)|)
    {
      assert s == Encode(cp) + s[|Encode(cp)|..];
      DecodeEncode(cp, s[|Encode(cp)|..]);
    }
    DecodedIsEncoded(s);
    var d := Decode(s);
    hide Decode, Encode;
    if d != BROKEN {
      assert Encode(d.cp) <= s;
    }
  }

  lemma DecodedIsEncoded(s: Bytes)
    requires s != []
    ensures var d := Decode(s); d == BROKEN || s[..d.length] == Encode(d.cp)
  {
    var d := Decode(s);
    if d.length == 2 {
      Reads2(s);
    } else if d.length == 3 {
      Reads3(s);
    } else if d.length == 4 {
      Reads4(s);
    }
  }

  lemma Reads2(s: Bytes)
    requires s != [] && Decode(s).length == 2
    ensures s[..2] == Encode(Decode(s).cp)
  {
    var a: nat, b: nat := s[0] % 0x20, s[1] % 0x40;
    FoldedIs(s[1..], a, 1);
    assert s[1..][0] == s[1] && Folded(s[1..][1..], a * 0x40 + b, 0) == Some(a * 0x40 + b);
    Encode2(a, b);
    hide Encode, Folded;
    assert s[..2] == [s[0], s[1]];
  }

  lemma Reads3(s: Bytes)
    requires s != [] && Decode(s).length == 3
    ensures s[..3] == Encode(Decode(s).cp)
  {
    var a: nat, b: nat, c: nat := s[0] % 0x10, s[1] % 0x40, s[2] % 0x40;
    var t := s[1..];
    FoldedIs(t, a, 2);
    assert t[0] == s[1] && t[1] == s[2] && t[1..][0] == s[2];
    assert Folded(t[1..][1..], (a * 0x40 + b) * 0x40 + c, 0) == Some((a * 0x40 + b) * 0x40 + c);
    assert Folded(t[1..], a * 0x40 + b, 1) == Some((a * 0x40 + b) * 0x40 + c);
    Encode3(a, b, c);
    hide Encode, Folded;
    assert s[..3] == [s[0], s[1], s[2]];
  }

  lemma Reads4(s: Bytes)
    requires s != [] && Decode(s).length == 4
    ensures s[..4] == Encode(Decode(s).cp)
  {
    var a: nat, b: nat, c: nat, d: nat := s[0] % 0x08, s[1] % 0x40, s[2] % 0x40, s[3] % 0x40;
    var t, ab := s[1..], a * 0x40 + b;
    var abcd := (ab * 0x40 + c) * 0x40 + d;
    FoldedIs(t, a, 3);
    assert t[0] == s[1] && t[1..][0] == s[2] && t[1..][1..][0] == s[3] && t[1] == s[2] && t[2] == s[3];
    assert Folded(t[1..][1..][1..], abcd, 0) == Some(abcd);
    assert Folded(t[1..][1..], ab * 0x40 + c, 1) == Some(abcd);
    assert Folded(t[1..], ab, 2) == Some(abcd);
    Encode4(a, b, c, d);
    hide Encode, Folded;
    assert s[..4] == [s[0], s[1], s[2], s[3]];
  }

  function EncodeAll(cps: seq<nat>): Bytes
    requires forall i :: 0 <= i < |cps| ==> Scalar(cps[i])
  {
    if cps == [] then []
    else
      assert Scalar(cps[0]);
      Encode(cps[0]) + EncodeAll(cps[1..])
  }

  /** Every byte of a text, read as code points. */
  function DecodeAll(s: Bytes): seq<nat> {
    if s == [] then [] else [Decode(s).cp] + DecodeAll(s[Decode(s).length..])
  }

  /** Well-formed UTF-8: what encoding some scalar values gives. */
  predicate Valid(s: Bytes) { EncodeAll(DecodeAllScalar(s)) == s }

  function DecodeAllScalar(s: Bytes): (cps: seq<nat>)
    ensures cps == DecodeAll(s) && forall i :: 0 <= i < |cps| ==> Scalar(cps[i])
  {
    if s == [] then [] else [Decode(s).cp] + DecodeAllScalar(s[Decode(s).length..])
  }

  lemma {:induction false} DecodeEncodeAll(cps: seq<nat>)
    requires forall i :: 0 <= i < |cps| ==> Scalar(cps[i])
    ensures DecodeAll(EncodeAll(cps)) == cps && Valid(EncodeAll(cps))
    decreases |cps|
  {
    if cps != [] {
      DecodeEncode(cps[0], EncodeAll(cps[1..]));
      assert EncodeAll(cps)[|Encode(cps[0])|..] == EncodeAll(cps[1..]);
      DecodeEncodeAll(cps[1..]);
    }
  }
}
