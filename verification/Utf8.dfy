/**
 UTF-8 as section 3 of RFC 3629 defines it, and a decoder that can be fed in pieces.

 The decoder rejects a malformed sequence at its first offending byte; the byte ranges are
 those of section 4 of RFC 3629. `Decode` returns the complete characters of a piece, the bytes
 of an incomplete one at its end, and whether everything before was well-formed; the bytes left
 over are put in front of the next piece.
 */
module Utf8 {
  import opened Prelude

  type Byte = b: int | 0 <= b < 0x100

  type Bytes = seq<Byte>

  /** A Unicode scalar value: a code point that is not a surrogate. */
  type Scalar = c: int | 0 <= c < 0xD800 || 0xE000 <= c < 0x11_0000

  type Scalars = seq<Scalar>

  predicate IsContinuation(b: Byte) {
    0x80 <= b < 0xC0
  }

  // ---------------------------------------------------------------- encoding

  function Width(c: Scalar): (n: nat)
    ensures 1 <= n <= 4
  {
    if c < 0x80 then 1 else if c < 0x800 then 2 else if c < 0x1_0000 then 3 else 4
  }

  function EncodeOne(c: Scalar): (r: Bytes)
    ensures |r| == Width(c)
  {
    if c < 0x80 then [c]
    else if c < 0x800 then [0xC0 + c / 64, 0x80 + c % 64]
    else if c < 0x1_0000 then [0xE0 + c / 64 / 64, 0x80 + c / 64 % 64, 0x80 + c % 64]
    else [0xF0 + c / 64 / 64 / 64, 0x80 + c / 64 / 64 % 64, 0x80 + c / 64 % 64, 0x80 + c % 64]
  }

  function Encode(cs: Scalars): Bytes {
    if cs == [] then [] else EncodeOne(cs[0]) + Encode(cs[1..])
  }

  /** Buffer.byteLength(text, "utf8"). */
  function Size(cs: Scalars): nat {
    if cs == [] then 0 else Width(cs[0]) + Size(cs[1..])
  }

  lemma {:induction false} EncodeSize(cs: Scalars)
    ensures |Encode(cs)| == Size(cs)
  {
    if cs != [] {
      EncodeSize(cs[1..]);
    }
  }

  lemma {:induction false} SizeConcat(a: Scalars, b: Scalars)
    ensures Size(a + b) == Size(a) + Size(b)
  {
    if a == [] {
      assert a + b == b;
    } else {
      assert (a + b)[1..] == a[1..] + b;
      SizeConcat(a[1..], b);
    }
  }

  lemma {:induction false} SizeAtLeastLength(cs: Scalars)
    ensures |cs| <= Size(cs)
  {
    if cs != [] {
      SizeAtLeastLength(cs[1..]);
    }
  }

  /** A sequence starts with a byte that is no continuation byte; all others are. */
  lemma EncodedShape(c: Scalar)
    ensures !IsContinuation(EncodeOne(c)[0])
    ensures forall i :: 0 < i < Width(c) ==> IsContinuation(EncodeOne(c)[i])
  {
  }

  // ---------------------------------------------------------------- decoding

  /** What a first byte announces: further bytes, and the range of the second. */
  datatype Lead = BadLead | Lead(more: nat, low: Byte, high: Byte)

  function LeadOf(b: Byte): Lead {
    if b < 0x80 then Lead(0, 0x80, 0xBF)
    else if b < 0xC2 then BadLead
    else if b < 0xE0 then Lead(1, 0x80, 0xBF)
    else if b == 0xE0 then Lead(2, 0xA0, 0xBF)
    else if b == 0xED then Lead(2, 0x80, 0x9F)
    else if b < 0xF0 then Lead(2, 0x80, 0xBF)
    else if b == 0xF0 then Lead(3, 0x90, 0xBF)
    else if b < 0xF4 then Lead(3, 0x80, 0xBF)
    else if b == 0xF4 then Lead(3, 0x80, 0x8F)
    else BadLead
  }

  /** The payload of a byte below its marker bits. */
  function Low(b: Byte, marker: int): int {
    b as int - marker
  }

  datatype Piece = Malformed | Incomplete | Char(c: Scalar, width: nat)

  /** The character at the front of the bytes. */
  function DecodeOne(b: Bytes): (r: Piece)
    ensures r.Char? ==> 1 <= r.width <= |b|
  {
    if b == [] then Incomplete
    else
      match LeadOf(b[0])
      case BadLead => Malformed
      case Lead(more, low, high) =>
        if more == 0 then Char(b[0], 1)
        else if |b| == 1 then Incomplete
        else if !(low <= b[1] <= high) then Malformed
        else if more == 1 then Char(Low(b[0], 0xC0) * 64 + Low(b[1], 0x80), 2)
        else if |b| == 2 then Incomplete
        else if !IsContinuation(b[2]) then Malformed
        else if more == 2 then Char((Low(b[0], 0xE0) * 64 + Low(b[1], 0x80)) * 64 + Low(b[2], 0x80), 3)
        else if |b| == 3 then Incomplete
        else if !IsContinuation(b[3]) then Malformed
        else Char(((Low(b[0], 0xF0) * 64 + Low(b[1], 0x80)) * 64 + Low(b[2], 0x80)) * 64 + Low(b[3], 0x80), 4)
  }

  /** Complete characters, the bytes after them, and whether these may still become one. */
  datatype Decoded = Decoded(chars: Scalars, rest: Bytes, wellFormed: bool)

  function Decode(b: Bytes): (r: Decoded)
    ensures |r.rest| <= |b|
  {
    match DecodeOne(b)
    case Malformed => Decoded([], b, false)
    case Incomplete => Decoded([], b, true)
    case Char(c, n) =>
      var d := Decode(b[n..]);
      d.(chars := [c] + d.chars)
  }

  /** More bytes never change a character or an error that is already there. */
  lemma DecodeOneExtends(b: Bytes, more: Bytes)
    requires !DecodeOne(b).Incomplete?
    ensures DecodeOne(b + more) == DecodeOne(b)
  {
  }

  /** Decoding in pieces: the incomplete end of one piece is put before the next. */
  lemma {:induction false} DecodeConcat(a: Bytes, b: Bytes)
    ensures var d := Decode(a);
            Decode(a + b) == if !d.wellFormed then d.(rest := d.rest + b)
                             else var e := Decode(d.rest + b); e.(chars := d.chars + e.chars)
    decreases |a|
  {
    hide DecodeOne;
    match DecodeOne(a) {
      case Malformed =>
        DecodeOneExtends(a, b);
      case Incomplete =>
        assert [] + Decode(a + b).chars == Decode(a + b).chars;
      case Char(c, n) =>
        DecodeOneExtends(a, b);
        assert (a + b)[n..] == a[n..] + b;
        DecodeConcat(a[n..], b);
        var d := Decode(a[n..]);
        if d.wellFormed {
          var e := Decode(d.rest + b);
          assert [c] + (d.chars + e.chars) == ([c] + d.chars) + e.chars;
        }
    }
  }

  lemma DecodeOneEncoded(c: Scalar, rest: Bytes)
    ensures DecodeOne(EncodeOne(c) + rest) == Char(c, Width(c))
  {
    var b := EncodeOne(c) + rest;
    assert forall i :: 0 <= i < Width(c) ==> b[i] == EncodeOne(c)[i];
    if c < 0x80 {
    } else if c < 0x800 {
      assert LeadOf(b[0]).more == 1;
    } else if c < 0x1_0000 {
      assert c / 64 / 64 == 0 ==> c / 64 % 64 >= 32;
      assert c / 64 / 64 == 13 ==> c / 64 % 64 < 32;
    } else {
      assert c / 64 / 64 / 64 == 0 ==> c / 64 / 64 % 64 >= 16;
      assert c / 64 / 64 / 64 == 4 ==> c / 64 / 64 % 64 < 16;
    }
  }

  /** Decoding undoes encoding. */
  lemma {:induction false} DecodeEncoded(cs: Scalars)
    ensures Decode(Encode(cs)) == Decoded(cs, [], true)
  {
    if cs != [] {
      hide DecodeOne, EncodeOne;
      DecodeOneEncoded(cs[0], Encode(cs[1..]));
      DecodeEncoded(cs[1..]);
      assert Encode(cs)[Width(cs[0])..] == Encode(cs[1..]);
      assert [cs[0]] + cs[1..] == cs;
    }
  }

  lemma Base64(x: int, d: int)
    requires 0 <= d < 64
    ensures (x * 64 + d) / 64 == x && (x * 64 + d) % 64 == d
  {
  }

  /** A character that was read re-encodes to the bytes it was read from. */
  lemma {:induction false} EncodeOneDecoded(b: Bytes)
    requires DecodeOne(b).Char?
    ensures EncodeOne(DecodeOne(b).c) == b[..DecodeOne(b).width]
  {
    var n := DecodeOne(b).width;
    if n == 2 {
      Base64(Low(b[0], 0xC0), Low(b[1], 0x80));
    } else if n == 3 {
      var x := Low(b[0], 0xE0) * 64 + Low(b[1], 0x80);
      Base64(Low(b[0], 0xE0), Low(b[1], 0x80));
      Base64(x, Low(b[2], 0x80));
    } else if n == 4 {
      var x := Low(b[0], 0xF0) * 64 + Low(b[1], 0x80);
      var y := x * 64 + Low(b[2], 0x80);
      Base64(Low(b[0], 0xF0), Low(b[1], 0x80));
      Base64(x, Low(b[2], 0x80));
      Base64(y, Low(b[3], 0x80));
    }
  }

  /** The bytes are those of the characters followed by what is left over. */
  lemma {:induction false} EncodeDecoded(b: Bytes)
    ensures Encode(Decode(b).chars) + Decode(b).rest == b
    decreases |b|
  {
    hide DecodeOne, EncodeOne;
    if DecodeOne(b).Char? {
      var c, n := DecodeOne(b).c, DecodeOne(b).width;
      var d := Decode(b[n..]);
      EncodeOneDecoded(b);
      EncodeDecoded(b[n..]);
      EncodeCons(c, d.chars);
      Rejoin(b[..n], Encode(d.chars), d.rest, b[n..]);
    }
  }

  lemma Rejoin(a: Bytes, b: Bytes, c: Bytes, bc: Bytes)
    requires b + c == bc
    ensures (a + b) + c == a + bc
  {
  }

  lemma EncodeCons(c: Scalar, cs: Scalars)
    ensures Encode([c] + cs) == EncodeOne(c) + Encode(cs)
  {
    assert ([c] + cs)[1..] == cs;
  }
}
