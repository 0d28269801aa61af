/**
 * `base64.StdEncoding.DecodeString`: the standard alphabet with '=' padding of
 * section 4 of RFC 4648, decoded the way Go's non-strict decoder does it (the
 * unused bits of a padded final quantum are not required to be zero).
 */
module Base64 {
  import opened Basics

  /** A 6-bit group, the value of one alphabet character. */
  type Sextet = x: int | 0 <= x < 64

  const Pad: byte := 61  // '='

  /** The value of an alphabet character, None for any other byte (including '='). */
  function CharValue(c: byte): Option<Sextet> {
    if 65 <= c <= 90 then Some(c as int - 65)        // 'A'..'Z'
    else if 97 <= c <= 122 then Some(c as int - 71)  // 'a'..'z'
    else if 48 <= c <= 57 then Some(c as int + 4)    // '0'..'9'
    else if c == 43 then Some(62)                    // '+'
    else if c == 47 then Some(63)                    // '/'
    else None
  }

  /** The alphabet character of a 6-bit group. */
  function CharOf(v: Sextet): byte {
    if v < 26 then (v + 65) as byte
    else if v < 52 then (v + 71) as byte
    else if v < 62 then (v - 4) as byte
    else if v == 62 then 43
    else 47
  }

  lemma CharRoundTrip(v: Sextet)
    ensures CharValue(CharOf(v)) == Some(v)
    ensures CharOf(v) != Pad
  {
  }

  /**
   * One quantum of four characters. Padding ("xy==" or "xyz=") is accepted only
   * in the last quantum of the input.
   */
  function DecodeQuantum(a: byte, b: byte, c: byte, d: byte, last: bool): (r: Option<Bytes>)
    ensures r.Some? ==> 1 <= |r.value| <= 3 && (!last ==> |r.value| == 3)
  {
    match (CharValue(a), CharValue(b))
    case (Some(x), Some(y)) =>
      var b0 := (x * 4 + y / 16) as byte;
      if CharValue(c).Some? && CharValue(d).Some? then
        var z, w := CharValue(c).value, CharValue(d).value;
        Some([b0, ((y % 16) * 16 + z / 4) as byte, ((z % 4) * 64 + w) as byte])
      else if last && c == Pad && d == Pad then
        Some([b0])
      else if last && CharValue(c).Some? && d == Pad then
        var z := CharValue(c).value;
        Some([b0, ((y % 16) * 16 + z / 4) as byte])
      else None
    case _ => None
  }

  /** Decodes padded base64 text; None is Go's CorruptInputError. */
  function Decode(s: Bytes): (r: Option<Bytes>)
    ensures r.Some? ==> |s| / 4 * 3 - 2 <= |r.value| <= |s| / 4 * 3
    decreases |s|
  {
    if |s| == 0 then Some([])
    else if |s| < 4 then None
    else
      match DecodeQuantum(s[0], s[1], s[2], s[3], |s| == 4)
      case None => None
      case Some(q) =>
        match Decode(s[4..])
        case None => None
        case Some(rest) => Some(q + rest)
  }

  /** Three bytes as four alphabet characters. */
  function EncodeThree(x: byte, y: byte, z: byte): (q: Bytes)
    ensures |q| == 4
  {
    var x, y, z := x as int, y as int, z as int;
    [CharOf(x / 4), CharOf((x % 4) * 16 + y / 16), CharOf((y % 16) * 4 + z / 64), CharOf(z % 64)]
  }

  /** A final single byte as two characters and two pads. */
  function EncodeOne(x: byte): (q: Bytes)
    ensures |q| == 4
  {
    var x := x as int;
    [CharOf(x / 4), CharOf((x % 4) * 16), Pad, Pad]
  }

  /** A final pair of bytes as three characters and one pad. */
  function EncodeTwo(x: byte, y: byte): (q: Bytes)
    ensures |q| == 4
  {
    var x, y := x as int, y as int;
    [CharOf(x / 4), CharOf((x % 4) * 16 + y / 16), CharOf((y % 16) * 4), Pad]
  }

  /** Padded standard base64, the reference encoder the decoder inverts. */
  function Encode(b: Bytes): (s: Bytes)
    ensures |s| == (|b| + 2) / 3 * 4
    decreases |b|
  {
    if |b| == 0 then []
    else if |b| == 1 then EncodeOne(b[0])
    else if |b| == 2 then EncodeTwo(b[0], b[1])
    else EncodeThree(b[0], b[1], b[2]) + Encode(b[3..])
  }

  /** Splitting three bytes into four sextets and joining them again is the identity. */
  lemma SextetArith(x: int, y: int, z: int)
    requires 0 <= x < 256 && 0 <= y < 256 && 0 <= z < 256
    ensures (x / 4) * 4 + ((x % 4) * 16 + y / 16) / 16 == x
    ensures (((x % 4) * 16 + y / 16) % 16) * 16 + ((y % 16) * 4 + z / 64) / 4 == y
    ensures (((y % 16) * 4 + z / 64) % 4) * 64 + z % 64 == z
  {
    assert ((x % 4) * 16 + y / 16) / 16 == x % 4;
    assert ((x % 4) * 16 + y / 16) % 16 == y / 16;
    assert ((y % 16) * 4 + z / 64) / 4 == y % 16;
    assert ((y % 16) * 4 + z / 64) % 4 == z / 64;
  }

  /** A full quantum decodes to the three bytes it was encoded from. */
  lemma QuantumOfThree(x: byte, y: byte, z: byte, last: bool)
    ensures var q := EncodeThree(x, y, z);
            DecodeQuantum(q[0], q[1], q[2], q[3], last) == Some([x, y, z])
  {
    var x', y', z' := x as int, y as int, z as int;
    SextetArith(x', y', z');
    CharRoundTrip(x' / 4);
    CharRoundTrip((x' % 4) * 16 + y' / 16);
    CharRoundTrip((y' % 16) * 4 + z' / 64);
    CharRoundTrip(z' % 64);
  }

  /** A four-character input is exactly one final quantum. */
  lemma LastQuantum(s: Bytes, q: Bytes)
    requires |s| == 4 && DecodeQuantum(s[0], s[1], s[2], s[3], true) == Some(q)
    ensures Decode(s) == Some(q)
  {
    assert s[4..] == [];
    assert Decode(s[4..]) == Some([]);
    assert q + [] == q;
  }

  /** A longer input is a full quantum followed by the rest. */
  lemma FirstQuantum(s: Bytes, q: Bytes, rest: Bytes)
    requires |s| > 4 && DecodeQuantum(s[0], s[1], s[2], s[3], false) == Some(q)
    requires Decode(s[4..]) == Some(rest)
    ensures Decode(s) == Some(q + rest)
  {
  }

  /** A full quantum `e` in front of a non-empty decodable tail `r`. */
  lemma DecodeConcat(e: Bytes, r: Bytes, q: Bytes, rest: Bytes)
    requires |e| == 4 && |r| > 0 && DecodeQuantum(e[0], e[1], e[2], e[3], false) == Some(q)
    requires Decode(r) == Some(rest)
    ensures Decode(e + r) == Some(q + rest)
  {
    var s := e + r;
    assert s[0] == e[0] && s[1] == e[1] && s[2] == e[2] && s[3] == e[3];
    assert s[4..] == r;
    FirstQuantum(s, q, rest);
  }

  /** A final "xy==" quantum decodes to the one byte it was encoded from. */
  lemma DecodeEncodeOne(x: byte)
    ensures Decode(EncodeOne(x)) == Some([x])
  {
    var x' := x as int;
    SextetArith(x', 0, 0);
    CharRoundTrip(x' / 4);
    CharRoundTrip((x' % 4) * 16);
    var q := EncodeOne(x);
    assert DecodeQuantum(q[0], q[1], q[2], q[3], true) == Some([x]);
    LastQuantum(q, [x]);
  }

  /** A final "xyz=" quantum decodes to the two bytes it was encoded from. */
  lemma DecodeEncodeTwo(x: byte, y: byte)
    ensures Decode(EncodeTwo(x, y)) == Some([x, y])
  {
    var x', y' := x as int, y as int;
    SextetArith(x', y', 0);
    CharRoundTrip(x' / 4);
    CharRoundTrip((x' % 4) * 16 + y' / 16);
    CharRoundTrip((y' % 16) * 4);
    var q := EncodeTwo(x, y);
    assert DecodeQuantum(q[0], q[1], q[2], q[3], true) == Some([x, y]);
    LastQuantum(q, [x, y]);
  }

  /** Decoding inverts encoding for every byte string. */
  lemma {:induction false} DecodeEncode(b: Bytes)
    ensures Decode(Encode(b)) == Some(b)
  {
    if |b| == 1 {
      DecodeEncodeOne(b[0]);
      assert b == [b[0]];
    } else if |b| == 2 {
      DecodeEncodeTwo(b[0], b[1]);
      assert b == [b[0], b[1]];
    } else if |b| >= 3 {
      var x: Bytes := [b[0], b[1], b[2]];
      var e := EncodeThree(b[0], b[1], b[2]);
      var r := Encode(b[3..]);
      assert Encode(b) == e + r;
      QuantumOfThree(b[0], b[1], b[2], |b| == 3);
      if |b| == 3 {
        assert r == [] && e + r == e;
        LastQuantum(e, x);
        assert b == x;
      } else {
        DecodeEncode(b[3..]);
        DecodeConcat(e, r, x, b[3..]);
        assert b == x + b[3..];
      }
    }
  }

  /** Input whose length is not a multiple of four is always corrupt. */
  lemma {:induction false} DecodeNeedsQuanta(s: Bytes)
    requires |s| % 4 != 0
    ensures Decode(s) == None
  {
    if |s| >= 4 {
      DecodeNeedsQuanta(s[4..]);
    }
  }

  /** "ZGVtbw==" is "demo"; the unpadded and the over-padded forms are corrupt. */
  lemma DecodeExamples()
    ensures Decode(Ascii("ZGVtbw==")) == Some(Ascii("demo"))
    ensures Decode(Ascii("ZGVtbw")) == None
    ensures Decode(Ascii("ZGVt====")) == None
  {
    var demo: Bytes := [100, 101, 109, 111];
    assert Ascii("demo") == demo;
    var s: Bytes := [90, 71, 86, 116, 98, 119, 61, 61];
    assert Ascii("ZGVtbw==") == s;
    assert DecodeQuantum(s[4], s[5], s[6], s[7], true) == Some([111]);
    LastQuantum(s[4..], [111]);
    assert DecodeQuantum(s[0], s[1], s[2], s[3], false) == Some([100, 101, 109]);
    FirstQuantum(s, [100, 101, 109], [111]);
    assert [100, 101, 109] + [111] == demo;
    DecodeNeedsQuanta(Ascii("ZGVtbw"));
    var t: Bytes := [90, 71, 86, 116, 61, 61, 61, 61];
    assert Ascii("ZGVt====") == t;
    assert DecodeQuantum(t[4], t[5], t[6], t[7], true) == None;
    assert Decode(t[4..]) == None;
  }

  /** The non-strict decoder also accepts non-zero unused bits: "ZGVtbx==" is "demo" too. */
  lemma DecodeIgnoresUnusedBits()
    ensures Decode(Ascii("ZGVtbx==")) == Some(Ascii("demo"))
  {
    var demo: Bytes := [100, 101, 109, 111];
    assert Ascii("demo") == demo;
    var s: Bytes := [90, 71, 86, 116, 98, 120, 61, 61];
    assert Ascii("ZGVtbx==") == s;
    assert DecodeQuantum(s[4], s[5], s[6], s[7], true) == Some([111]);
    LastQuantum(s[4..], [111]);
    assert DecodeQuantum(s[0], s[1], s[2], s[3], false) == Some([100, 101, 109]);
    FirstQuantum(s, [100, 101, 109], [111]);
    assert [100, 101, 109] + [111] == demo;
  }
}
