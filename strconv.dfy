/** `strconv.ParseUint(s, 8, 32)`, the parse of the configured default file mode. */
module Strconv {
  import opened Basics

  predicate IsOctalDigit(c: char) {
    '0' <= c <= '7'
  }

  predicate AllOctal(s: string) {
    forall i :: 0 <= i < |s| ==> IsOctalDigit(s[i])
  }

  /** The number an octal digit string denotes, most significant digit first. */
  function OctalValue(s: string): nat
    requires AllOctal(s)
  {
    if s == [] then 0
    else OctalValue(s[..|s| - 1]) * 8 + (s[|s| - 1] as int - '0' as int)
  }

  /**
   * ParseUint with base 8 and bit size 32: no sign, no prefix, no underscore;
   * the empty string and any non-octal character are syntax errors, and a value
   * that does not fit in 32 bits is a range error.
   */
  function ParseUint32Octal(s: string): (r: Option<uint32>)
    ensures r.Some? <==> |s| > 0 && AllOctal(s) && OctalValue(s) < 0x1_0000_0000
    ensures r.Some? ==> r.value as nat == OctalValue(s)
  {
    if |s| == 0 || !AllOctal(s) then None
    else if OctalValue(s) >= 0x1_0000_0000 then None
    else Some(OctalValue(s) as uint32)
  }

  /** The shortest octal spelling of `v`, the reference inverse of the parse. */
  function FormatOctal(v: nat): (s: string)
    ensures |s| > 0 && AllOctal(s)
  {
    var d := ['0' + (v % 8) as char];
    if v < 8 then d else FormatOctal(v / 8) + d
  }

  lemma {:induction false} OctalValueOfFormat(v: nat)
    ensures OctalValue(FormatOctal(v)) == v
  {
    var s := FormatOctal(v);
    if v >= 8 {
      OctalValueOfFormat(v / 8);
      assert s[..|s| - 1] == FormatOctal(v / 8);
    }
  }

  /** Every 32-bit mode survives formatting in octal and parsing back. */
  lemma ParseFormatRoundTrip(v: uint32)
    ensures ParseUint32Octal(FormatOctal(v as nat)) == Some(v)
  {
    OctalValueOfFormat(v as nat);
  }

  /** A successful parse yields exactly the octal value of a non-empty digit string. */
  lemma ParseSound(s: string, v: uint32)
    requires ParseUint32Octal(s) == Some(v)
    ensures |s| > 0 && AllOctal(s) && v as nat == OctalValue(s)
  {
  }

  /** A string holding any character other than '0'..'7' is rejected. */
  lemma ParseRejectsNonOctal(s: string, i: nat)
    requires i < |s| && !IsOctalDigit(s[i])
    ensures ParseUint32Octal(s) == None
  {
  }

  /** The configured default "0755" is 0o755, and "644" is 0o644. */
  lemma ParseExamples()
    ensures ParseUint32Octal("0755") == Some(493)
    ensures ParseUint32Octal("644") == Some(420)
    ensures ParseUint32Octal("0o755") == None
    ensures ParseUint32Octal("") == None
  {
    assert OctalValue("0755") == 493 by {
      assert "0755"[..3] == "075";
      assert "075"[..2] == "07";
      assert "07"[..1] == "0";
      assert "0"[..0] == "";
    }
    assert OctalValue("644") == 420 by {
      assert "644"[..2] == "64";
      assert "64"[..1] == "6";
      assert "6"[..0] == "";
    }
    assert !AllOctal("0o755") by { assert !IsOctalDigit("0o755"[1]); }
  }

  /** Appending a zero digit multiplies the value by eight. */
  lemma AppendZero(s: string)
    requires AllOctal(s)
    ensures AllOctal(s + "0") && OctalValue(s + "0") == OctalValue(s) * 8
  {
    assert (s + "0")[..|s|] == s;
  }

  /** 2^32, spelled "40000000000" in octal, does not fit in 32 bits. */
  lemma ParseOverflow()
    ensures ParseUint32Octal("40000000000") == None
  {
    var s0 := "4";
    assert OctalValue(s0) == 4 by { assert s0[..0] == ""; }
    AppendZero(s0);
    var s1 := s0 + "0";
    AppendZero(s1);
    var s2 := s1 + "0";
    AppendZero(s2);
    var s3 := s2 + "0";
    AppendZero(s3);
    var s4 := s3 + "0";
    AppendZero(s4);
    var s5 := s4 + "0";
    AppendZero(s5);
    var s6 := s5 + "0";
    AppendZero(s6);
    var s7 := s6 + "0";
    AppendZero(s7);
    var s8 := s7 + "0";
    AppendZero(s8);
    var s9 := s8 + "0";
    AppendZero(s9);
    var s10 := s9 + "0";
    assert s10 == "40000000000";
  }
}
