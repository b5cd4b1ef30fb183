/** The `std::format` renderings the text report uses: `{}` of an unsigned
    integer (decimal), `{}` of a `bool` (`true`/`false`) and `{:02x}` of a
    byte (two lower-case hexadecimal digits), and the UUID line built from
    the last (Identy/Identy_io.cxx). */
module Format {
  import opened Bytes

  predicate IsDigit(c: Char8) {
    '0' <= c <= '9'
  }

  function DigitChar(d: nat): (c: Char8)
    requires d < 10
    ensures IsDigit(c)
  {
    ('0' as int + d) as char
  }

  function DigitValue(c: Char8): nat
    requires IsDigit(c)
  {
    c as int - '0' as int
  }

  /** `std::format("{}", n)` for an unsigned `n`: its decimal digits, most
      significant first, with no sign and no leading zero. */
  function Decimal(n: nat): (r: seq<Char8>)
    ensures |r| >= 1
    ensures forall i :: 0 <= i < |r| ==> IsDigit(r[i])
    ensures |r| > 1 ==> r[0] != '0'
    ensures n < 10 <==> |r| == 1
  {
    if n < 10 then [DigitChar(n)]
    else
      var r := Decimal(n / 10) + [DigitChar(n % 10)];
      assert r[0] == Decimal(n / 10)[0];
      r
  }

  /** The value a string of decimal digits denotes. */
  function DecimalValue(s: seq<Char8>): nat
    requires forall i :: 0 <= i < |s| ==> IsDigit(s[i])
  {
    if s == [] then 0 else 10 * DecimalValue(s[..|s| - 1]) + DigitValue(s[|s| - 1])
  }

  /** The rendering denotes the number rendered. */
  lemma {:induction false} DecimalRoundTrip(n: nat)
    ensures DecimalValue(Decimal(n)) == n
  {
    if n >= 10 {
      var r := Decimal(n);
      assert r[..|r| - 1] == Decimal(n / 10);
      DecimalRoundTrip(n / 10);
    }
  }

  /** Distinct numbers are rendered differently. */
  lemma DecimalInjective(m: nat, n: nat)
    requires Decimal(m) == Decimal(n)
    ensures m == n
  {
    DecimalRoundTrip(m);
    DecimalRoundTrip(n);
  }

  /** `std::format("{}", b)` for a `bool`. */
  function BoolText(b: bool): (r: seq<Char8>)
    ensures r == "true" || r == "false"
    ensures b <==> r == "true"
  {
    if b then "true" else "false"
  }

  predicate IsLowerHex(c: Char8) {
    IsDigit(c) || 'a' <= c <= 'f'
  }

  function HexChar(d: nat): (c: Char8)
    requires d < 16
    ensures IsLowerHex(c)
  {
    if d < 10 then DigitChar(d) else ('a' as int + d - 10) as char
  }

  function HexValue(c: Char8): (d: nat)
    requires IsLowerHex(c)
    ensures d < 16
  {
    if IsDigit(c) then DigitValue(c) else c as int - 'a' as int + 10
  }

  /** `std::format("{:02x}", b)` for a byte: exactly two lower-case hex
      digits, the high nibble first, zero-padded. */
  function Hex2(b: Byte): (r: seq<Char8>)
    ensures |r| == 2 && IsLowerHex(r[0]) && IsLowerHex(r[1])
  {
    [HexChar(b as int / 16), HexChar(b as int % 16)]
  }

  lemma HexCharValue(d: nat)
    requires d < 16
    ensures HexValue(HexChar(d)) == d
  {
  }

  /** The two digits give the byte back. */
  lemma Hex2RoundTrip(b: Byte)
    ensures 16 * HexValue(Hex2(b)[0]) + HexValue(Hex2(b)[1]) == b as int
  {
    var n := b as int;
    HexCharValue(n / 16);
    HexCharValue(n % 16);
    hide HexChar, HexValue;
    assert Hex2(b)[0] == HexChar(n / 16) && Hex2(b)[1] == HexChar(n % 16);
  }

  predicate AllLowerHex(t: seq<Char8>) {
    forall i :: 0 <= i < |t| ==> IsLowerHex(t[i])
  }

  /** Consecutive bytes, each as `{:02x}`: two lower-case hex digits per byte. */
  function HexRun(s: seq<Byte>): (r: seq<Char8>)
    ensures |r| == 2 * |s| && AllLowerHex(r)
  {
    if s == [] then [] else HexRun(s[..|s| - 1]) + Hex2(s[|s| - 1])
  }

  /** The byte whose high and low nibbles are `hi` and `lo`. */
  function PairByte(hi: nat, lo: nat): Byte
    requires hi < 16 && lo < 16
  {
    (16 * hi + lo) as bv8
  }

  /** The two digits `{:02x}` prints read back as the byte printed. */
  lemma Hex2PairByte(b: Byte)
    ensures PairByte(HexValue(Hex2(b)[0]), HexValue(Hex2(b)[1])) == b
  {
    Hex2RoundTrip(b);
    var n := 16 * HexValue(Hex2(b)[0]) + HexValue(Hex2(b)[1]);
    assert n == b as int;
    assert (b as int) as bv8 == b;
  }

  /** Reads a run of hex digit pairs back into bytes. */
  function ParseHexRun(t: seq<Char8>): (r: seq<Byte>)
    requires |t| % 2 == 0 && AllLowerHex(t)
    ensures |r| == |t| / 2
  {
    if t == [] then []
    else ParseHexRun(t[..|t| - 2]) + [PairByte(HexValue(t[|t| - 2]), HexValue(t[|t| - 1]))]
  }

  lemma {:induction false} HexRunRoundTrip(s: seq<Byte>)
    ensures ParseHexRun(HexRun(s)) == s
  {
    hide *;
    if s != [] {
      var init, last := s[..|s| - 1], s[|s| - 1];
      var t := HexRun(s);
      HexRunStep(s);
      ParseHexRunStep(t, HexRun(init), Hex2(last));
      HexRunRoundTrip(init);
      Hex2PairByte(last);
      assert s == init + [last];
    }
  }

  /** One more byte adds its two digits at the end. */
  lemma HexRunStep(s: seq<Byte>)
    requires s != []
    ensures HexRun(s) == HexRun(s[..|s| - 1]) + Hex2(s[|s| - 1])
  {
    hide Hex2;
  }

  /** Parsing a run that ends with two digits `h`: the run before them, then
      the byte they spell. */
  lemma ParseHexRunStep(t: seq<Char8>, init: seq<Char8>, h: seq<Char8>)
    requires t == init + h && |init| % 2 == 0 && AllLowerHex(init) && |h| == 2 && IsLowerHex(h[0]) && IsLowerHex(h[1])
    ensures |t| % 2 == 0 && AllLowerHex(t)
    ensures ParseHexRun(t) == ParseHexRun(init) + [PairByte(HexValue(h[0]), HexValue(h[1]))]
  {
    hide *;
    AllLowerHexAppend(init, h);
    assert t[..|t| - 2] == init;
    assert t[|t| - 2] == h[0] && t[|t| - 1] == h[1];
    ParseHexRunUnfold(t);
  }

  lemma AllLowerHexAppend(a: seq<Char8>, h: seq<Char8>)
    requires AllLowerHex(a) && |h| == 2 && IsLowerHex(h[0]) && IsLowerHex(h[1])
    ensures AllLowerHex(a + h)
  {
    hide IsLowerHex;
    var t := a + h;
    forall i | 0 <= i < |t| ensures IsLowerHex(t[i]) {
      if i < |a| {
        assert t[i] == a[i];
      } else {
        assert t[i] == h[i - |a|];
      }
    }
  }

  lemma ParseHexRunUnfold(t: seq<Char8>)
    requires |t| >= 2 && |t| % 2 == 0 && AllLowerHex(t)
    ensures AllLowerHex(t[..|t| - 2])
    ensures ParseHexRun(t) == ParseHexRun(t[..|t| - 2]) + [PairByte(HexValue(t[|t| - 2]), HexValue(t[|t| - 1]))]
  {
    hide IsLowerHex, HexValue, PairByte;
  }

  /** Where the pieces of a chain shaped like the UUID text land. */
  lemma DashChain(a: seq<Char8>, b: seq<Char8>, c: seq<Char8>, d: seq<Char8>, e: seq<Char8>)
    requires |a| == 8 && |b| == 4 && |c| == 4 && |d| == 4 && |e| == 12
    ensures var t := a + "-" + b + "-" + c + "-" + d + "-" + e;
      && |t| == 36 && t[8] == '-' && t[13] == '-' && t[18] == '-' && t[23] == '-'
      && t[..8] == a && t[9..13] == b && t[14..18] == c && t[19..23] == d && t[24..] == e
  {
    var t := a + "-" + b + "-" + c + "-" + d + "-" + e;
    var tail := "-" + b + "-" + c + "-" + d + "-" + e;
    assert t == a + tail;
    assert t[8..] == tail;
    assert t[9..13] == tail[1..5];
    assert t[14..18] == tail[6..10];
    assert t[19..23] == tail[11..15];
  }

  /** The UUID as `write_text` prints it: the 16 bytes as hex pairs grouped
      4-2-2-2-6 and joined by dashes, 36 characters in all. */
  function UuidText(u: seq<Byte>): (t: seq<Char8>)
    requires |u| == 16
    ensures |t| == 36 && t[8] == '-' && t[13] == '-' && t[18] == '-' && t[23] == '-'
    ensures AllLowerHex(t[..8]) && AllLowerHex(t[9..13]) && AllLowerHex(t[14..18])
    ensures AllLowerHex(t[19..23]) && AllLowerHex(t[24..])
  {
    var a, b, c, d, e := HexRun(u[..4]), HexRun(u[4..6]), HexRun(u[6..8]), HexRun(u[8..10]), HexRun(u[10..]);
    DashChain(a, b, c, d, e);
    a + "-" + b + "-" + c + "-" + d + "-" + e
  }

  /** Reads the UUID text back into its 16 bytes. */
  function ParseUuidText(t: seq<Char8>): (u: seq<Byte>)
    requires |t| == 36 && AllLowerHex(t[..8]) && AllLowerHex(t[9..13]) && AllLowerHex(t[14..18])
    requires AllLowerHex(t[19..23]) && AllLowerHex(t[24..])
    ensures |u| == 16
  {
    ParseHexRun(t[..8]) + ParseHexRun(t[9..13]) + ParseHexRun(t[14..18]) + ParseHexRun(t[19..23]) + ParseHexRun(t[24..])
  }

  /** Reading the text back gives the UUID. */
  lemma UuidTextRoundTrip(u: seq<Byte>)
    requires |u| == 16
    ensures ParseUuidText(UuidText(u)) == u
  {
    var a, b, c, d, e := HexRun(u[..4]), HexRun(u[4..6]), HexRun(u[6..8]), HexRun(u[8..10]), HexRun(u[10..]);
    var t := UuidText(u);
    assert t == a + "-" + b + "-" + c + "-" + d + "-" + e;
    assert u == u[..4] + u[4..6] + u[6..8] + u[8..10] + u[10..];
    HexRunRoundTrip(u[..4]);
    HexRunRoundTrip(u[4..6]);
    HexRunRoundTrip(u[6..8]);
    HexRunRoundTrip(u[8..10]);
    HexRunRoundTrip(u[10..]);
    hide UuidText, HexRun, ParseHexRun;
    DashChain(a, b, c, d, e);
  }
}
