/** Byte strings and the small fixed-format numbers used by git's wire and pack formats. */
module GitBytes {
  import opened Text

  type Byte = x: int | 0 <= x < 256
  type Bytes = seq<Byte>

  /** The bytes of a text whose characters are all below 256 (larger ones are reduced). */
  function Ascii(s: string): (r: Bytes)
    ensures |r| == |s| && forall i :: 0 <= i < |s| ==> r[i] == s[i] as int % 256
  {
    seq(|s|, i requires 0 <= i < |s| => s[i] as int % 256)
  }

  // ---- First occurrence ------------------------------------------------------

  function FirstIndex(s: Bytes, b: Byte): (r: int)
    ensures 0 <= r <= |s| && (r < |s| ==> s[r] == b) && b !in s[..r]
  {
    if s == [] || s[0] == b then 0
    else
      var r := 1 + FirstIndex(s[1..], b);
      assert s[..r] == [s[0]] + s[1..][..r - 1];
      r
  }

  lemma {:induction false} FirstIndexAfter(prefix: Bytes, b: Byte, rest: Bytes)
    requires b !in prefix
    ensures FirstIndex(prefix + [b] + rest, b) == |prefix|
  {
    if prefix != [] {
      assert prefix[0] != b;
      assert (prefix + [b] + rest)[1..] == prefix[1..] + [b] + rest;
      FirstIndexAfter(prefix[1..], b, rest);
    }
  }

  // ---- Big-endian 32-bit integers -----------------------------------------------

  /** `binary.Write` of a uint32: the value modulo 2^32, most significant byte first. */
  function BigEndian32(n: nat): (r: Bytes)
    ensures |r| == 4
  {
    [n / 256 / 256 / 256 % 256, n / 256 / 256 % 256, n / 256 % 256, n % 256]
  }

  function ReadBigEndian32(s: Bytes): (r: nat)
    requires |s| >= 4
  {
    var a: int, b: int, c: int := s[0], s[1], s[2];
    a * 0x1000000 + b * 0x10000 + c * 0x100 + s[3]
  }

  /** Most significant byte first. */
  lemma MostSignificantFirst(n: nat)
    requires n < 0x1_0000_0000
    ensures var r := BigEndian32(n);
            var a: int, b: int, c: int, d: int := r[0], r[1], r[2], r[3];
            n == a * 16777216 + b * 65536 + c * 256 + d
  {
    BigEndian32Inverts(n, []);
    assert BigEndian32(n) + [] == BigEndian32(n);
  }

  lemma RemainderOf32(n: nat, q: nat, r: nat)
    requires n == q * 0x1_0000_0000 + r && r < 0x1_0000_0000
    ensures n % 0x1_0000_0000 == r
  {
  }

  lemma BigEndian32Inverts(n: nat, rest: Bytes)
    ensures ReadBigEndian32(BigEndian32(n) + rest) == n % 0x1_0000_0000
  {
    var n1 := n / 256;
    var n2 := n1 / 256;
    var n3 := n2 / 256;
    var d, c, b, a := n % 256, n1 % 256, n2 % 256, n3 % 256;
    RemainderOf32(n, n3 / 256, a * 0x1000000 + b * 0x10000 + c * 0x100 + d);
    var s := BigEndian32(n) + rest;
    assert s[0] == a && s[1] == b && s[2] == c && s[3] == d;
  }

  // ---- Hexadecimal ------------------------------------------------------------

  function HexDigit(n: int): Byte
    requires 0 <= n < 16
  {
    if n < 10 then '0' as int + n else 'a' as int + n - 10
  }

  function HexValue(b: Byte): Option<nat> {
    if '0' as int <= b <= '9' as int then Some(b - '0' as int)
    else if 'a' as int <= b <= 'f' as int then Some(b - 'a' as int + 10)
    else None
  }

  /** `%x` of a number. */
  function Hex(n: nat): (r: Bytes)
    ensures |r| > 0
  {
    if n < 16 then [HexDigit(n)] else Hex(n / 16) + [HexDigit(n % 16)]
  }

  /** `%04x`: zero-padded to four digits, more when the number needs them. */
  function Hex4(n: nat): (r: Bytes)
    ensures |r| >= 4
  {
    var h := Hex(n);
    seq(if |h| < 4 then 4 - |h| else 0, _ => '0' as int) + h
  }

  /** `%x` of a byte string. */
  function HexOfBytes(s: Bytes): (r: Bytes)
    ensures |r| == 2 * |s|
  {
    if s == [] then [] else [HexDigit(s[0] / 16), HexDigit(s[0] % 16)] + HexOfBytes(s[1..])
  }

  /** The bytes that a text of hexadecimal digits spells, two digits a byte. */
  function ReadHex(s: Bytes): Option<Bytes> {
    if s == [] then Some([])
    else if |s| == 1 then None
    else
      match (HexValue(s[0]), HexValue(s[1]), ReadHex(s[2..]))
      case (Some(high), Some(low), Some(rest)) => Some([high * 16 + low] + rest)
      case _ => None
  }

  /** The digits are those of the table, high half before low half. */
  lemma {:induction false} HexOfBytesAt(s: Bytes, i: nat)
    requires i < |s|
    ensures HexOfBytes(s)[2 * i] == "0123456789abcdef"[s[i] / 16] as int
    ensures HexOfBytes(s)[2 * i + 1] == "0123456789abcdef"[s[i] % 16] as int
  {
    if i == 0 {
      DigitTable(s[0] / 16);
      DigitTable(s[0] % 16);
    } else {
      HexOfBytesAt(s[1..], i - 1);
      assert s[1..][i - 1] == s[i];
    }
  }

  lemma DigitTable(n: nat)
    requires n < 16
    ensures HexDigit(n) == "0123456789abcdef"[n] as int && HexValue("0123456789abcdef"[n] as int) == Some(n)
  {
    if n >= 10 {
      assert "0123456789abcdef"[n] as int == 'a' as int + (n - 10);
    }
  }

  /** Printed bytes read back as themselves. */
  lemma {:induction false} HexReads(s: Bytes)
    ensures ReadHex(HexOfBytes(s)) == Some(s)
  {
    if s != [] {
      var h := HexOfBytes(s);
      HexDigitInverts(s[0] / 16);
      HexDigitInverts(s[0] % 16);
      HexReads(s[1..]);
      assert h[2..] == HexOfBytes(s[1..]);
      assert [s[0]] + s[1..] == s;
    }
  }

  function ReadHex4(s: Bytes): Option<nat>
    requires |s| >= 4
  {
    match (HexValue(s[0]), HexValue(s[1]), HexValue(s[2]), HexValue(s[3]))
    case (Some(a), Some(b), Some(c), Some(d)) => Some(a * 4096 + b * 256 + c * 16 + d)
    case _ => None
  }

  lemma HexShape(n: nat)
    requires n < 0x10000
    ensures Hex4(n) == [HexDigit(n / 16 / 16 / 16), HexDigit(n / 16 / 16 % 16), HexDigit(n / 16 % 16), HexDigit(n % 16)]
  {
    var n1 := n / 16;
    var n2 := n1 / 16;
    var n3 := n2 / 16;
    assert n3 > 0 ==> Hex(n2) == [HexDigit(n3)] + [HexDigit(n2 % 16)];
    assert n2 > 0 ==> Hex(n1) == Hex(n2) + [HexDigit(n1 % 16)];
    assert n1 > 0 ==> Hex(n) == Hex(n1) + [HexDigit(n % 16)];
  }

  lemma HexDigitInverts(n: int)
    requires 0 <= n < 16
    ensures HexValue(HexDigit(n)) == Some(n)
  {
  }

  /** Below 2^16 the length prefix is exactly four digits and reads back. */
  lemma Hex4Inverts(n: nat, rest: Bytes)
    requires n < 0x10000
    ensures |Hex4(n)| == 4 && ReadHex4(Hex4(n) + rest) == Some(n)
  {
    HexShape(n);
    var n1 := n / 16;
    var n2 := n1 / 16;
    var s := Hex4(n) + rest;
    assert s[0] == HexDigit(n2 / 16) && s[1] == HexDigit(n2 % 16) && s[2] == HexDigit(n1 % 16) && s[3] == HexDigit(n % 16);
    HexDigitInverts(n2 / 16);
    HexDigitInverts(n2 % 16);
    HexDigitInverts(n1 % 16);
    HexDigitInverts(n % 16);
  }

  lemma {:induction false} HexLonger(n: nat)
    requires n >= 0x10000
    ensures |Hex4(n)| > 4
  {
    assert |Hex(n / 65536)| > 0;
    assert n / 16 / 16 / 16 / 16 == n / 65536 >= 1;
    assert |Hex(n / 16 / 16 / 16)| >= 2;
    assert |Hex(n / 16 / 16)| >= 3;
    assert |Hex(n / 16)| >= 4;
    assert |Hex(n)| >= 5;
  }
}
