/** The UTF-8 and UTF-16 encoders.  Shifts and masks are written as division, remainder and
    addition of disjoint bit fields. */
module Unicode {
  import opened Streams

  type CodePoint = c: int | 0 <= c <= 0x10FFFF

  /** UTF8_Encoder::length */
  function Length8(cp: CodePoint): (n: nat)
    ensures 1 <= n <= 4
  {
    if cp <= 0x7F then 1 else if cp <= 0x7FF then 2 else if cp <= 0xFFFF then 3 else 4
  }

  function Pow64(k: nat): (p: nat)
    ensures p > 0
  {
    if k == 0 then 1 else 64 * Pow64(k - 1)
  }

  /** UTF8_Encoder::encodingByte, for n from 1 */
  function Byte8(cp: CodePoint, n: nat): (b: byte)
    requires 1 <= n <= Length8(cp)
  {
    var len := Length8(cp);
    if n == 1 then
      if len == 1 then cp else if len == 2 then 0xC0 + cp / 64 else if len == 3 then 0xE0 + cp / 4096 else 0xF0 + cp / 262144
    else 0x80 + cp / Pow64(len - n) % 64
  }

  /** UTF16_Encoder::length */
  function Length16(cp: CodePoint): (n: nat)
    ensures 1 <= n <= 2
  {
    if cp <= 0xFFFF then 1 else 2
  }

  /** UTF16_Encoder::encodingByte, for n from 1 */
  function Unit16(cp: CodePoint, n: nat): nat
    requires 1 <= n <= Length16(cp)
  {
    if Length16(cp) == 1 then cp
    else
      var code := cp - 0x10000;
      if n == 1 then code / 1024 + 0xD800 else code % 1024 + 0xDC00
  }

  function Encode8(cp: CodePoint): (bytes: seq<byte>)
    ensures |bytes| == Length8(cp)
  {
    seq(Length8(cp), i requires 0 <= i < Length8(cp) => Byte8(cp, i + 1))
  }

  function Encode16(cp: CodePoint): (units: seq<nat>)
    ensures |units| == Length16(cp)
  {
    seq(Length16(cp), i requires 0 <= i < Length16(cp) => Unit16(cp, i + 1))
  }

  function Utf8(cps: seq<CodePoint>): seq<byte> {
    if cps == [] then [] else Encode8(cps[0]) + Utf8(cps[1..])
  }

  function Utf16(cps: seq<CodePoint>): seq<nat> {
    if cps == [] then [] else Encode16(cps[0]) + Utf16(cps[1..])
  }
}
