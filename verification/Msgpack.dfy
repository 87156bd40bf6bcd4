/** Sizes in MessagePack: the headers of strings, arrays and maps ('str', 'array' and 'map format family' of the
    MessagePack specification). */
module Msgpack {
  import opened Options

  type Byte = b: int | 0 <= b < 256

  /** What a header can hold. */
  const SIZE_LIMIT := 0x1_0000_0000

  type Size = n: int | 0 <= n < SIZE_LIMIT

  function Byte0(n: Size): Byte { n % 0x100 }

  function Byte1(n: Size): Byte { n / 0x100 % 0x100 }

  function Byte2(n: Size): Byte { n / 0x1_0000 % 0x100 }

  function Byte3(n: Size): Byte { n / 0x100_0000 % 0x100 }

  function BigEndian(a: Byte, b: Byte, c: Byte, d: Byte): (n: int)
    ensures 0 <= n < SIZE_LIMIT
  {
    var high: int := a * 0x100 + b;
    var low: int := c * 0x100 + d;
    high * 0x1_0000 + low
  }

  lemma FourBytes(n: Size)
    ensures BigEndian(Byte3(n), Byte2(n), Byte1(n), Byte0(n)) == n
    ensures n < 0x1_0000 ==> BigEndian(0, 0, Byte1(n), Byte0(n)) == n
    ensures n < 0x100 ==> Byte0(n) == n
  {
    assert n / 0x1_0000 == n / 0x100_0000 * 0x100 + n / 0x1_0000 % 0x100;
    assert n / 0x100 == n / 0x1_0000 * 0x100 + n / 0x100 % 0x100;
  }

  datatype Format = StrFormat | ArrayFormat | MapFormat
  {
    /** The first byte of the short forms, which hold sizes below Short(). */
    function Fix(): Byte {
      match this case StrFormat => 0xa0 case ArrayFormat => 0x90 case MapFormat => 0x80
    }

    function Short(): Size {
      if this.StrFormat? then 32 else 16
    }

    function Code16(): Byte {
      match this case StrFormat => 0xda case ArrayFormat => 0xdc case MapFormat => 0xde
    }

    function Code32(): Byte {
      match this case StrFormat => 0xdb case ArrayFormat => 0xdd case MapFormat => 0xdf
    }

    /** A header that starts with this byte is of this format. */
    predicate Leads(b: Byte) {
      Fix() <= b < Fix() + Short() || (StrFormat? && b == 0xd9) || b == Code16() || b == Code32()
    }
  }

  function Header(f: Format, n: Size): seq<Byte> {
    if n < f.Short() then [f.Fix() + n]
    else if f.StrFormat? && n < 0x100 then [0xd9, Byte0(n)]
    else if n < 0x1_0000 then [f.Code16(), Byte1(n), Byte0(n)]
    else LongHeader(f, n)
  }

  function LongHeader(f: Format, n: Size): seq<Byte> {
    [f.Code32(), Byte3(n), Byte2(n), Byte1(n), Byte0(n)]
  }

  /** Reads a header: the size, and what follows. */
  function ReadHeader(f: Format, bytes: seq<Byte>): (r: Option<(Size, seq<Byte>)>)
    ensures r.Some? ==> |r.value.1| < |bytes|
  {
    if bytes == [] then None
    else if f.Fix() <= bytes[0] < f.Fix() + f.Short() then Some((bytes[0] - f.Fix(), bytes[1..]))
    else if f.StrFormat? && bytes[0] == 0xd9 && |bytes| >= 2 then Some((bytes[1], bytes[2..]))
    else if bytes[0] == f.Code16() && |bytes| >= 3 then Some((BigEndian(0, 0, bytes[1], bytes[2]), bytes[3..]))
    else if bytes[0] == f.Code32() && |bytes| >= 5 then
      Some((BigEndian(bytes[1], bytes[2], bytes[3], bytes[4]), bytes[5..]))
    else None
  }

  lemma HeaderIsAhead(h: seq<Byte>, rest: seq<Byte>)
    requires 1 <= |h|
    ensures h + rest != [] && (forall i :: 0 <= i < |h| ==> (h + rest)[i] == h[i]) && (h + rest)[|h|..] == rest
  {
  }

  lemma HeaderReadsAhead(f: Format, n: Size, bytes: seq<Byte>, rest: seq<Byte>)
    requires |bytes| >= |Header(f, n)| && bytes[|Header(f, n)|..] == rest
    requires forall i :: 0 <= i < |Header(f, n)| ==> bytes[i] == Header(f, n)[i]
    ensures ReadHeader(f, bytes) == Some((n, rest))
  {
    FourBytes(n);
    hide BigEndian, Byte0, Byte1, Byte2, Byte3;
    var h := Header(f, n);
    assert bytes[0] == h[0];
    if |h| >= 2 {
      assert bytes[1] == h[1];
    }
    if |h| >= 3 {
      assert bytes[2] == h[2];
    }
    if |h| == 5 {
      assert bytes[3] == h[3] && bytes[4] == h[4];
    }
  }

  lemma HeaderReadsBack(f: Format, n: Size, rest: seq<Byte>)
    ensures ReadHeader(f, Header(f, n) + rest) == Some((n, rest))
    ensures 1 <= |Header(f, n)| <= 5
  {
    HeaderIsAhead(Header(f, n), rest);
    hide ReadHeader;
    HeaderReadsAhead(f, n, Header(f, n) + rest, rest);
  }

  /** Only headers of its own format are read. */
  lemma FormatsDiffer(f: Format, g: Format, n: Size, rest: seq<Byte>)
    requires f != g
    ensures ReadHeader(f, Header(g, n) + rest) == None
    ensures g.Leads((Header(g, n) + rest)[0])
  {
    HeaderIsAhead(Header(g, n), rest);
    hide BigEndian, Byte0, Byte1, Byte2, Byte3;
    assert (Header(g, n) + rest)[0] == Header(g, n)[0];
  }
}
