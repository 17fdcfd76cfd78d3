/**
 * The 14-byte BMP file header that `load_from_clipboard` puts in front of
 * the clipboard's device-independent bitmap (CF_DIB) before handing it to
 * Pillow, and the header stripping that `copy_to_clipboard` does the other
 * way round.
 */
module BmpFile {
  import opened Wrappers
  import opened Images

  /** `int.to_bytes(4, ...)` raises OverflowError from here on. */
  const Limit := 0x1_0000_0000

  /** Python's `n.to_bytes(4, byteorder='little')`. */
  function Le4(n: nat): (b: seq<Byte>)
    requires n < Limit
    ensures |b| == 4
  {
    [n % 256, (n / 256) % 256, (n / 65536) % 256, n / 16777216]
  }

  /** The number a little-endian byte string stands for. */
  function LeValue(b: seq<Byte>): nat {
    if b == [] then 0 else b[0] + 256 * LeValue(b[1..])
  }

  /** Reading the four bytes back gives the number that was written. */
  lemma {:induction false} Le4RoundTrip(n: nat)
    requires n < Limit
    ensures LeValue(Le4(n)) == n
  {
    var b := Le4(n);
    assert LeValue(b[3..]) == b[3] by {
      assert b[3..][1..] == [];
    }
    assert b[2..][1..] == b[3..];
    assert b[1..][1..] == b[2..];
    calc {
      LeValue(b);
      b[0] + 256 * LeValue(b[1..]);
      b[0] + 256 * (b[1] + 256 * LeValue(b[2..]));
      b[0] as int + 256 * (b[1] as int + 256 * (b[2] as int + 256 * b[3] as int));
      n % 256 + 256 * ((n / 256) % 256 + 256 * ((n / 65536) % 256 + 256 * (n / 16777216)));
      { DigitsOf(n); }
      n;
    }
  }

  lemma DigitsOf(n: nat)
    ensures n == n % 256 + 256 * ((n / 256) % 256 + 256 * ((n / 65536) % 256 + 256 * (n / 16777216)))
  {
    var q1 := n / 256;
    var q2 := q1 / 256;
    var q3 := q2 / 256;
    assert n == n % 256 + 256 * q1;
    assert q1 == q1 % 256 + 256 * q2;
    assert q2 == q2 % 256 + 256 * q3;
    assert q2 == n / 65536;
    assert q3 == n / 16777216;
  }

  /**
   * The header as built in `load_from_clipboard`: "BM", the file size as four
   * little-endian bytes, four reserved zero bytes and the pixel-data offset
   * 0x36 (14 bytes of file header plus a 40-byte BITMAPINFOHEADER).
   */
  function Header(size: nat): (h: seq<Byte>)
    requires size < Limit
    ensures |h| == 14
  {
    [0x42, 0x4D] + Le4(size) + [0, 0, 0, 0] + [0x36, 0, 0, 0]
  }

  /** The size field of a header, as a reader of the file decodes it. */
  function SizeField(h: seq<Byte>): nat
    requires |h| >= 6
  {
    LeValue(h[2..6])
  }

  /** The pixel-data offset field of a header. */
  function OffsetField(h: seq<Byte>): nat
    requires |h| >= 14
  {
    LeValue(h[10..14])
  }

  /** The header is 14 bytes, starts with "BM" and decodes to the size and offset it was built from. */
  lemma {:induction false} HeaderFields(size: nat)
    requires size < Limit
    ensures |Header(size)| == 14
    ensures Header(size)[0] == 0x42 && Header(size)[1] == 0x4D
    ensures SizeField(Header(size)) == size
    ensures Header(size)[6..10] == [0, 0, 0, 0]
    ensures OffsetField(Header(size)) == 54
  {
    var h := Header(size);
    assert h[2..6] == Le4(size);
    Le4RoundTrip(size);
    assert h[10..14] == Le4(54);
    Le4RoundTrip(54);
  }

  /**
   * What `load_from_clipboard` hands to Pillow, as written: the header sized
   * by `len(data)` followed by `data[14:]`. None stands for the OverflowError
   * of `to_bytes` on a DIB of 4 GiB or more.
   */
  function ClipboardBmpAsWritten(data: seq<Byte>): (r: Option<seq<Byte>>)
    ensures r.Some? <==> |data| < Limit
    ensures r.Some? ==> 14 <= |r.value| && r.value[..14] == Header(|data|) && r.value[14..] == (if |data| >= 14 then data[14..] else [])
    ensures r.Some? && |data| >= 14 ==> |r.value| == |data|
  {
    if |data| < Limit then
      Some(Header(|data|) + (if |data| >= 14 then data[14..] else []))
    else
      None
  }

  /** `copy_to_clipboard`: a BMP file without its 14-byte file header, i.e. a DIB. */
  function BmpToDib(bmp: seq<Byte>): (dib: seq<Byte>)
    ensures |bmp| >= 14 ==> bmp == bmp[..14] + dib
  {
    if |bmp| >= 14 then bmp[14..] else []
  }

  /**
   * The info-header sizes Pillow's BMP reader accepts: OS/2 (12),
   * BITMAPINFOHEADER (40), its two Adobe extensions (52, 56), OS/2 2.x (64),
   * BITMAPV4HEADER (108) and BITMAPV5HEADER (124).
   */
  predicate KnownInfoHeaderSize(n: nat) {
    n == 12 || n == 40 || n == 52 || n == 56 || n == 64 || n == 108 || n == 124
  }

  /** A BMP file whose header is the one `Header` builds for its own length (what Pillow writes for an RGB image). */
  predicate StandardBmp(bmp: seq<Byte>) {
    14 <= |bmp| < Limit && bmp[..14] == Header(|bmp|)
  }

  /**
   * The assembly as written never gives back the BMP file a DIB was cut
   * from: it is 14 bytes short, and its header's size field is wrong when
   * the file is only a header.
   */
  lemma {:induction false} AsWrittenBreaksRoundTrip(bmp: seq<Byte>)
    requires StandardBmp(bmp)
    ensures ClipboardBmpAsWritten(BmpToDib(bmp)) != Some(bmp)
  {
    var dib := BmpToDib(bmp);
    var r := ClipboardBmpAsWritten(dib);
    if |bmp| == 14 {
      assert dib == [];
      assert r.value[..14] == Header(0);
      HeaderFields(0);
      HeaderFields(14);
      assert r.value[..14] != bmp[..14] by {
        assert SizeField(Header(0)) != SizeField(Header(14));
      }
    } else if |dib| >= 14 {
      assert |r.value| == |bmp| - 14;
    } else {
      HeaderFields(|dib|);
      assert |r.value| == 14;
    }
  }

  /**
   * What the assembly as written does to a 24-bit BMP file cut down to its
   * DIB: bytes 14 to 17 of the result, where a reader looks for the size of
   * the info header, hold the DIB's bit count (24) and the first half of
   * its compression field (0), i.e. the size 24, which no BMP reader knows.
   */
  lemma {:induction false} AsWrittenMisreadsInfoHeader(bmp: seq<Byte>)
    requires 32 <= |bmp| < Limit && bmp[28..32] == [24, 0, 0, 0]
    ensures var r := ClipboardBmpAsWritten(BmpToDib(bmp));
      && r.Some? && |r.value| >= 18
      && LeValue(r.value[14..18]) == 24
      && !KnownInfoHeaderSize(LeValue(r.value[14..18]))
  {
    var dib := BmpToDib(bmp);
    var r := ClipboardBmpAsWritten(dib).value;
    assert r[14..18] == dib[14..18] == bmp[28..32];
    Le4RoundTrip(24);
    assert Le4(24) == [24, 0, 0, 0];
  }

  /**
   * The intended assembly: a file header sized for header plus DIB, then
   * the whole DIB. None when the file would not fit the 4-byte size field.
   */
  function DibToBmp(dib: seq<Byte>): (r: Option<seq<Byte>>)
    ensures r.Some? <==> |dib| + 14 < Limit
    ensures r.Some? ==> |r.value| == |dib| + 14 && r.value[14..] == dib
  {
    if |dib| + 14 < Limit then Some(Header(|dib| + 14) + dib) else None
  }

  /** With the intended assembly, stripping the header and putting it back gives the same file. */
  lemma {:induction false} DibRoundTrip(bmp: seq<Byte>)
    requires StandardBmp(bmp)
    ensures DibToBmp(BmpToDib(bmp)) == Some(bmp)
  {
    var dib := BmpToDib(bmp);
    assert bmp == bmp[..14] + dib;
    assert |dib| + 14 == |bmp|;
  }
}
