/**
 * The fallback image-header reader used when no image library is available: the width and height
 * of a PNG, a baseline or progressive JPEG, or a lossy WebP image, read from the first bytes of
 * the file. The two copies of the reader in the program are the same code; this module models it
 * once.
 */
module ImageHeader {
  import opened Wrappers
  import opened Text

  datatype Dimensions = Dimensions(width: nat, height: nat)

  /** A byte as Node.js's 'ascii' decoding reads it: the high bit is cleared. */
  function AsciiChar(b: Byte): char
  {
    (b % 128) as char
  }

  /** `buffer.toString('ascii', start, start + |text|) === text`. */
  predicate AsciiAt(buf: seq<Byte>, start: nat, text: string)
    requires start + |text| <= |buf|
  {
    forall k :: 0 <= k < |text| ==> AsciiChar(buf[start + k]) == text[k]
  }

  /** `readUInt16BE`. */
  function BE16(buf: seq<Byte>, i: nat): (r: nat)
    requires i + 2 <= |buf|
    ensures r < 0x1_0000
  {
    buf[i] as int * 0x100 + buf[i + 1] as int
  }

  /** `readUInt32BE`. */
  function BE32(buf: seq<Byte>, i: nat): (r: nat)
    requires i + 4 <= |buf|
    ensures r < 0x1_0000_0000
  {
    BE16(buf, i) * 0x1_0000 + BE16(buf, i + 2)
  }

  /** `readUInt16LE`. */
  function LE16(buf: seq<Byte>, i: nat): (r: nat)
    requires i + 2 <= |buf|
    ensures r < 0x1_0000
  {
    buf[i] as int + buf[i + 1] as int * 0x100
  }

  /** `& 0x3FFF` on a 16-bit value: its low 14 bits. */
  function Low14(v: nat): (r: nat)
    ensures r < 0x4000
  {
    v % 0x4000
  }

  predicate IsPng(buf: seq<Byte>)
  {
    |buf| >= 24 && AsciiAt(buf, 1, "PNG")
  }

  predicate IsJpeg(buf: seq<Byte>)
  {
    |buf| >= 2 && buf[0] == 0xFF && buf[1] == 0xD8
  }

  predicate IsWebpVp8(buf: seq<Byte>)
  {
    |buf| >= 30 && AsciiAt(buf, 0, "RIFF") && AsciiAt(buf, 8, "WEBP") && AsciiAt(buf, 12, "VP8 ")
  }

  /** A start-of-frame marker, SOF0 to SOF3. */
  predicate IsFrameMarker(m: Byte)
  {
    0xC0 <= m <= 0xC3
  }

  /**
   * The JPEG marker scan from `offset`: at an 0xFF, a frame marker gives the height and width at
   * +5 and +7, another marker is skipped with its segment length; any other byte is passed over.
   * The scan stops without result once fewer than nine bytes remain.
   */
  function JpegScan(buf: seq<Byte>, offset: nat): Option<Dimensions>
    decreases |buf| - offset
  {
    if offset >= |buf| - 8 then None
    else if buf[offset] == 0xFF then
      if IsFrameMarker(buf[offset + 1]) then Some(Dimensions(BE16(buf, offset + 7), BE16(buf, offset + 5)))
      else JpegScan(buf, offset + 2 + BE16(buf, offset + 2))
    else JpegScan(buf, offset + 1)
  }

  /** `getImageDimensionsFromBuffer`: PNG, then JPEG, then WebP; otherwise nothing. */
  function DimensionsOf(buf: seq<Byte>): Option<Dimensions>
  {
    if IsPng(buf) then Some(Dimensions(BE32(buf, 16), BE32(buf, 20)))
    else if IsJpeg(buf) && JpegScan(buf, 2).Some? then JpegScan(buf, 2)
    else if IsWebpVp8(buf) then Some(Dimensions(Low14(LE16(buf, 26)), Low14(LE16(buf, 28))))
    else None
  }

  /** The reader as written: the PNG and WebP branches read directly, the JPEG branch walks the markers. */
  method DimensionsFromBuffer(buf: seq<Byte>) returns (r: Option<Dimensions>)
    ensures r == DimensionsOf(buf)
  {
    if |buf| >= 24 && AsciiAt(buf, 1, "PNG") {
      return Some(Dimensions(BE32(buf, 16), BE32(buf, 20)));
    }
    if |buf| >= 2 && buf[0] == 0xFF && buf[1] == 0xD8 {
      var offset := 2;
      while offset < |buf| - 8
        invariant offset >= 2
        invariant JpegScan(buf, offset) == JpegScan(buf, 2)
        decreases |buf| - offset
      {
        if buf[offset] == 0xFF {
          var marker := buf[offset + 1];
          if 0xC0 <= marker <= 0xC3 {
            return Some(Dimensions(BE16(buf, offset + 7), BE16(buf, offset + 5)));
          }
          offset := offset + 2 + BE16(buf, offset + 2);
        } else {
          offset := offset + 1;
        }
      }
      assert JpegScan(buf, offset) == None;
    }
    if |buf| >= 30 && AsciiAt(buf, 0, "RIFF") && AsciiAt(buf, 8, "WEBP") {
      if AsciiAt(buf, 12, "VP8 ") {
        return Some(Dimensions(Low14(LE16(buf, 26)), Low14(LE16(buf, 28))));
      }
    }
    return None;
  }

  /**
   * A JPEG result comes from a frame marker the scan reaches: an 0xFF at some offset from 2 on,
   * with nine bytes left, followed by SOF0 to SOF3, the height at +5 and the width at +7.
   */
  lemma {:induction false} JpegScanFound(buf: seq<Byte>, offset: nat)
    requires JpegScan(buf, offset).Some?
    ensures exists o: nat :: (offset <= o && o + 8 < |buf| && buf[o] == 0xFF && IsFrameMarker(buf[o + 1])
      && JpegScan(buf, offset) == Some(Dimensions(BE16(buf, o + 7), BE16(buf, o + 5))))
    decreases |buf| - offset
  {
    if buf[offset] == 0xFF {
      if !IsFrameMarker(buf[offset + 1]) {
        JpegScanFound(buf, offset + 2 + BE16(buf, offset + 2));
      }
    } else {
      JpegScanFound(buf, offset + 1);
    }
  }

  /** A buffer too short for a frame header has no JPEG dimensions. */
  lemma JpegScanShort(buf: seq<Byte>)
    requires |buf| <= 10
    ensures JpegScan(buf, 2) == None
  {
  }

  /** The formats are tried in order: a PNG signature wins over everything else. */
  lemma PngFirst(buf: seq<Byte>)
    requires IsPng(buf)
    ensures DimensionsOf(buf) == Some(Dimensions(BE32(buf, 16), BE32(buf, 20)))
  {
  }

  /**
   * A JPEG whose scan finds no frame marker has no dimensions: its first byte reads as DEL, never
   * as the R of a RIFF header.
   */
  lemma JpegWithoutFrame(buf: seq<Byte>)
    requires IsJpeg(buf) && !IsPng(buf) && JpegScan(buf, 2).None?
    ensures DimensionsOf(buf) == None
  {
    assert AsciiChar(buf[0]) == 0x7F as char;
    assert |buf| >= 30 ==> !AsciiAt(buf, 0, "RIFF") by {
      if |buf| >= 30 { assert AsciiChar(buf[0 + 0]) != "RIFF"[0]; }
    }
  }

  /**
   * A result is given exactly for a recognised header; JPEG dimensions are 16-bit and WebP
   * dimensions are below 16384.
   */
  lemma DimensionsSpec(buf: seq<Byte>)
    ensures DimensionsOf(buf).Some? <==> IsPng(buf) || (IsJpeg(buf) && JpegScan(buf, 2).Some?) || IsWebpVp8(buf)
    ensures !IsPng(buf) && !IsJpeg(buf) && IsWebpVp8(buf) ==>
      DimensionsOf(buf).value.width < 0x4000 && DimensionsOf(buf).value.height < 0x4000
    ensures !IsPng(buf) && IsJpeg(buf) && JpegScan(buf, 2).Some? ==>
      DimensionsOf(buf).value.width < 0x1_0000 && DimensionsOf(buf).value.height < 0x1_0000
  {
    if IsJpeg(buf) && !IsPng(buf) && JpegScan(buf, 2).Some? {
      JpegScanFound(buf, 2);
    }
  }
}
