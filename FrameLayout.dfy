/** Byte layout of the two shared-memory segments the capture stage creates:
    the frame segment (frame counter, capture timestamp, pixels) and the
    frame-size segment (rows, columns, channels as three longs), with the
    code that writes them and the code that reads them back. */
module FrameLayout {

  import opened Bytes
  import Ipc

  /** Offsets the capture stage writes at (main_A lines 211-213). */
  const COUNTER_OFFSET: nat := 0
  const STAMP_OFFSET: nat := 4
  const PIXELS_OFFSET: nat := 12

  /** sizeof(int64_t) + sizeof(int): the bytes in front of the pixels. */
  const HEADER_SIZE: nat := 12

  /** sizeof(long[3]) on LP64. */
  const FRAME_SIZE_BYTES: nat := 24

  /** Geometry of a captured cv::Mat. */
  datatype FrameSize = FrameSize(rows: int, cols: int, channels: int)

  /** rows * cols * channels(): bytes of pixel data in one frame. */
  function PixelCount(size: FrameSize): (n: int)
  {
    size.rows * size.cols * size.channels
  }

  /** What one accepted write leaves in the frame segment: the counter at
      [0, 4), the timestamp at [4, 12) and the pixels from 12 on. */
  function FrameBytes(counter: int, stampMs: int, pixels: seq<byte>): (seg: seq<byte>)
    requires IsU32(counter) && IsI64(stampMs)
    ensures |seg| == |pixels| + HEADER_SIZE && seg[PIXELS_OFFSET..] == pixels
  {
    U32Bytes(counter) + I64Bytes(stampMs) + pixels
  }

  /** The three fields occupy disjoint ranges that fill a segment of exactly
      |pixels| + HEADER_SIZE bytes (the size the segment is truncated to). */
  lemma FrameBytesLayout(counter: int, stampMs: int, pixels: seq<byte>)
    requires IsU32(counter) && IsI64(stampMs)
    ensures |FrameBytes(counter, stampMs, pixels)| == |pixels| + HEADER_SIZE
    ensures FrameBytes(counter, stampMs, pixels)[COUNTER_OFFSET..STAMP_OFFSET] == U32Bytes(counter)
    ensures FrameBytes(counter, stampMs, pixels)[STAMP_OFFSET..PIXELS_OFFSET] == I64Bytes(stampMs)
    ensures FrameBytes(counter, stampMs, pixels)[PIXELS_OFFSET..] == pixels
  {
  }

  /** The frame as it was written, read at the writer's own offsets. */
  datatype FrameRecord = FrameRecord(counter: int, stampMs: int, pixels: seq<byte>)

  /** Reads a frame segment at the offsets the capture stage writes at. */
  function ReadFrame(seg: seq<byte>): (r: FrameRecord)
    requires |seg| >= HEADER_SIZE
    ensures IsU32(r.counter) && IsI64(r.stampMs) && |r.pixels| == |seg| - HEADER_SIZE
  {
    FrameRecord(ReadU32(seg[COUNTER_OFFSET..STAMP_OFFSET]),
                ReadI64(seg[STAMP_OFFSET..PIXELS_OFFSET]),
                seg[PIXELS_OFFSET..])
  }

  lemma FrameRoundTrip(counter: int, stampMs: int, pixels: seq<byte>)
    requires IsU32(counter) && IsI64(stampMs)
    ensures ReadFrame(FrameBytes(counter, stampMs, pixels)) == FrameRecord(counter, stampMs, pixels)
  {
    FrameBytesLayout(counter, stampMs, pixels);
    U32RoundTrip(counter);
    I64RoundTrip(stampMs);
  }

  /** The three memcpy calls of one accepted frame, into a segment of exact
      size. */
  method WriteFrame(region: array<byte>, counter: int, stampMs: int, pixels: seq<byte>)
    requires IsU32(counter) && IsI64(stampMs)
    requires region.Length == |pixels| + HEADER_SIZE
    modifies region
    ensures region[..] == FrameBytes(counter, stampMs, pixels)
  {
    Ipc.CopyInto(region, COUNTER_OFFSET, U32Bytes(counter));
    Ipc.CopyInto(region, STAMP_OFFSET, I64Bytes(stampMs));
    Ipc.CopyInto(region, PIXELS_OFFSET, pixels);
    assert region[..] == U32Bytes(counter) + I64Bytes(stampMs) + pixels;
  }

  /** What the detector and the renderer take out of the frame segment: an
      int64_t timestamp copied from offset 0 and a cv::Mat over the pixels
      from offset sizeof(int64_t) = 8 (main_B lines 197-200, main_C lines
      185-188). These are not the writer's offsets. */
  datatype ReaderView = ReaderView(stampMs: int, pixels: seq<byte>)

  function ReadFrameAsWritten(seg: seq<byte>, pixelCount: nat): (v: ReaderView)
    requires 8 + pixelCount <= |seg|
    ensures |v.pixels| == pixelCount
  {
    ReaderView(ReadI64(seg[0..8]), seg[8..8 + pixelCount])
  }

  /** On every written frame the readers' timestamp is made of the counter
      and the low half of the real timestamp, and their image starts with
      the high half of the timestamp and misses the last four pixel bytes. */
  lemma ReaderViewOfWrittenFrame(counter: int, stampMs: int, pixels: seq<byte>)
    requires IsU32(counter) && IsI64(stampMs) && |pixels| >= 4
    ensures ReadFrameAsWritten(FrameBytes(counter, stampMs, pixels), |pixels|)
         == ReaderView(ReadI64(U32Bytes(counter) + I64Bytes(stampMs)[..4]),
                       I64Bytes(stampMs)[4..] + pixels[..|pixels| - 4])
  {
    var seg := FrameBytes(counter, stampMs, pixels);
    FrameBytesLayout(counter, stampMs, pixels);
    assert seg[0..8] == U32Bytes(counter) + I64Bytes(stampMs)[..4];
    assert seg[8..8 + |pixels|] == I64Bytes(stampMs)[4..] + pixels[..|pixels| - 4];
  }

  /** A concrete frame the readers misread: frame 1 captured at time 0 with
      four pixel bytes of value 7 is seen as captured at time 1 with four
      zero bytes. */
  lemma ReadersMisreadFrame()
    ensures ReadFrameAsWritten(FrameBytes(1, 0, [7, 7, 7, 7]), 4) == ReaderView(1, [0, 0, 0, 0])
    ensures ReadFrame(FrameBytes(1, 0, [7, 7, 7, 7])) == FrameRecord(1, 0, [7, 7, 7, 7])
  {
    var seg := FrameBytes(1, 0, [7, 7, 7, 7]);
    SmallBytes();
    assert seg == [1, 0, 0, 0] + [0, 0, 0, 0, 0, 0, 0, 0] + [7, 7, 7, 7];
    assert seg[0..8] == [1, 0, 0, 0, 0, 0, 0, 0];
    assert seg[8..12] == [0, 0, 0, 0];
    FrameRoundTrip(1, 0, [7, 7, 7, 7]);
  }

  /** The encodings the concrete frame above is made of. */
  lemma SmallBytes()
    ensures U32Bytes(1) == [1, 0, 0, 0]
    ensures I64Bytes(0) == [0, 0, 0, 0, 0, 0, 0, 0]
    ensures ReadI64([1, 0, 0, 0, 0, 0, 0, 0]) == 1
  {
    Pow256Widths();
    assert LittleEndian(0, 0) == [];
    assert LittleEndian(0, 1) == [0];
    assert LittleEndian(0, 2) == [0, 0];
    assert LittleEndian(0, 3) == [0, 0, 0];
    assert LittleEndian(0, 4) == [0, 0, 0, 0];
    assert LittleEndian(0, 5) == [0, 0, 0, 0, 0];
    assert LittleEndian(0, 6) == [0, 0, 0, 0, 0, 0];
    assert LittleEndian(0, 7) == [0, 0, 0, 0, 0, 0, 0];
    assert LittleEndian(0, 8) == [0, 0, 0, 0, 0, 0, 0, 0];
    assert LittleEndian(1, 4) == [1, 0, 0, 0];
    FromLittleEndianRoundTrip([1, 0, 0, 0, 0, 0, 0, 0]);
    LittleEndianRoundTrip(1, 8);
    assert LittleEndian(1, 8) == [1] + LittleEndian(0, 7);
  }

  /** The frame-size segment: rows, cols and channels as three longs. */
  function FrameSizeBytes(size: FrameSize): (seg: seq<byte>)
    requires IsI64(size.rows) && IsI64(size.cols) && IsI64(size.channels)
  {
    I64Bytes(size.rows) + I64Bytes(size.cols) + I64Bytes(size.channels)
  }

  /** `long framesize[3]` as the detector and the renderer copy it out. */
  function ReadFrameSize(seg: seq<byte>): (size: FrameSize)
    requires |seg| == FRAME_SIZE_BYTES
  {
    FrameSize(ReadI64(seg[0..8]), ReadI64(seg[8..16]), ReadI64(seg[16..24]))
  }

  lemma FrameSizeRoundTrip(size: FrameSize)
    requires IsI64(size.rows) && IsI64(size.cols) && IsI64(size.channels)
    ensures |FrameSizeBytes(size)| == FRAME_SIZE_BYTES
    ensures ReadFrameSize(FrameSizeBytes(size)) == size
  {
    var seg := FrameSizeBytes(size);
    assert seg[0..8] == I64Bytes(size.rows);
    assert seg[8..16] == I64Bytes(size.cols);
    assert seg[16..24] == I64Bytes(size.channels);
    I64RoundTrip(size.rows);
    I64RoundTrip(size.cols);
    I64RoundTrip(size.channels);
  }

  /** The one memcpy of `long tocopy[3] = {rows, cols, channels}` into the
      frame-size segment of 3 * sizeof(long) bytes. */
  method WriteFrameSize(region: array<byte>, size: FrameSize)
    requires IsI64(size.rows) && IsI64(size.cols) && IsI64(size.channels)
    requires region.Length == FRAME_SIZE_BYTES
    modifies region
    ensures region[..] == FrameSizeBytes(size)
  {
    var toCopy := FrameSizeBytes(size);
    Ipc.CopyInto(region, 0, toCopy);
    assert region[..] == toCopy;
  }

  /** The frame-size header and the frame segment agree: the segment is
      truncated to rows * cols * channels + HEADER_SIZE bytes and the header
      holds that geometry, so a reader that takes the size from the header
      and the pixels at the writer's offset gets exactly the frame's
      pixels. */
  lemma HeaderDescribesFrame(size: FrameSize, counter: int, stampMs: int, pixels: seq<byte>)
    requires IsI64(size.rows) && IsI64(size.cols) && IsI64(size.channels)
    requires IsU32(counter) && IsI64(stampMs) && |pixels| == PixelCount(size)
    ensures var header := ReadFrameSize(FrameSizeBytes(size));
      && |FrameBytes(counter, stampMs, pixels)| == PixelCount(header) + HEADER_SIZE
      && ReadFrame(FrameBytes(counter, stampMs, pixels)).pixels[..PixelCount(header)] == pixels
  {
    FrameSizeRoundTrip(size);
    FrameRoundTrip(counter, stampMs, pixels);
  }
}
