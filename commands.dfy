/**
 * The messages the client sends to a device, before the prefix is put in
 * front of them, and the cutting of a whole grid into 8x8 `map` messages.
 */
module Commands {
  import opened Osc
  import opened Encoding

  /** "/grid/led/" followed by the argument's fragment and the operation. */
  function LedAddr(frag: string, op: string): string {
    "/grid/led/" + frag + op
  }

  /** `set`: one led, on/off or intensity. */
  function SetFrame(x: i32, y: i32, v: LevelArg): Frame {
    Frame(LedAddr(LevelEncoding(v).0, "set"), [Int(x), Int(y), LevelEncoding(v).1])
  }

  /** `all`: every led. */
  function AllFrame(v: LevelArg): Frame {
    Frame(LedAddr(LevelEncoding(v).0, "all"), [LevelEncoding(v).1])
  }

  /** `map`, `row` and `col`: two offsets followed by the encoded list argument. */
  function OffsetFrame(op: string, x: i32, y: i32, a: GridArg): Frame
    requires FixedLength(a)
  {
    Frame(LedAddr(GridArgEncoding(a).0, op), [Int(x), Int(y)] + GridArgEncoding(a).1)
  }

  /** `ring_set`, `ring_all`, `ring_range`: every number goes out through `as i32`. */
  function RingSetFrame(n: usize, index: u32, intensity: u32): Frame {
    Frame("/ring/set", [Int(WrapI32(n)), Int(WrapI32(index)), Int(WrapI32(intensity))])
  }

  function RingAllFrame(n: usize, intensity: u32): Frame {
    Frame("/ring/all", [Int(WrapI32(n)), Int(WrapI32(intensity))])
  }

  function RingRangeFrame(n: usize, start: usize, end: usize, intensity: u32): Frame {
    Frame("/ring/range", [Int(WrapI32(n)), Int(WrapI32(start)), Int(WrapI32(end)), Int(WrapI32(intensity))])
  }

  /** `ring_map`: the encoder number and its 64 led intensities. */
  function RingMapFrame(n: usize, values: seq<u8>): Frame
    requires |values| == 64
  {
    Frame("/ring/map", [Int(WrapI32(n))] + Ints(values))
  }

  /** `tilt_all`: sensor 0 on or off. */
  function TiltFrame(on: bool): Frame {
    Frame("/tilt/set", [Int(0), Int(if on then 1 else 0)])
  }

  function RotationFrame(rotation: i32): Frame {
    Frame("/sys/rotation", [Int(rotation)])
  }

  function PrefixFrame(prefix: string): Frame {
    Frame("/sys/prefix", [Str(prefix)])
  }

  // ---------------------------------------------------------------------------
  // Whole-grid updates

  /** How many whole quadrants fit in a side: Rust's `n / 8` truncates toward zero and `0..k` is empty for k <= 0. */
  function QuadCount(n: i32): nat {
    if n >= 0 then n / 8 else 0
  }

  /** Every cell `set_all` and `set_all_intensity` read lies inside the array: the last cell of the last quadrant has an index below its length. */
  predicate GridCovered(len: nat, width: i32, height: i32) {
    QuadCount(width) == 0 || QuadCount(height) == 0 ||
    ToIdx(8 * QuadCount(width) - 1, 8 * QuadCount(height) - 1, width) < len
  }

  /** Quadrant (a, b), the a-th from the top and b-th from the left, lies inside a covered grid. */
  lemma QuadFitsAt(len: nat, width: i32, height: i32, a: nat, b: nat)
    requires GridCovered(len, width, height)
    requires a < QuadCount(height) && b < QuadCount(width)
    ensures QuadFits(len, width, 8 * b, 8 * a)
    ensures 8 * b < 0x8000_0000 && 8 * a < 0x8000_0000
  {
    var wq, hq := QuadCount(width), QuadCount(height);
    assert (8 * a + 7) * width <= (8 * hq - 1) * width;
  }

  /** The origin of the q-th quadrant when quadrants are taken row by row, wq to a row. */
  function QuadRow(q: nat, wq: nat): nat
    requires wq > 0
  {
    q / wq
  }

  function QuadColumn(q: nat, wq: nat): nat
    requires wq > 0
  {
    q % wq
  }

  /** Position a*wq+b of the row-by-row order is quadrant (a, b). */
  lemma QuadIndex(a: nat, b: nat, wq: nat, hq: nat)
    requires a < hq && b < wq
    ensures a * wq + b < hq * wq
    ensures QuadRow(a * wq + b, wq) == a && QuadColumn(a * wq + b, wq) == b
  {
    MulLeft(a + 1, hq, wq);
    var q := a * wq + b;
    var d, r := q / wq, q % wq;
    assert q == d * wq + r;
    if d > a {
      MulLeft(a + 1, d, wq);
      assert false;
    }
    if d < a {
      MulLeft(d + 1, a, wq);
      assert false;
    }
  }

  lemma MulLeft(x: nat, y: nat, m: nat)
    requires x <= y
    ensures x * m <= y * m
  {
  }

  /** Every position below hq*wq is some quadrant (a, b) with a < hq and b < wq. */
  lemma QuadIndexInverse(q: nat, wq: nat, hq: nat)
    requires q < hq * wq
    ensures wq > 0 && QuadRow(q, wq) < hq && QuadColumn(q, wq) < wq
    ensures q == QuadRow(q, wq) * wq + QuadColumn(q, wq)
  {
    var d := q / wq;
    if d >= hq {
      MulLeft(hq, d, wq);
      assert false;
    }
  }

  /** The `map` message `set_all` sends for quadrant (a, b): its rows packed into bytes. */
  function MaskFrameAt(leds: seq<bool>, width: i32, height: i32, a: nat, b: nat): Frame
    requires GridCovered(|leds|, width, height)
    requires a < QuadCount(height) && b < QuadCount(width)
  {
    QuadFitsAt(|leds|, width, height, a, b);
    OffsetFrame("map", 8 * b, 8 * a, Masks(PackLeds(Quad(leds, width, 8 * b, 8 * a))))
  }

  /** The `map` message `set_all_intensity` sends for quadrant (a, b): its 64 intensities. */
  function LevelFrameAt(leds: seq<u8>, width: i32, height: i32, a: nat, b: nat): Frame
    requires GridCovered(|leds|, width, height)
    requires a < QuadCount(height) && b < QuadCount(width)
  {
    QuadFitsAt(|leds|, width, height, a, b);
    OffsetFrame("map", 8 * b, 8 * a, Levels(Quad(leds, width, 8 * b, 8 * a)))
  }

  /** Everything `set_all` sends: one message per whole quadrant, quadrant rows outer, columns inner. */
  function SetAllFrames(leds: seq<bool>, width: i32, height: i32): (fs: seq<Frame>)
    requires GridCovered(|leds|, width, height)
  {
    var wq, hq := QuadCount(width), QuadCount(height);
    seq(hq * wq, q requires 0 <= q < hq * wq =>
      QuadIndexInverse(q, wq, hq);
      MaskFrameAt(leds, width, height, QuadRow(q, wq), QuadColumn(q, wq)))
  }

  /** Everything `set_all_intensity` sends, in the same order. */
  function SetAllIntensityFrames(leds: seq<u8>, width: i32, height: i32): (fs: seq<Frame>)
    requires GridCovered(|leds|, width, height)
  {
    var wq, hq := QuadCount(width), QuadCount(height);
    seq(hq * wq, q requires 0 <= q < hq * wq =>
      QuadIndexInverse(q, wq, hq);
      LevelFrameAt(leds, width, height, QuadRow(q, wq), QuadColumn(q, wq)))
  }

  /**
   * `set_all` sends (H/8)*(W/8) messages, quadrant rows outer and columns
   * inner: position a*(W/8)+b holds quadrant (a, b), sent to "/grid/led/map"
   * with offsets (8b, 8a) and that quadrant's eight rows packed into bytes.
   */
  lemma SetAllLayout(leds: seq<bool>, width: i32, height: i32, a: nat, b: nat)
    requires GridCovered(|leds|, width, height)
    requires a < QuadCount(height) && b < QuadCount(width)
    ensures |SetAllFrames(leds, width, height)| == QuadCount(height) * QuadCount(width)
    ensures QuadFits(|leds|, width, 8 * b, 8 * a)
    ensures a * QuadCount(width) + b < |SetAllFrames(leds, width, height)|
    ensures SetAllFrames(leds, width, height)[a * QuadCount(width) + b] ==
      Frame("/grid/led/map", [Int(8 * b), Int(8 * a)] + Ints(PackLeds(Quad(leds, width, 8 * b, 8 * a))))
  {
    QuadIndex(a, b, QuadCount(width), QuadCount(height));
    QuadFitsAt(|leds|, width, height, a, b);
  }

  /**
   * A device that unpacks the messages of `set_all` recovers every led of
   * every whole quadrant: the led at (8b + k, 8a + i) is bit k of mask i of
   * the message for quadrant (a, b).
   */
  lemma MaskBit(leds: seq<bool>, width: i32, height: i32, a: nat, b: nat, i: nat, k: nat)
    requires GridCovered(|leds|, width, height)
    requires a < QuadCount(height) && b < QuadCount(width) && i < 8 && k < 8
    ensures 0 <= ToIdx(8 * b + k, 8 * a + i, width) < |leds|
    ensures a * QuadCount(width) + b < |SetAllFrames(leds, width, height)|
    ensures var f := SetAllFrames(leds, width, height)[a * QuadCount(width) + b];
      && |f.args| == 10 && f.args[2 + i].Int?
      && Bit(f.args[2 + i].i, k) == leds[ToIdx(8 * b + k, 8 * a + i, width)]
  {
    SetAllLayout(leds, width, height, a, b);
    QuadCellInBounds(|leds|, width, 8 * b, 8 * a, i, k);
    var q := Quad(leds, width, 8 * b, 8 * a);
    BitOfPacked(q, i, k);
    assert q[8 * i + k] == QuadCell(leds, width, 8 * b, 8 * a, i, k);
  }

  /**
   * `set_all_intensity` sends the same number of messages in the same order,
   * each to "/grid/led/level/map" with its quadrant's 64 intensities, row by row.
   */
  lemma SetAllIntensityLayout(leds: seq<u8>, width: i32, height: i32, a: nat, b: nat)
    requires GridCovered(|leds|, width, height)
    requires a < QuadCount(height) && b < QuadCount(width)
    ensures |SetAllIntensityFrames(leds, width, height)| == QuadCount(height) * QuadCount(width)
    ensures QuadFits(|leds|, width, 8 * b, 8 * a)
    ensures a * QuadCount(width) + b < |SetAllIntensityFrames(leds, width, height)|
    ensures SetAllIntensityFrames(leds, width, height)[a * QuadCount(width) + b] ==
      Frame("/grid/led/level/map", [Int(8 * b), Int(8 * a)] + Ints(Quad(leds, width, 8 * b, 8 * a)))
  {
    QuadIndex(a, b, QuadCount(width), QuadCount(height));
    QuadFitsAt(|leds|, width, height, a, b);
  }

  /** Every intensity of every whole quadrant reaches the device: the one at (8b + k, 8a + i) is argument 2 + 8i + k of quadrant (a, b). */
  lemma LevelAt(leds: seq<u8>, width: i32, height: i32, a: nat, b: nat, i: nat, k: nat)
    requires GridCovered(|leds|, width, height)
    requires a < QuadCount(height) && b < QuadCount(width) && i < 8 && k < 8
    ensures 0 <= ToIdx(8 * b + k, 8 * a + i, width) < |leds|
    ensures a * QuadCount(width) + b < |SetAllIntensityFrames(leds, width, height)|
    ensures var f := SetAllIntensityFrames(leds, width, height)[a * QuadCount(width) + b];
      && |f.args| == 66 && f.args[2 + 8 * i + k] == Int(leds[ToIdx(8 * b + k, 8 * a + i, width)])
  {
    SetAllIntensityLayout(leds, width, height, a, b);
    QuadCellInBounds(|leds|, width, 8 * b, 8 * a, i, k);
    var q := Quad(leds, width, 8 * b, 8 * a);
    var args: seq<Arg> := [Int(8 * b), Int(8 * a)] + Ints(q);
    assert args[2 + 8 * i + k] == Ints(q)[8 * i + k] == Int(q[8 * i + k]);
    assert q[8 * i + k] == QuadCell(leds, width, 8 * b, 8 * a, i, k);
  }
}
