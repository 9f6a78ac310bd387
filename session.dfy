/**
 * The `Monome` session object: the device's settings, an outbox standing for
 * the bounded channel to the network thread, and an inbox standing for the
 * bounded queue the network thread fills with what the device sends.
 */
module Session {
  import opened Osc
  import opened Device
  import opened Handshake
  import opened Encoding
  import opened Commands
  import opened Events

  /** A message with the session's prefix put in front of its address. */
  function WithPrefix(prefix: string, f: Frame): Frame {
    Frame(prefix + f.addr, f.args)
  }

  function PrefixAll(prefix: string, fs: seq<Frame>): (r: seq<Frame>)
    ensures |r| == |fs|
  {
    seq(|fs|, i requires 0 <= i < |fs| => WithPrefix(prefix, fs[i]))
  }

  /** `try_send` on a bounded channel: the message is queued if there is room and dropped (after logging) otherwise. */
  function Offer(queue: seq<Frame>, cap: nat, f: Frame): seq<Frame> {
    if |queue| < cap then queue + [f] else queue
  }

  /** Offering several messages one after the other. */
  function OfferAll(queue: seq<Frame>, cap: nat, fs: seq<Frame>): seq<Frame>
    decreases |fs|
  {
    if fs == [] then queue else Offer(OfferAll(queue, cap, fs[..|fs| - 1]), cap, fs[|fs| - 1])
  }

  /** Room left in a queue. */
  function Room(queue: seq<Frame>, cap: nat): nat {
    if |queue| < cap then cap - |queue| else 0
  }

  function Min(a: nat, b: nat): nat {
    if a < b then a else b
  }

  /** A burst of messages keeps what was queued and adds the longest prefix of the burst that fits: nothing is reordered and only the tail is lost. */
  lemma {:induction false} OfferAllKeepsOrder(queue: seq<Frame>, cap: nat, fs: seq<Frame>)
    ensures OfferAll(queue, cap, fs) == queue + fs[..Min(|fs|, Room(queue, cap))]
    decreases |fs|
  {
    if fs != [] {
      var init := fs[..|fs| - 1];
      OfferAllKeepsOrder(queue, cap, init);
      var n := Min(|init|, Room(queue, cap));
      assert init[..n] == fs[..n];
      if |init| < Room(queue, cap) {
        assert fs[..n + 1] == fs[..n] + [fs[|fs| - 1]];
      }
    }
  }

  lemma OfferAllSnoc(queue: seq<Frame>, cap: nat, fs: seq<Frame>, k: nat)
    requires k < |fs|
    ensures OfferAll(queue, cap, fs[..k + 1]) == Offer(OfferAll(queue, cap, fs[..k]), cap, fs[k])
  {
    assert fs[..k + 1][..k] == fs[..k];
  }

  /** Offering a burst in two parts is offering it at once. */
  lemma {:induction false} OfferAllAppend(queue: seq<Frame>, cap: nat, xs: seq<Frame>, ys: seq<Frame>)
    ensures OfferAll(queue, cap, xs + ys) == OfferAll(OfferAll(queue, cap, xs), cap, ys)
    decreases |ys|
  {
    if ys != [] {
      var init := ys[..|ys| - 1];
      var last := ys[|ys| - 1];
      assert (xs + ys)[..|xs + ys| - 1] == xs + init;
      assert (xs + ys)[|xs + ys| - 1] == last;
      OfferAllAppend(queue, cap, xs, init);
      calc {
        OfferAll(queue, cap, xs + ys);
        Offer(OfferAll(queue, cap, xs + init), cap, last);
        Offer(OfferAll(OfferAll(queue, cap, xs), cap, init), cap, last);
        OfferAll(OfferAll(queue, cap, xs), cap, ys);
      }
    } else {
      assert xs + ys == xs;
    }
  }

  /** The prefixed messages of quadrant row a of `set_all`, left to right. */
  function MaskRow(prefix: string, leds: seq<bool>, width: i32, height: i32, a: nat): (r: seq<Frame>)
    requires GridCovered(|leds|, width, height) && a < QuadCount(height)
    ensures |r| == QuadCount(width)
  {
    seq(QuadCount(width), b requires 0 <= b < QuadCount(width) => WithPrefix(prefix, MaskFrameAt(leds, width, height, a, b)))
  }

  /** The same for `set_all_intensity`. */
  function LevelRow(prefix: string, leds: seq<u8>, width: i32, height: i32, a: nat): (r: seq<Frame>)
    requires GridCovered(|leds|, width, height) && a < QuadCount(height)
    ensures |r| == QuadCount(width)
  {
    seq(QuadCount(width), b requires 0 <= b < QuadCount(width) => WithPrefix(prefix, LevelFrameAt(leds, width, height, a, b)))
  }

  /** Quadrant row a occupies positions a*(W/8) up to (a+1)*(W/8) of what it sends. */
  lemma MaskRowWithin(prefix: string, leds: seq<bool>, width: i32, height: i32, a: nat)
    requires GridCovered(|leds|, width, height) && a < QuadCount(height)
    ensures a * QuadCount(width) + QuadCount(width) <= |SetAllFrames(leds, width, height)|
    ensures PrefixAll(prefix, SetAllFrames(leds, width, height))[a * QuadCount(width)..a * QuadCount(width) + QuadCount(width)]
      == MaskRow(prefix, leds, width, height, a)
  {
    var wq, hq := QuadCount(width), QuadCount(height);
    MulLeft(a + 1, hq, wq);
    var frames, s := PrefixAll(prefix, SetAllFrames(leds, width, height)), a * wq;
    forall b | 0 <= b < wq
      ensures frames[s + b] == MaskRow(prefix, leds, width, height, a)[b]
    {
      MaskFrameOf(prefix, leds, width, height, a, b);
    }
    assert frames[s..s + wq] == MaskRow(prefix, leds, width, height, a);
  }

  lemma MaskFrameOf(prefix: string, leds: seq<bool>, width: i32, height: i32, a: nat, b: nat)
    requires GridCovered(|leds|, width, height)
    requires a < QuadCount(height) && b < QuadCount(width)
    ensures a * QuadCount(width) + b < |SetAllFrames(leds, width, height)|
    ensures PrefixAll(prefix, SetAllFrames(leds, width, height))[a * QuadCount(width) + b]
      == WithPrefix(prefix, MaskFrameAt(leds, width, height, a, b))
  {
    QuadIndex(a, b, QuadCount(width), QuadCount(height));
  }

  /** The prefixed messages of the first a quadrant rows of `set_all`, row after row. */
  function MaskRows(prefix: string, leds: seq<bool>, width: i32, height: i32, a: nat): seq<Frame>
    requires GridCovered(|leds|, width, height) && a <= QuadCount(height)
  {
    if a == 0 then [] else MaskRows(prefix, leds, width, height, a - 1) + MaskRow(prefix, leds, width, height, a - 1)
  }

  /** The first a quadrant rows are the first a*(W/8) messages of `set_all`, and all of them are all it sends. */
  lemma {:induction false} MaskRowsAll(prefix: string, leds: seq<bool>, width: i32, height: i32, a: nat)
    requires GridCovered(|leds|, width, height) && a <= QuadCount(height)
    ensures a * QuadCount(width) <= |SetAllFrames(leds, width, height)|
    ensures MaskRows(prefix, leds, width, height, a) == PrefixAll(prefix, SetAllFrames(leds, width, height))[..a * QuadCount(width)]
    ensures a == QuadCount(height) ==> MaskRows(prefix, leds, width, height, a) == PrefixAll(prefix, SetAllFrames(leds, width, height))
  {
    var wq, hq := QuadCount(width), QuadCount(height);
    var frames := PrefixAll(prefix, SetAllFrames(leds, width, height));
    MulLeft(a, hq, wq);
    if a > 0 {
      MaskRowsAll(prefix, leds, width, height, a - 1);
      NextQuadRow(a - 1, wq);
      MaskRowWithin(prefix, leds, width, height, a - 1);
      SplitAt(frames, (a - 1) * wq, a * wq);
    }
    if a == hq {
      assert frames[..hq * wq] == frames;
    }
  }

  /** Quadrant row a occupies positions a*(W/8) up to (a+1)*(W/8) of what it sends. */
  lemma LevelRowWithin(prefix: string, leds: seq<u8>, width: i32, height: i32, a: nat)
    requires GridCovered(|leds|, width, height) && a < QuadCount(height)
    ensures a * QuadCount(width) + QuadCount(width) <= |SetAllIntensityFrames(leds, width, height)|
    ensures PrefixAll(prefix, SetAllIntensityFrames(leds, width, height))[a * QuadCount(width)..a * QuadCount(width) + QuadCount(width)]
      == LevelRow(prefix, leds, width, height, a)
  {
    var wq, hq := QuadCount(width), QuadCount(height);
    MulLeft(a + 1, hq, wq);
    var frames, s := PrefixAll(prefix, SetAllIntensityFrames(leds, width, height)), a * wq;
    forall b | 0 <= b < wq
      ensures frames[s + b] == LevelRow(prefix, leds, width, height, a)[b]
    {
      LevelFrameOf(prefix, leds, width, height, a, b);
    }
    assert frames[s..s + wq] == LevelRow(prefix, leds, width, height, a);
  }

  lemma LevelFrameOf(prefix: string, leds: seq<u8>, width: i32, height: i32, a: nat, b: nat)
    requires GridCovered(|leds|, width, height)
    requires a < QuadCount(height) && b < QuadCount(width)
    ensures a * QuadCount(width) + b < |SetAllIntensityFrames(leds, width, height)|
    ensures PrefixAll(prefix, SetAllIntensityFrames(leds, width, height))[a * QuadCount(width) + b]
      == WithPrefix(prefix, LevelFrameAt(leds, width, height, a, b))
  {
    QuadIndex(a, b, QuadCount(width), QuadCount(height));
  }

  /** The prefixed messages of the first a quadrant rows of `set_all_intensity`, row after row. */
  function LevelRows(prefix: string, leds: seq<u8>, width: i32, height: i32, a: nat): seq<Frame>
    requires GridCovered(|leds|, width, height) && a <= QuadCount(height)
  {
    if a == 0 then [] else LevelRows(prefix, leds, width, height, a - 1) + LevelRow(prefix, leds, width, height, a - 1)
  }

  /** The first a quadrant rows are the first a*(W/8) messages of `set_all_intensity`, and all of them are all it sends. */
  lemma {:induction false} LevelRowsAll(prefix: string, leds: seq<u8>, width: i32, height: i32, a: nat)
    requires GridCovered(|leds|, width, height) && a <= QuadCount(height)
    ensures a * QuadCount(width) <= |SetAllIntensityFrames(leds, width, height)|
    ensures LevelRows(prefix, leds, width, height, a) == PrefixAll(prefix, SetAllIntensityFrames(leds, width, height))[..a * QuadCount(width)]
    ensures a == QuadCount(height) ==> LevelRows(prefix, leds, width, height, a) == PrefixAll(prefix, SetAllIntensityFrames(leds, width, height))
  {
    var wq, hq := QuadCount(width), QuadCount(height);
    var frames := PrefixAll(prefix, SetAllIntensityFrames(leds, width, height));
    MulLeft(a, hq, wq);
    if a > 0 {
      LevelRowsAll(prefix, leds, width, height, a - 1);
      NextQuadRow(a - 1, wq);
      LevelRowWithin(prefix, leds, width, height, a - 1);
      SplitAt(frames, (a - 1) * wq, a * wq);
    }
    if a == hq {
      assert frames[..hq * wq] == frames;
    }
  }

  lemma SplitAt<T>(s: seq<T>, i: nat, j: nat)
    requires i <= j <= |s|
    ensures s[..j] == s[..i] + s[i..j]
  {
  }

  /** After a whole quadrant row the count of messages reaches the start of the next row. */
  lemma NextQuadRow(a: nat, wq: nat)
    ensures a * wq + wq == (a + 1) * wq
  {
  }

  /** The settings of a session, everything but its two queues. */
  datatype Settings = Settings(
    name: string,
    deviceType: MonomeDeviceType,
    port: i32,
    host: string,
    id: string,
    prefix: string,
    rotation: i32,
    size: (i32, i32))

  class Monome {
    var name: string
    var deviceType: MonomeDeviceType
    var port: i32
    var host: string
    var id: string
    var prefix: string
    var rotation: i32
    var size: (i32, i32)
    /** Messages handed to the network thread and not yet sent. */
    var outbox: seq<Frame>
    const outCap: nat
    /** Packets received from the device and not yet polled. */
    var inbox: seq<Packet>
    const inCap: nat

    /** Neither queue holds more than its capacity. */
    predicate Valid()
      reads this
    {
      |outbox| <= outCap && |inbox| <= inCap
    }

    function Current(): Settings
      reads this
    {
      Settings(name, deviceType, port, host, id, prefix, rotation, size)
    }

    /**
     * The object `from_device` builds once the handshake is complete: name,
     * kind and port come from the enumerated device, the prefix is the one the
     * application asked for, the rest comes from the device's replies.
     */
    constructor (device: MonomeDevice, prefix: string, info: Info, outCap: nat, inCap: nat)
      requires Complete(info)
      ensures Valid() && outbox == [] && inbox == []
      ensures Current() == Settings(device.name, device.deviceType, device.port,
        info.host.value, info.id.value, prefix, info.rotation.value, info.size.value)
      ensures this.outCap == outCap && this.inCap == inCap
    {
      name := device.name;
      deviceType := device.deviceType;
      port := device.port;
      host := info.host.value;
      id := info.id.value;
      this.prefix := prefix;
      rotation := info.rotation.value;
      size := info.size.value;
      outbox := [];
      this.outCap := outCap;
      inbox := [];
      this.inCap := inCap;
    }

    /** `send_no_prefix`: hand one message to the network thread, or drop it when the channel is full. */
    method SendNoPrefix(f: Frame)
      requires Valid()
      modifies this
      ensures Valid() && Current() == old(Current()) && inbox == old(inbox)
      ensures outbox == Offer(old(outbox), outCap, f)
    {
      if |outbox| < outCap {
        outbox := outbox + [f];
      }
    }

    /** `send`: the same, with the current prefix in front of the address. */
    method Send(f: Frame)
      requires Valid()
      modifies this
      ensures Valid() && Current() == old(Current()) && inbox == old(inbox)
      ensures outbox == Offer(old(outbox), outCap, WithPrefix(prefix, f))
    {
      SendNoPrefix(WithPrefix(prefix, f));
    }

    /** `set`: grids only. */
    method Set(x: i32, y: i32, v: LevelArg)
      requires Valid()
      modifies this
      ensures Valid() && Current() == old(Current()) && inbox == old(inbox)
      ensures outbox == if deviceType == Grid then Offer(old(outbox), outCap, WithPrefix(prefix, SetFrame(x, y, v))) else old(outbox)
    {
      if deviceType != Grid {
        return;
      }
      Send(SetFrame(x, y, v));
    }

    /** `all`: grids only. */
    method All(v: LevelArg)
      requires Valid()
      modifies this
      ensures Valid() && Current() == old(Current()) && inbox == old(inbox)
      ensures outbox == if deviceType == Grid then Offer(old(outbox), outCap, WithPrefix(prefix, AllFrame(v))) else old(outbox)
    {
      if deviceType != Grid {
        return;
      }
      Send(AllFrame(v));
    }

    /** `map`: grids only. */
    method Map(x: i32, y: i32, a: GridArg)
      requires Valid() && FixedLength(a)
      modifies this
      ensures Valid() && Current() == old(Current()) && inbox == old(inbox)
      ensures outbox == if deviceType == Grid then Offer(old(outbox), outCap, WithPrefix(prefix, OffsetFrame("map", x, y, a))) else old(outbox)
    {
      if deviceType != Grid {
        return;
      }
      Send(OffsetFrame("map", x, y, a));
    }

    /** `row`: grids only. */
    method Row(x: i32, y: i32, a: GridArg)
      requires Valid() && FixedLength(a)
      modifies this
      ensures Valid() && Current() == old(Current()) && inbox == old(inbox)
      ensures outbox == if deviceType == Grid then Offer(old(outbox), outCap, WithPrefix(prefix, OffsetFrame("row", x, y, a))) else old(outbox)
    {
      if deviceType != Grid {
        return;
      }
      Send(OffsetFrame("row", x, y, a));
    }

    /** `col`: grids only. */
    method Col(x: i32, y: i32, a: GridArg)
      requires Valid() && FixedLength(a)
      modifies this
      ensures Valid() && Current() == old(Current()) && inbox == old(inbox)
      ensures outbox == if deviceType == Grid then Offer(old(outbox), outCap, WithPrefix(prefix, OffsetFrame("col", x, y, a))) else old(outbox)
    {
      if deviceType != Grid {
        return;
      }
      Send(OffsetFrame("col", x, y, a));
    }

    /**
     * `set_all`: grids only. Every whole quadrant, quadrant rows outer and
     * columns inner, goes out as a `map` of eight packed rows.
     */
    method SetAll(leds: seq<bool>)
      requires Valid()
      requires deviceType == Grid ==> GridCovered(|leds|, size.0, size.1)
      modifies this
      ensures Valid() && Current() == old(Current()) && inbox == old(inbox)
      ensures outbox == if deviceType == Grid
        then OfferAll(old(outbox), outCap, PrefixAll(prefix, SetAllFrames(leds, size.0, size.1)))
        else old(outbox)
    {
      if deviceType != Grid {
        return;
      }
      var width, height := size.0, size.1;
      var hq := QuadCount(height);
      ghost var pre, start := prefix, outbox;
      var masks := new u8[8];
      var a := 0;
      while a < hq
        invariant 0 <= a <= hq
        invariant Valid() && Current() == old(Current()) && inbox == old(inbox)
        invariant deviceType == Grid && prefix == pre && size == (width, height)
        invariant outbox == OfferAll(start, outCap, MaskRows(pre, leds, width, height, a))
      {
        SendMaskRow(leds, a, masks);
        OfferAllAppend(start, outCap, MaskRows(pre, leds, width, height, a), MaskRow(pre, leds, width, height, a));
        a := a + 1;
      }
      MaskRowsAll(pre, leds, width, height, hq);
    }

    /** One quadrant row of `set_all`: its quadrants left to right. */
    method SendMaskRow(leds: seq<bool>, a: nat, masks: array<u8>)
      requires Valid() && deviceType == Grid && masks.Length == 8
      requires GridCovered(|leds|, size.0, size.1) && a < QuadCount(size.1)
      modifies this, masks
      ensures Valid() && Current() == old(Current()) && inbox == old(inbox)
      ensures outbox == OfferAll(old(outbox), outCap, MaskRow(prefix, leds, size.0, size.1, a))
    {
      ghost var row := MaskRow(prefix, leds, size.0, size.1, a);
      var b := 0;
      while b < QuadCount(size.0)
        invariant 0 <= b <= QuadCount(size.0)
        invariant Valid() && Current() == old(Current()) && inbox == old(inbox)
        invariant outbox == OfferAll(old(outbox), outCap, row[..b])
      {
        OfferAllSnoc(old(outbox), outCap, row, b);
        SendMaskQuad(leds, a, b, masks);
        b := b + 1;
      }
      assert row[..b] == row;
    }

    /** One quadrant of `set_all`: pack quadrant (a, b) into the row masks and send it as a `map`. */
    method SendMaskQuad(leds: seq<bool>, a: nat, b: nat, masks: array<u8>)
      requires Valid() && deviceType == Grid && masks.Length == 8
      requires GridCovered(|leds|, size.0, size.1) && a < QuadCount(size.1) && b < QuadCount(size.0)
      modifies this, masks
      ensures Valid() && Current() == old(Current()) && inbox == old(inbox)
      ensures outbox == Offer(old(outbox), outCap, WithPrefix(prefix, MaskFrameAt(leds, size.0, size.1, a, b)))
    {
      QuadFitsAt(|leds|, size.0, size.1, a, b);
      FillRowMasks(leds, size.0, 8 * b, 8 * a, masks);
      Map(8 * b, 8 * a, Masks(masks[..]));
    }

    /**
     * `set_all_intensity`: grids only. Every whole quadrant goes out as a `level/map`
     * of its 64 intensities, in the same order.
     */
    method SetAllIntensity(leds: seq<u8>)
      requires Valid()
      requires deviceType == Grid ==> GridCovered(|leds|, size.0, size.1)
      modifies this
      ensures Valid() && Current() == old(Current()) && inbox == old(inbox)
      ensures outbox == if deviceType == Grid
        then OfferAll(old(outbox), outCap, PrefixAll(prefix, SetAllIntensityFrames(leds, size.0, size.1)))
        else old(outbox)
    {
      if deviceType != Grid {
        return;
      }
      var width, height := size.0, size.1;
      var hq := QuadCount(height);
      ghost var pre, start := prefix, outbox;
      var quad := new u8[64];
      var a := 0;
      while a < hq
        invariant 0 <= a <= hq
        invariant Valid() && Current() == old(Current()) && inbox == old(inbox)
        invariant deviceType == Grid && prefix == pre && size == (width, height)
        invariant outbox == OfferAll(start, outCap, LevelRows(pre, leds, width, height, a))
      {
        SendLevelRow(leds, a, quad);
        OfferAllAppend(start, outCap, LevelRows(pre, leds, width, height, a), LevelRow(pre, leds, width, height, a));
        a := a + 1;
      }
      LevelRowsAll(pre, leds, width, height, hq);
    }

    /** One quadrant row of `set_all_intensity`: its quadrants left to right. */
    method SendLevelRow(leds: seq<u8>, a: nat, quad: array<u8>)
      requires Valid() && deviceType == Grid && quad.Length == 64
      requires GridCovered(|leds|, size.0, size.1) && a < QuadCount(size.1)
      modifies this, quad
      ensures Valid() && Current() == old(Current()) && inbox == old(inbox)
      ensures outbox == OfferAll(old(outbox), outCap, LevelRow(prefix, leds, size.0, size.1, a))
    {
      ghost var row := LevelRow(prefix, leds, size.0, size.1, a);
      var b := 0;
      while b < QuadCount(size.0)
        invariant 0 <= b <= QuadCount(size.0)
        invariant Valid() && Current() == old(Current()) && inbox == old(inbox)
        invariant outbox == OfferAll(old(outbox), outCap, row[..b])
      {
        OfferAllSnoc(old(outbox), outCap, row, b);
        SendLevelQuad(leds, a, b, quad);
        b := b + 1;
      }
      assert row[..b] == row;
    }

    /** One quadrant of `set_all_intensity`: copy quadrant (a, b) into the intensity buffer and send it as a `map`. */
    method SendLevelQuad(leds: seq<u8>, a: nat, b: nat, quad: array<u8>)
      requires Valid() && deviceType == Grid && quad.Length == 64
      requires GridCovered(|leds|, size.0, size.1) && a < QuadCount(size.1) && b < QuadCount(size.0)
      modifies this, quad
      ensures Valid() && Current() == old(Current()) && inbox == old(inbox)
      ensures outbox == Offer(old(outbox), outCap, WithPrefix(prefix, LevelFrameAt(leds, size.0, size.1, a, b)))
    {
      QuadFitsAt(|leds|, size.0, size.1, a, b);
      FillQuad(leds, size.0, 8 * b, 8 * a, quad);
      Map(8 * b, 8 * a, Levels(quad[..]));
    }

    /** `ring_set`: arcs only. */
    method RingSet(n: usize, index: u32, intensity: u32)
      requires Valid()
      modifies this
      ensures Valid() && Current() == old(Current()) && inbox == old(inbox)
      ensures outbox == if deviceType == Arc then Offer(old(outbox), outCap, WithPrefix(prefix, RingSetFrame(n, index, intensity))) else old(outbox)
    {
      if deviceType != Arc {
        return;
      }
      Send(RingSetFrame(n, index, intensity));
    }

    /** `ring_all`: arcs only. */
    method RingAll(n: usize, intensity: u32)
      requires Valid()
      modifies this
      ensures Valid() && Current() == old(Current()) && inbox == old(inbox)
      ensures outbox == if deviceType == Arc then Offer(old(outbox), outCap, WithPrefix(prefix, RingAllFrame(n, intensity))) else old(outbox)
    {
      if deviceType != Arc {
        return;
      }
      Send(RingAllFrame(n, intensity));
    }

    /** `ring_range`: arcs only. */
    method RingRange(n: usize, start: usize, end: usize, intensity: u32)
      requires Valid()
      modifies this
      ensures Valid() && Current() == old(Current()) && inbox == old(inbox)
      ensures outbox == if deviceType == Arc then Offer(old(outbox), outCap, WithPrefix(prefix, RingRangeFrame(n, start, end, intensity))) else old(outbox)
    {
      if deviceType != Arc {
        return;
      }
      Send(RingRangeFrame(n, start, end, intensity));
    }

    /** `ring_map`: sent whatever the kind of device. */
    method RingMap(n: usize, values: seq<u8>)
      requires Valid() && |values| == 64
      modifies this
      ensures Valid() && Current() == old(Current()) && inbox == old(inbox)
      ensures outbox == Offer(old(outbox), outCap, WithPrefix(prefix, RingMapFrame(n, values)))
    {
      Send(RingMapFrame(n, values));
    }

    /** `tilt_all`: sent whatever the kind of device, under the prefix. */
    method TiltAll(on: bool)
      requires Valid()
      modifies this
      ensures Valid() && Current() == old(Current()) && inbox == old(inbox)
      ensures outbox == Offer(old(outbox), outCap, WithPrefix(prefix, TiltFrame(on)))
    {
      Send(TiltFrame(on));
    }

    /** `set_rotation`: tell the device without the prefix, then remember the rotation. */
    method SetRotation(r: i32)
      requires Valid()
      modifies this
      ensures Valid() && Current() == old(Current()).(rotation := r) && inbox == old(inbox)
      ensures outbox == Offer(old(outbox), outCap, RotationFrame(r))
    {
      SendNoPrefix(RotationFrame(r));
      rotation := r;
    }

    /** `set_prefix`: tell the device under the old prefix rules (no prefix), then use the new prefix for every later message. */
    method SetPrefix(p: string)
      requires Valid()
      modifies this
      ensures Valid() && Current() == old(Current()).(prefix := p) && inbox == old(inbox)
      ensures outbox == Offer(old(outbox), outCap, PrefixFrame(p))
    {
      SendNoPrefix(PrefixFrame(p));
      prefix := p;
    }

    /** `poll`: take the oldest received packet, if any, and decode it. */
    method Poll() returns (r: Outcome<Option<MonomeEvent>>)
      requires Valid()
      modifies this
      ensures Valid() && Current() == old(Current()) && outbox == old(outbox)
      ensures old(inbox) == [] ==> r == Done(None) && inbox == []
      ensures old(inbox) != [] ==> r == Parse(old(inbox)[0], prefix) && inbox == old(inbox)[1..]
    {
      if inbox == [] {
        return Done(None);
      }
      var p := inbox[0];
      inbox := inbox[1..];
      r := Parse(p, prefix);
    }

    /** The network thread's `push` into the bounded receive queue: a packet that finds it full is dropped. */
    method Deliver(p: Packet)
      requires Valid()
      modifies this
      ensures Valid() && Current() == old(Current()) && outbox == old(outbox)
      ensures inbox == if |old(inbox)| < inCap then old(inbox) + [p] else old(inbox)
    {
      if |inbox| < inCap {
        inbox := inbox + [p];
      }
    }

    /** The network thread draining the send channel, oldest first. */
    method TakeOutbound() returns (sent: seq<Frame>)
      requires Valid()
      modifies this
      ensures Valid() && Current() == old(Current()) && inbox == old(inbox)
      ensures sent == old(outbox) && outbox == []
    {
      sent := outbox;
      outbox := [];
    }
  }

  /**
   * `from_device`: run the handshake over the device's replies and, once the
   * info is complete, build the session. A stalled handshake blocks forever in
   * the source and a panicking one ends the thread; neither yields a session.
   */
  method FromDevice(device: MonomeDevice, prefix: string, localPort: i32, localIp: string, replies: seq<Packet>, outCap: nat, inCap: nat)
    returns (m: Monome?, requests: seq<Frame>, outcome: SetupOutcome)
    ensures requests == HandshakeRequests(localPort, localIp, prefix)
    ensures outcome == Accumulate(NoInfo, replies)
    ensures m != null <==> outcome.Ready?
    ensures outcome.Ready? ==> Complete(outcome.info)
    ensures m != null ==> (fresh(m) && m.Valid() && m.outbox == [] && m.inbox == [] &&
      m.Current() == Settings(device.name, device.deviceType, device.port,
        outcome.info.host.value, outcome.info.id.value, prefix, outcome.info.rotation.value, outcome.info.size.value))
  {
    requests, outcome := Setup(localPort, localIp, prefix, replies);
    m := null;
    if outcome.Ready? {
      ReadyAtFirstComplete(NoInfo, replies);
      m := new Monome(device, prefix, outcome.info, outCap, inCap);
    }
  }
}
