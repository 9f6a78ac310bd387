/**
 * The argument-shape encoders (the `IntoAddrAndArgs` family): each command
 * argument becomes an address fragment and a list of integer arguments.
 * An array of 64 booleans is packed into 8 row bytes, bit k of byte i being
 * the led at column k of row i.
 */
module Encoding {
  import opened Osc

  function Pow2(n: nat): nat {
    if n == 0 then 1 else 2 * Pow2(n - 1)
  }

  function BitValue(b: bool): nat {
    if b then 1 else 0
  }

  /** Bit k of m, counting from the least significant bit. */
  function Bit(m: nat, k: nat): bool {
    if k == 0 then m % 2 == 1 else Bit(m / 2, k - 1)
  }

  /** The number whose bit k is `row[k]`. */
  function RowBits(row: seq<bool>): nat {
    if row == [] then 0 else BitValue(row[0]) + 2 * RowBits(row[1..])
  }

  lemma {:induction false} RowBitsBound(row: seq<bool>)
    ensures RowBits(row) < Pow2(|row|)
  {
    if row != [] {
      RowBitsBound(row[1..]);
    }
  }

  lemma {:induction false} BitOfRowBits(row: seq<bool>, k: nat)
    requires k < |row|
    ensures Bit(RowBits(row), k) == row[k]
  {
    if k > 0 {
      BitOfRowBits(row[1..], k - 1);
    }
  }

  /** Reading the first n bits of m back into a number gives m when m has no higher bit. */
  lemma {:induction false} RowBitsOfBits(m: nat, n: nat)
    requires m < Pow2(n)
    ensures RowBits(seq(n, k requires 0 <= k => Bit(m, k))) == m
  {
    var bits := seq(n, k requires 0 <= k => Bit(m, k));
    if n > 0 {
      var rest := seq(n - 1, k requires 0 <= k => Bit(m / 2, k));
      assert bits[1..] == rest;
      RowBitsOfBits(m / 2, n - 1);
    }
  }

  /** One packed row of eight leds: a byte whose bit k is the led at column k. */
  function RowByte(row: seq<bool>): (m: u8)
    requires |row| == 8
    ensures forall k :: 0 <= k < 8 ==> Bit(m, k) == row[k]
  {
    RowBitsBound(row);
    forall k | 0 <= k < 8 ensures Bit(RowBits(row), k) == row[k] {
      BitOfRowBits(row, k);
    }
    RowBits(row)
  }

  /** The 8 masks of a row-major 8x8 array of leds. */
  function PackLeds(leds: seq<bool>): (masks: seq<u8>)
    requires |leds| == 64
    ensures |masks| == 8
  {
    seq(8, i requires 0 <= i < 8 => RowByte(leds[8 * i..8 * i + 8]))
  }

  /** The inverse reading: led n is bit (n mod 8) of mask (n div 8). */
  function UnpackLeds(masks: seq<u8>): (leds: seq<bool>)
    requires |masks| == 8
    ensures |leds| == 64
  {
    seq(64, n requires 0 <= n < 64 => Bit(masks[n / 8], n % 8))
  }

  lemma PackThenUnpack(leds: seq<bool>)
    requires |leds| == 64
    ensures UnpackLeds(PackLeds(leds)) == leds
  {
    var masks := PackLeds(leds);
    forall n | 0 <= n < 64 ensures UnpackLeds(masks)[n] == leds[n] {
      var i, k := n / 8, n % 8;
      assert leds[8 * i..8 * i + 8][k] == leds[n];
    }
  }

  lemma UnpackThenPack(masks: seq<u8>)
    requires |masks| == 8
    ensures PackLeds(UnpackLeds(masks)) == masks
  {
    var leds := UnpackLeds(masks);
    forall i | 0 <= i < 8 ensures PackLeds(leds)[i] == masks[i] {
      var row := leds[8 * i..8 * i + 8];
      assert row == seq(8, k requires 0 <= k => Bit(masks[i], k));
      assert Pow2(8) == 256;
      RowBitsOfBits(masks[i], 8);
    }
  }

  /** Bit k of packed row i is the led at column k of row i. */
  lemma BitOfPacked(leds: seq<bool>, i: int, k: int)
    requires |leds| == 64 && 0 <= i < 8 && 0 <= k < 8
    ensures Bit(PackLeds(leds)[i], k) == leds[8 * i + k]
  {
    assert leds[8 * i..8 * i + 8][k] == leds[8 * i + k];
  }

  /** `u8::rotate_left(1)`. */
  function RotateLeft8(m: u8): u8 {
    (2 * m) % 0x100 + m / 0x80
  }

  /** `m | if b { 1 } else { 0 }` on a byte. */
  function OrLow(m: u8, b: bool): u8 {
    if b && m % 2 == 0 then m + 1 else m
  }

  // ---------------------------------------------------------------------------
  // Cutting an 8x8 quadrant out of a row-major grid

  /** `toidx`: the offset of column x of row y in a row-major array of the given width. */
  function ToIdx(x: int, y: int, width: int): int {
    y * width + x
  }

  /** The 8x8 block whose top-left cell is (x0, y0) lies inside a grid of the given width stored in n cells: its last cell has an index below n. */
  predicate QuadFits(n: nat, width: int, x0: int, y0: int) {
    0 <= x0 && x0 + 8 <= width && 0 <= y0 && ToIdx(x0 + 7, y0 + 7, width) < n
  }

  lemma QuadCellInBounds(n: nat, width: int, x0: int, y0: int, i: int, j: int)
    requires QuadFits(n, width, x0, y0)
    requires 0 <= i < 8 && 0 <= j < 8
    ensures 0 <= ToIdx(x0 + j, y0 + i, width) < n
  {
    assert 0 <= (y0 + i) * width;
    assert (y0 + i) * width <= (y0 + 7) * width;
  }

  function QuadCell<T>(cells: seq<T>, width: int, x0: int, y0: int, i: int, j: int): T
    requires QuadFits(|cells|, width, x0, y0)
    requires 0 <= i < 8 && 0 <= j < 8
  {
    QuadCellInBounds(|cells|, width, x0, y0, i, j);
    cells[ToIdx(x0 + j, y0 + i, width)]
  }

  /** The 64 cells of the quadrant at (x0, y0), row-major. */
  function Quad<T>(cells: seq<T>, width: int, x0: int, y0: int): (q: seq<T>)
    requires QuadFits(|cells|, width, x0, y0)
    ensures |q| == 64
  {
    seq(64, n requires 0 <= n < 64 => QuadCell(cells, width, x0, y0, n / 8, n % 8))
  }

  /** A whole 8-wide, 64-cell array is its own quadrant at the origin. */
  lemma QuadOfWhole<T>(cells: seq<T>)
    requires |cells| == 64
    ensures QuadFits(64, 8, 0, 0) && Quad(cells, 8, 0, 0) == cells
  {
    assert QuadFits(64, 8, 0, 0);
    forall n | 0 <= n < 64 ensures Quad(cells, 8, 0, 0)[n] == cells[n] {
      assert ToIdx(n % 8, n / 8, 8) == n;
    }
  }

  /** One iteration of the packing loop: rotating the mask of columns j..7 left and or-ing in column j - 1 gives the mask of columns j - 1..7. */
  lemma ShiftInColumn(row: seq<bool>, j: nat)
    requires |row| == 8 && 1 <= j <= 8
    ensures RowBits(row[j..]) < 0x80
    ensures OrLow(RotateLeft8(RowBits(row[j..])), row[j - 1]) == RowBits(row[j - 1..])
  {
    RowBitsBound(row[j..]);
    Pow2Monotone(8 - j, 7);
    assert Pow2(7) == 0x80;
    var m := RowBits(row[j..]);
    RotateThenOr(m, row[j - 1]);
    assert row[j - 1..][1..] == row[j..];
    assert RowBits(row[j - 1..]) == BitValue(row[j - 1]) + 2 * m;
  }

  /** Below 0x80 a left rotation is a doubling, and or-ing a bit into the freed low bit adds it. */
  lemma RotateThenOr(m: u8, b: bool)
    requires m < 0x80
    ensures OrLow(RotateLeft8(m), b) == BitValue(b) + 2 * m
  {
    assert m / 0x80 == 0;
    assert (2 * m) % 0x100 == 2 * m;
    assert (2 * m) % 2 == 0;
  }

  /** The inner loop: columns 7 down to 0 of row y0 + i of the quadrant at (x0, y0). */
  method RowMask(leds: seq<bool>, width: int, x0: int, y0: int, i: int) returns (mask: u8)
    requires QuadFits(|leds|, width, x0, y0) && 0 <= i < 8
    ensures mask == RowByte(Quad(leds, width, x0, y0)[8 * i..8 * i + 8])
  {
    ghost var row := Quad(leds, width, x0, y0)[8 * i..8 * i + 8];
    mask := 0;
    var j := 8;
    while j > 0
      invariant 0 <= j <= 8
      invariant mask == RowBits(row[j..])
    {
      ShiftInColumn(row, j);
      j := j - 1;
      QuadCellInBounds(|leds|, width, x0, y0, i, j);
      var idx := ToIdx(x0 + j, y0 + i, width);
      assert leds[idx] == row[j];
      mask := OrLow(RotateLeft8(mask), leds[idx]);
    }
    assert row[0..] == row;
  }

  /**
   * The packing loop of the `[bool; 64]` encoder and of `set_all`: for each
   * row, walk the columns from 7 down to 0, rotating the mask left and or-ing
   * in the led. Writes the 8 masks of the quadrant at (x0, y0).
   */
  method FillRowMasks(leds: seq<bool>, width: int, x0: int, y0: int, masks: array<u8>)
    requires masks.Length == 8
    requires QuadFits(|leds|, width, x0, y0)
    modifies masks
    ensures masks[..] == PackLeds(Quad(leds, width, x0, y0))
  {
    for i := 0 to 8
      invariant forall r :: 0 <= r < i ==> masks[r] == PackLeds(Quad(leds, width, x0, y0))[r]
    {
      masks[i] := RowMask(leds, width, x0, y0, i);
    }
  }

  lemma {:induction false} Pow2Monotone(a: nat, b: nat)
    requires a <= b
    ensures Pow2(a) <= Pow2(b)
  {
    if a < b {
      Pow2Monotone(a, b - 1);
    }
  }

  /** The copying loop of `set_all_intensity`: `quad[8i + j]` is the cell at column x0 + j of row y0 + i. */
  method FillQuad(leds: seq<u8>, width: int, x0: int, y0: int, quad: array<u8>)
    requires quad.Length == 64
    requires QuadFits(|leds|, width, x0, y0)
    modifies quad
    ensures quad[..] == Quad(leds, width, x0, y0)
  {
    ghost var cells := Quad(leds, width, x0, y0);
    for i := 0 to 8
      invariant forall n :: 0 <= n < 8 * i ==> quad[n] == cells[n]
    {
      for j := 0 to 8
        invariant forall n :: 0 <= n < 8 * i + j ==> quad[n] == cells[n]
      {
        QuadCellInBounds(|leds|, width, x0, y0, i, j);
        var idx := ToIdx(x0 + j, y0 + i, width);
        quad[i * 8 + j] := leds[idx];
      }
    }
  }

  // ---------------------------------------------------------------------------
  // Argument shapes

  /** The single-value shapes: an `i32` intensity or a `bool` on/off. */
  datatype LevelArg = Intensity(level: i32) | OnOff(on: bool)

  /** The list shapes: `&[u8; 64]` intensities, `&[u8; 8]` masks, a single `u8` mask, `&[bool; 64]` leds. */
  datatype GridArg = Levels(values: seq<u8>) | Masks(masks: seq<u8>) | Byte(b: u8) | Leds(leds: seq<bool>)

  /** The array lengths that Rust's types fix. */
  predicate FixedLength(a: GridArg) {
    match a
    case Levels(v) => |v| == 64
    case Masks(m) => |m| == 8
    case Byte(_) => true
    case Leds(l) => |l| == 64
  }

  /** `as_addr_frag_and_args` for `i32` and `bool`. */
  function LevelEncoding(a: LevelArg): (string, Arg) {
    match a
    case Intensity(v) => ("level/", Int(v))
    case OnOff(b) => ("", Int(if b then 1 else 0))
  }

  /** How the device reads a single-value argument back: an intensity under "level/", an on/off 0 or 1 otherwise. */
  function DecodeLevel(frag: string, arg: Arg): Option<LevelArg> {
    if frag == "level/" && arg.Int? then Some(Intensity(arg.i))
    else if frag == "" && arg.Int? && (arg.i == 0 || arg.i == 1) then Some(OnOff(arg.i == 1))
    else None
  }

  lemma LevelEncodingRoundTrip(a: LevelArg)
    ensures DecodeLevel(LevelEncoding(a).0, LevelEncoding(a).1) == Some(a)
  {
  }

  /** `as_addr_frag_and_args` for the list shapes. */
  function GridArgEncoding(a: GridArg): (r: (string, seq<Arg>))
    requires FixedLength(a)
  {
    match a
    case Levels(v) => ("level/", Ints(v))
    case Masks(m) => ("", Ints(m))
    case Byte(b) => ("", [Int(b)])
    case Leds(l) => ("", Ints(PackLeds(l)))
  }

  /** Intensities go under "level/", everything else under ""; 64 intensities, 8 masks, 1 byte, 8 packed rows; every argument is a byte. */
  lemma GridArgEncodingShape(a: GridArg)
    requires FixedLength(a)
    ensures GridArgEncoding(a).0 == if a.Levels? then "level/" else ""
    ensures |GridArgEncoding(a).1| == (if a.Levels? then 64 else if a.Byte? then 1 else 8)
    ensures forall i :: 0 <= i < |GridArgEncoding(a).1| ==>
      GridArgEncoding(a).1[i].Int? && 0 <= GridArgEncoding(a).1[i].i < 0x100
    ensures a.Levels? ==> GridArgEncoding(a).1 == Ints(a.values)
    ensures a.Masks? ==> GridArgEncoding(a).1 == Ints(a.masks)
  {
  }

  /** The packed `[bool; 64]` argument: bit k of argument i is the led at column k of row i, and unpacking the arguments gives the leds back. */
  lemma LedsEncodingBits(leds: seq<bool>)
    requires |leds| == 64
    ensures GridArgEncoding(Leds(leds)) == GridArgEncoding(Masks(PackLeds(leds)))
    ensures forall i, k :: 0 <= i < 8 && 0 <= k < 8 ==>
      Bit(GridArgEncoding(Leds(leds)).1[i].i, k) == leds[8 * i + k]
    ensures UnpackLeds(PackLeds(leds)) == leds
  {
    PackThenUnpack(leds);
    var masks := PackLeds(leds);
    forall i, k | 0 <= i < 8 && 0 <= k < 8
      ensures Bit(GridArgEncoding(Leds(leds)).1[i].i, k) == leds[8 * i + k]
    {
      assert GridArgEncoding(Leds(leds)).1[i].i == masks[i];
      assert leds[8 * i..8 * i + 8][k] == leds[8 * i + k];
    }
  }

  /** The list encoders as the source runs them: the `[bool; 64]` case packs with the rotate-and-or loop. */
  method EncodeGridArg(a: GridArg) returns (frag: string, args: seq<Arg>)
    requires FixedLength(a)
    ensures (frag, args) == GridArgEncoding(a)
  {
    match a {
      case Levels(v) =>
        frag, args := "level/", Ints(v);
      case Masks(m) =>
        frag, args := "", Ints(m);
      case Byte(b) =>
        frag, args := "", [Int(b)];
      case Leds(l) =>
        var masks := new u8[8];
        QuadOfWhole(l);
        FillRowMasks(l, 8, 0, 0, masks);
        frag, args := "", Ints(masks[..]);
    }
  }
}
