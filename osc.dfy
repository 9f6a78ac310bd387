/**
 * OSC 1.0 messages as the monome client sees them once the binary codec has
 * run: an address string and a list of typed arguments. The byte encoding is
 * not modelled; integer widths of the Rust source are kept as subset types.
 */
module Osc {

  type u8 = x: int | 0 <= x < 0x100
  type i32 = x: int | -0x8000_0000 <= x < 0x8000_0000
  type u32 = x: int | 0 <= x < 0x1_0000_0000
  type usize = x: int | 0 <= x < 0x1_0000_0000_0000_0000

  datatype Option<+T> = None | Some(value: T)

  /** The result of a step of the source that may panic (an index past the end of an argument list, a bundle where a message was expected). */
  datatype Outcome<+T> = Done(value: T) | Panic

  /** A value or the error string the source returns. */
  datatype Result<+T> = Ok(value: T) | Err(msg: string)

  /** An OSC argument. `Other` stands for every type tag the library never reads (float, blob, time tag, ...). */
  datatype Arg = Int(i: i32) | Str(s: string) | Other

  /** An outbound message: the library always sends an argument list, possibly empty. */
  datatype Frame = Frame(addr: string, args: seq<Arg>)

  /** An inbound packet as decoded by the codec: a message whose argument list may be absent, or a bundle (never looked into). */
  datatype Packet = Message(addr: string, args: Option<seq<Arg>>) | Bundle

  /** Rust's `str::starts_with`. */
  predicate StartsWith(s: string, p: string) {
    |p| <= |s| && s[..|p|] == p
  }

  /** Rust's `str::contains` for a string pattern. */
  predicate Contains(s: string, pat: string)
    decreases |s|
  {
    StartsWith(s, pat) || (|s| > 0 && Contains(s[1..], pat))
  }

  /** `pat` occurs in `s` starting at index `i`. */
  predicate OccursAt(s: string, pat: string, i: int) {
    0 <= i && i + |pat| <= |s| && s[i..i + |pat|] == pat
  }

  /** `Contains` agrees with the index-based reading of "occurs somewhere". */
  lemma {:induction false} ContainsAt(s: string, pat: string)
    ensures Contains(s, pat) <==> exists i :: OccursAt(s, pat, i)
    decreases |s|
  {
    if StartsWith(s, pat) {
      assert OccursAt(s, pat, 0);
    } else if Contains(s, pat) {
      ContainsAt(s[1..], pat);
      var i :| OccursAt(s[1..], pat, i);
      assert s[1..][i..i + |pat|] == s[i + 1..i + 1 + |pat|];
      assert OccursAt(s, pat, i + 1);
    }
    if exists i :: OccursAt(s, pat, i) {
      var i :| OccursAt(s, pat, i);
      if i > 0 {
        ContainsAt(s[1..], pat);
        assert s[1..][i - 1..i - 1 + |pat|] == s[i..i + |pat|];
        assert OccursAt(s[1..], pat, i - 1);
      }
    }
  }

  /** `n as i32` on a `usize` or `u32`: the low 32 bits read as two's complement. */
  function WrapI32(n: int): (r: i32)
    ensures (r - n) % 0x1_0000_0000 == 0
    ensures 0 <= n < 0x8000_0000 ==> r == n
  {
    (n + 0x8000_0000) % 0x1_0000_0000 - 0x8000_0000
  }

  /** `n as usize` on an `i32`, on a 64-bit target: sign extension. */
  function I32AsUsize(n: i32): (r: usize)
    ensures r % 0x1_0000_0000_0000_0000 == n % 0x1_0000_0000_0000_0000
    ensures n >= 0 <==> r < 0x8000_0000
  {
    if n >= 0 then n else n + 0x1_0000_0000_0000_0000
  }

  /** Each byte as an `Int` argument, in order (`i32::from(u8)`). */
  function Ints(v: seq<u8>): (r: seq<Arg>)
    ensures |r| == |v|
    ensures forall i :: 0 <= i < |v| ==> r[i] == Int(v[i])
  {
    seq(|v|, i requires 0 <= i < |v| => Int(v[i]))
  }
}
