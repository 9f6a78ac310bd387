/**
 * Decoding what a device sends into `MonomeEvent`s: key presses, tilt,
 * encoder turns and encoder presses, all under the application's prefix.
 */
module Events {
  import opened Osc

  datatype KeyDirection = Up | Down

  datatype MonomeEvent =
    | GridKey(x: i32, y: i32, direction: KeyDirection)
    | Tilt(sensor: i32, x: i32, y: i32, z: i32)
    | EncoderDelta(n: usize, delta: i32)
    | EncoderKey(n: usize, direction: KeyDirection)

  /** A key state as devices send it: only 1 means pressed. */
  function DirectionOf(v: i32): (d: KeyDirection)
    ensures d == Down <==> v == 1
  {
    if v == 1 then Down else Up
  }

  function AllInts(a: seq<Arg>): bool {
    forall i :: 0 <= i < |a| ==> a[i].Int?
  }

  /** Addresses `parse` handles before looking at the prefix: daemon messages and setup replies. */
  predicate Shadowed(addr: string) {
    StartsWith(addr, "/serialosc") || StartsWith(addr, "/sys")
  }

  /**
   * `Monome::parse`. A bundle is the source's explicit panic. Of the daemon
   * messages only "/serialosc/add" with an argument list is looked into, and
   * reading the first argument of an empty one is an out-of-bounds panic; the
   * check for "/serialosc/remove" is nested where it can never hold. Under
   * the prefix, the four event addresses are matched by prefix in order and
   * need exactly the listed integer arguments; anything else yields nothing.
   */
  function Parse(p: Packet, prefix: string): Outcome<Option<MonomeEvent>> {
    match p
    case Bundle => Panic
    case Message(addr, args) =>
      if StartsWith(addr, "/serialosc") then
        if addr == "/serialosc/device" then Done(None)
        else if addr == "/serialosc/add" && args.Some? && |args.value| == 0 then Panic
        else Done(None)
      else if StartsWith(addr, "/sys") then Done(None)
      else if !StartsWith(addr, prefix) || args.None? then Done(None)
      else
        var a := args.value;
        if StartsWith(addr, prefix + "/grid/key") then
          if |a| == 3 && AllInts(a) then Done(Some(GridKey(a[0].i, a[1].i, DirectionOf(a[2].i)))) else Done(None)
        else if StartsWith(addr, prefix + "/tilt") then
          if |a| == 4 && AllInts(a) then Done(Some(Tilt(a[0].i, a[1].i, a[2].i, a[3].i))) else Done(None)
        else if StartsWith(addr, prefix + "/enc/delta") then
          if |a| == 2 && AllInts(a) then Done(Some(EncoderDelta(I32AsUsize(a[0].i), a[1].i))) else Done(None)
        else if StartsWith(addr, prefix + "/enc/key") then
          if |a| == 2 && AllInts(a) then Done(Some(EncoderKey(I32AsUsize(a[0].i), DirectionOf(a[1].i)))) else Done(None)
        else Done(None)
  }

  /** The address suffix and argument count of each kind of event. */
  function Suffix(e: MonomeEvent): string {
    match e
    case GridKey(_, _, _) => "/grid/key"
    case Tilt(_, _, _, _) => "/tilt"
    case EncoderDelta(_, _) => "/enc/delta"
    case EncoderKey(_, _) => "/enc/key"
  }

  function Arity(e: MonomeEvent): nat {
    match e
    case GridKey(_, _, _) => 3
    case Tilt(_, _, _, _) => 4
    case EncoderDelta(_, _) => 2
    case EncoderKey(_, _) => 2
  }

  lemma StartsWithConcat(s: string, prefix: string, suffix: string)
    requires StartsWith(s, prefix + suffix)
    ensures StartsWith(s, prefix)
  {
    assert s[..|prefix|] == (prefix + suffix)[..|prefix|];
  }

  /** No event suffix is a prefix of another, so an address routes to at most one event kind. */
  lemma SuffixesExclusive(s: string, prefix: string, a: string, b: string)
    requires a in {"/grid/key", "/tilt", "/enc/delta", "/enc/key"}
    requires b in {"/grid/key", "/tilt", "/enc/delta", "/enc/key"}
    requires StartsWith(s, prefix + a) && StartsWith(s, prefix + b)
    ensures a == b
  {
    var n := |prefix|;
    assert (prefix + a)[n + 1] == a[1] && (prefix + b)[n + 1] == b[1];
    assert s[n + 1] == a[1] && s[n + 1] == b[1];
    if |a| > 5 && |b| > 5 {
      assert (prefix + a)[n + 5] == a[5] && (prefix + b)[n + 5] == b[5];
      assert s[n + 5] == a[5] && s[n + 5] == b[5];
    }
  }

  /**
   * Every event comes from a message under the prefix, outside the daemon
   * and setup addresses, at the event's own address, with exactly as many
   * arguments as the event has fields, all integers.
   */
  lemma ParsedEventOrigin(p: Packet, prefix: string)
    requires Parse(p, prefix).Done? && Parse(p, prefix).value.Some?
    ensures var e := Parse(p, prefix).value.value;
      && p.Message? && !Shadowed(p.addr)
      && StartsWith(p.addr, prefix) && StartsWith(p.addr, prefix + Suffix(e))
      && p.args.Some? && |p.args.value| == Arity(e) && AllInts(p.args.value)
  {
  }

  /** `parse` panics exactly on a bundle and on "/serialosc/add" with an empty argument list. */
  lemma ParsePanics(p: Packet, prefix: string)
    ensures Parse(p, prefix) == Panic <==> p.Bundle? || (p.addr == "/serialosc/add" && p.args == Some([]))
  {
    if p.Message? && p.addr == "/serialosc/add" {
      assert StartsWith(p.addr, "/serialosc");
    }
  }

  /** Daemon messages and setup replies never yield an event, whatever the prefix. */
  lemma ShadowedYieldsNothing(p: Packet, prefix: string)
    requires p.Message? && Shadowed(p.addr)
    ensures Parse(p, prefix) == Done(None) || Parse(p, prefix) == Panic
  {
  }

  /** A key message under the prefix with exactly three integers is a key event: pressed exactly when the state is 1. */
  lemma ParseGridKey(addr: string, prefix: string, x: i32, y: i32, v: i32)
    requires !Shadowed(addr) && StartsWith(addr, prefix + "/grid/key")
    ensures Parse(Message(addr, Some([Int(x), Int(y), Int(v)])), prefix) == Done(Some(GridKey(x, y, DirectionOf(v))))
  {
    StartsWithConcat(addr, prefix, "/grid/key");
  }

  /** The same message with any other argument list yields nothing. */
  lemma GridKeyNeedsThreeInts(addr: string, prefix: string, args: seq<Arg>)
    requires !Shadowed(addr) && StartsWith(addr, prefix + "/grid/key")
    requires !(|args| == 3 && AllInts(args))
    ensures Parse(Message(addr, Some(args)), prefix) == Done(None)
  {
    StartsWithConcat(addr, prefix, "/grid/key");
  }

  /** A message under the prefix whose address has none of the four event suffixes yields nothing. */
  lemma UnknownSuffixYieldsNothing(addr: string, prefix: string, args: Option<seq<Arg>>)
    requires !Shadowed(addr)
    requires forall sfx :: sfx in {"/grid/key", "/tilt", "/enc/delta", "/enc/key"} ==> !StartsWith(addr, prefix + sfx)
    ensures Parse(Message(addr, args), prefix) == Done(None)
  {
    assert !StartsWith(addr, prefix + "/grid/key");
    assert !StartsWith(addr, prefix + "/tilt");
    assert !StartsWith(addr, prefix + "/enc/delta");
    assert !StartsWith(addr, prefix + "/enc/key");
  }

  /** The state integer a device sends for a key direction. */
  function DirectionValue(d: KeyDirection): i32 {
    if d == Down then 1 else 0
  }

  /** The message a device sends for an event (an encoder number is sent as a 32-bit integer). */
  function EventMessage(e: MonomeEvent, prefix: string): Packet {
    Message(prefix + Suffix(e), Some(
      match e
      case GridKey(x, y, d) => [Int(x), Int(y), Int(DirectionValue(d))]
      case Tilt(n, x, y, z) => [Int(n), Int(x), Int(y), Int(z)]
      case EncoderDelta(n, delta) => [Int(WrapI32(n)), Int(delta)]
      case EncoderKey(n, d) => [Int(WrapI32(n)), Int(DirectionValue(d))]))
  }

  /** An address made of the prefix and an event suffix routes to that suffix and to no other. */
  lemma RoutesOnlyTo(prefix: string, sfx: string)
    requires sfx in {"/grid/key", "/tilt", "/enc/delta", "/enc/key"}
    ensures StartsWith(prefix + sfx, prefix)
    ensures StartsWith(prefix + sfx, prefix + "/grid/key") <==> sfx == "/grid/key"
    ensures StartsWith(prefix + sfx, prefix + "/tilt") <==> sfx == "/tilt"
    ensures StartsWith(prefix + sfx, prefix + "/enc/delta") <==> sfx == "/enc/delta"
    ensures StartsWith(prefix + sfx, prefix + "/enc/key") <==> sfx == "/enc/key"
  {
    var addr := prefix + sfx;
    assert StartsWith(addr, prefix + sfx);
    StartsWithConcat(addr, prefix, sfx);
    if StartsWith(addr, prefix + "/grid/key") { SuffixesExclusive(addr, prefix, "/grid/key", sfx); }
    if StartsWith(addr, prefix + "/tilt") { SuffixesExclusive(addr, prefix, "/tilt", sfx); }
    if StartsWith(addr, prefix + "/enc/delta") { SuffixesExclusive(addr, prefix, "/enc/delta", sfx); }
    if StartsWith(addr, prefix + "/enc/key") { SuffixesExclusive(addr, prefix, "/enc/key", sfx); }
  }

  /** An encoder number below 2^31 survives `as i32` followed by `as usize`. */
  lemma EncoderNumberRoundTrip(n: usize)
    requires n < 0x8000_0000
    ensures I32AsUsize(WrapI32(n)) == n
  {
  }

  /** The arguments of a message for a routed event, as `parse` reads them. */
  lemma RoutedArgs(prefix: string, sfx: string, args: seq<Arg>)
    requires sfx in {"/grid/key", "/tilt", "/enc/delta", "/enc/key"}
    requires !Shadowed(prefix + sfx)
    ensures var p := Parse(Message(prefix + sfx, Some(args)), prefix);
      && (sfx == "/grid/key" ==> p == if |args| == 3 && AllInts(args) then Done(Some(GridKey(args[0].i, args[1].i, DirectionOf(args[2].i)))) else Done(None))
      && (sfx == "/tilt" ==> p == if |args| == 4 && AllInts(args) then Done(Some(Tilt(args[0].i, args[1].i, args[2].i, args[3].i))) else Done(None))
      && (sfx == "/enc/delta" ==> p == if |args| == 2 && AllInts(args) then Done(Some(EncoderDelta(I32AsUsize(args[0].i), args[1].i))) else Done(None))
      && (sfx == "/enc/key" ==> p == if |args| == 2 && AllInts(args) then Done(Some(EncoderKey(I32AsUsize(args[0].i), DirectionOf(args[1].i)))) else Done(None))
  {
    RoutesOnlyTo(prefix, sfx);
  }

  /** Events survive being sent and parsed, provided the address is not shadowed and an encoder number fits in 31 bits. */
  lemma EventRoundTrip(e: MonomeEvent, prefix: string)
    requires !Shadowed(prefix + Suffix(e))
    requires (e.EncoderDelta? || e.EncoderKey?) ==> e.n < 0x8000_0000
    ensures Parse(EventMessage(e, prefix), prefix) == Done(Some(e))
  {
    RoutedArgs(prefix, Suffix(e), EventMessage(e, prefix).args.value);
    match e
    case GridKey(_, _, d) =>
      assert DirectionOf(DirectionValue(d)) == d;
    case Tilt(_, _, _, _) =>
    case EncoderDelta(n, _) =>
      EncoderNumberRoundTrip(n);
    case EncoderKey(n, d) =>
      EncoderNumberRoundTrip(n);
      assert DirectionOf(DirectionValue(d)) == d;
  }
}
