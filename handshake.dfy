/**
 * The handshake with one device: after sending its port, host, prefix and an
 * info request, the client reads `/sys/...` replies, in any order, into six
 * optional fields until all six are set.
 */
module Handshake {
  import opened Osc

  /** The six optional fields of `MonomeInfo`. */
  datatype Info = Info(
    port: Option<i32>,
    host: Option<string>,
    prefix: Option<string>,
    id: Option<string>,
    size: Option<(i32, i32)>,
    rotation: Option<i32>)

  /** `MonomeInfo::new`. */
  const NoInfo: Info := Info(None, None, None, None, None, None)

  /** `MonomeInfo::complete`. */
  predicate Complete(info: Info) {
    && info.port.Some?
    && info.host.Some?
    && info.prefix.Some?
    && info.id.Some?
    && info.size.Some?
    && info.rotation.Some?
  }

  /**
   * `MonomeInfo::fill` on values. Only messages under "/sys" that carry an
   * argument list are read; the six sub-addresses are matched by prefix, in
   * the source's order; an argument of the wrong type leaves the field alone;
   * reading `args[0]` (or `args[1]` for the size) of a list too short for it is
   * the source's out-of-bounds panic. A bundle is logged and ignored.
   */
  function FillInfo(info: Info, p: Packet): Outcome<Info> {
    match p
    case Bundle => Done(info)
    case Message(addr, args) =>
      if !StartsWith(addr, "/sys") || args.None? then Done(info)
      else
        var a := args.value;
        if StartsWith(addr, "/sys/port") then
          if |a| == 0 then Panic
          else if a[0].Int? then Done(info.(port := Some(a[0].i))) else Done(info)
        else if StartsWith(addr, "/sys/host") then
          if |a| == 0 then Panic
          else if a[0].Str? then Done(info.(host := Some(a[0].s))) else Done(info)
        else if StartsWith(addr, "/sys/id") then
          if |a| == 0 then Panic
          else if a[0].Str? then Done(info.(id := Some(a[0].s))) else Done(info)
        else if StartsWith(addr, "/sys/prefix") then
          if |a| == 0 then Panic
          else if a[0].Str? then Done(info.(prefix := Some(a[0].s))) else Done(info)
        else if StartsWith(addr, "/sys/rotation") then
          if |a| == 0 then Panic
          else if a[0].Int? then Done(info.(rotation := Some(a[0].i))) else Done(info)
        else if StartsWith(addr, "/sys/size") then
          if |a| == 0 then Panic
          else if !a[0].Int? then Done(info)
          else if |a| == 1 then Panic
          else if a[1].Int? then Done(info.(size := Some((a[0].i, a[1].i)))) else Done(info)
        else Done(info)
  }

  /** The `MonomeInfo` builder, whose `fill` updates its fields in place. */
  class MonomeInfo {
    var port: Option<i32>
    var host: Option<string>
    var prefix: Option<string>
    var id: Option<string>
    var size: Option<(i32, i32)>
    var rotation: Option<i32>

    function Value(): Info
      reads this
    {
      Info(port, host, prefix, id, size, rotation)
    }

    constructor ()
      ensures Value() == NoInfo
    {
      port, host, prefix, id, size, rotation := None, None, None, None, None, None;
    }

    /** `fill`: `panicked` reports the out-of-bounds read, after which nothing has changed. */
    method Fill(p: Packet) returns (panicked: bool)
      modifies this
      ensures FillInfo(old(Value()), p) == if panicked then Panic else Done(Value())
      ensures panicked ==> Value() == old(Value())
    {
      panicked := false;
      if p.Bundle? || !StartsWith(p.addr, "/sys") || p.args.None? {
        return;
      }
      var a := p.args.value;
      var addr := p.addr;
      if StartsWith(addr, "/sys/port") {
        if |a| == 0 { return true; }
        if a[0].Int? { port := Some(a[0].i); }
      } else if StartsWith(addr, "/sys/host") {
        if |a| == 0 { return true; }
        if a[0].Str? { host := Some(a[0].s); }
      } else if StartsWith(addr, "/sys/id") {
        if |a| == 0 { return true; }
        if a[0].Str? { id := Some(a[0].s); }
      } else if StartsWith(addr, "/sys/prefix") {
        if |a| == 0 { return true; }
        if a[0].Str? { prefix := Some(a[0].s); }
      } else if StartsWith(addr, "/sys/rotation") {
        if |a| == 0 { return true; }
        if a[0].Int? { rotation := Some(a[0].i); }
      } else if StartsWith(addr, "/sys/size") {
        if |a| == 0 { return true; }
        if a[0].Int? {
          if |a| == 1 { return true; }
          if a[1].Int? { size := Some((a[0].i, a[1].i)); }
        }
      }
    }
  }

  // ---------------------------------------------------------------------------
  // The six reply messages

  datatype Field = PortField | HostField | IdField | PrefixField | RotationField | SizeField

  /** A well-formed reply for one field. */
  datatype InfoMsg =
    | PortMsg(port: i32)
    | HostMsg(host: string)
    | IdMsg(id: string)
    | PrefixMsg(prefix: string)
    | RotationMsg(rotation: i32)
    | SizeMsg(width: i32, height: i32)

  function FieldOf(m: InfoMsg): Field {
    match m
    case PortMsg(_) => PortField
    case HostMsg(_) => HostField
    case IdMsg(_) => IdField
    case PrefixMsg(_) => PrefixField
    case RotationMsg(_) => RotationField
    case SizeMsg(_, _) => SizeField
  }

  function FieldAddr(f: Field): string {
    match f
    case PortField => "/sys/port"
    case HostField => "/sys/host"
    case IdField => "/sys/id"
    case PrefixField => "/sys/prefix"
    case RotationField => "/sys/rotation"
    case SizeField => "/sys/size"
  }

  function InfoArgs(m: InfoMsg): seq<Arg> {
    match m
    case PortMsg(p) => [Int(p)]
    case HostMsg(h) => [Str(h)]
    case IdMsg(i) => [Str(i)]
    case PrefixMsg(p) => [Str(p)]
    case RotationMsg(r) => [Int(r)]
    case SizeMsg(w, h) => [Int(w), Int(h)]
  }

  function InfoPacket(m: InfoMsg): Packet {
    Message(FieldAddr(FieldOf(m)), Some(InfoArgs(m)))
  }

  /** What an info says about one field, as the reply that would have set it. */
  function Project(info: Info, f: Field): Option<InfoMsg> {
    match f
    case PortField => if info.port.Some? then Some(PortMsg(info.port.value)) else None
    case HostField => if info.host.Some? then Some(HostMsg(info.host.value)) else None
    case IdField => if info.id.Some? then Some(IdMsg(info.id.value)) else None
    case PrefixField => if info.prefix.Some? then Some(PrefixMsg(info.prefix.value)) else None
    case RotationField => if info.rotation.Some? then Some(RotationMsg(info.rotation.value)) else None
    case SizeField => if info.size.Some? then Some(SizeMsg(info.size.value.0, info.size.value.1)) else None
  }

  /** An info is determined by its six projections, and is complete exactly when all six are set. */
  lemma ProjectionsDetermine(a: Info, b: Info)
    ensures (forall f :: Project(a, f) == Project(b, f)) ==> a == b
    ensures Complete(a) <==> forall f :: Project(a, f).Some?
  {
    if forall f :: Project(a, f) == Project(b, f) {
      assert Project(a, PortField) == Project(b, PortField);
      assert Project(a, HostField) == Project(b, HostField);
      assert Project(a, IdField) == Project(b, IdField);
      assert Project(a, PrefixField) == Project(b, PrefixField);
      assert Project(a, RotationField) == Project(b, RotationField);
      assert Project(a, SizeField) == Project(b, SizeField);
    }
    if forall f :: Project(a, f).Some? {
      assert Project(a, PortField).Some? && Project(a, HostField).Some? && Project(a, IdField).Some?;
      assert Project(a, PrefixField).Some? && Project(a, RotationField).Some? && Project(a, SizeField).Some?;
    }
  }

  /** No reply address is a prefix of another, so each reply reaches its own branch of `fill`. */
  lemma FieldAddrsDistinct(f: Field, g: Field)
    ensures StartsWith(FieldAddr(f), FieldAddr(g)) <==> f == g
    ensures StartsWith(FieldAddr(f), "/sys")
  {
    if f != g && |FieldAddr(g)| <= |FieldAddr(f)| {
      assert FieldAddr(f)[..|FieldAddr(g)|] != FieldAddr(g) by {
        var k := if FieldAddr(f)[5] != FieldAddr(g)[5] then 5 else 6;
        assert FieldAddr(f)[k] != FieldAddr(g)[k];
      }
    }
  }

  /** The facts about the six addresses that the branches of `fill` test. */
  lemma AddrReachesOwnBranch(f: Field)
    ensures StartsWith(FieldAddr(f), "/sys")
    ensures forall g :: StartsWith(FieldAddr(f), FieldAddr(g)) <==> f == g
    ensures StartsWith(FieldAddr(f), "/sys/port") <==> f == PortField
    ensures StartsWith(FieldAddr(f), "/sys/host") <==> f == HostField
    ensures StartsWith(FieldAddr(f), "/sys/id") <==> f == IdField
    ensures StartsWith(FieldAddr(f), "/sys/prefix") <==> f == PrefixField
    ensures StartsWith(FieldAddr(f), "/sys/rotation") <==> f == RotationField
    ensures StartsWith(FieldAddr(f), "/sys/size") <==> f == SizeField
  {
    FieldAddrsDistinct(f, PortField);
    FieldAddrsDistinct(f, HostField);
    FieldAddrsDistinct(f, IdField);
    FieldAddrsDistinct(f, PrefixField);
    FieldAddrsDistinct(f, RotationField);
    FieldAddrsDistinct(f, SizeField);
  }

  /** `fill` with a well-formed reply sets that reply's field and leaves the other five unchanged. */
  lemma FillSetsOneField(info: Info, m: InfoMsg, f: Field)
    ensures FillInfo(info, InfoPacket(m)).Done?
    ensures Project(FillInfo(info, InfoPacket(m)).value, f) == if f == FieldOf(m) then Some(m) else Project(info, f)
  {
    AddrReachesOwnBranch(FieldOf(m));
  }

  /** `fill` reads only the first argument (the first two for the size), so arguments after those change nothing. */
  lemma FillIgnoresTrailing(info: Info, m: InfoMsg, extra: seq<Arg>)
    ensures FillInfo(info, Message(FieldAddr(FieldOf(m)), Some(InfoArgs(m) + extra))) == FillInfo(info, InfoPacket(m))
  {
    AddrReachesOwnBranch(FieldOf(m));
    var args := InfoArgs(m) + extra;
    assert args[0] == InfoArgs(m)[0];
    if m.SizeMsg? {
      assert args[1] == InfoArgs(m)[1];
    }
  }

  /** The argument shape `fill` reads for a field. */
  predicate Accepts(f: Field, args: seq<Arg>) {
    match f
    case PortField => |args| >= 1 && args[0].Int?
    case RotationField => |args| >= 1 && args[0].Int?
    case HostField => |args| >= 1 && args[0].Str?
    case IdField => |args| >= 1 && args[0].Str?
    case PrefixField => |args| >= 1 && args[0].Str?
    case SizeField => |args| >= 2 && args[0].Int? && args[1].Int?
  }

  /**
   * For a reply address: `fill` panics exactly when the argument list is too
   * short for what it reads, and otherwise leaves the info unchanged when the
   * arguments have the wrong types.
   */
  lemma FillOnFieldAddr(info: Info, f: Field, args: seq<Arg>)
    ensures FillInfo(info, Message(FieldAddr(f), Some(args))) == Panic <==>
      |args| == 0 || (f == SizeField && |args| == 1 && args[0].Int?)
    ensures !Accepts(f, args) && FillInfo(info, Message(FieldAddr(f), Some(args))).Done? ==>
      FillInfo(info, Message(FieldAddr(f), Some(args))) == Done(info)
  {
    AddrReachesOwnBranch(f);
  }

  /** Bundles, messages outside "/sys", messages without an argument list and unknown "/sys" addresses leave the info unchanged. */
  lemma FillIgnores(info: Info, p: Packet)
    requires || p.Bundle?
             || !StartsWith(p.addr, "/sys")
             || p.args.None?
             || forall f :: !StartsWith(p.addr, FieldAddr(f))
    ensures FillInfo(info, p) == Done(info)
  {
    if p.Message? && StartsWith(p.addr, "/sys") && p.args.Some? {
      assert FieldAddr(PortField) == "/sys/port";
      assert FieldAddr(HostField) == "/sys/host";
      assert FieldAddr(IdField) == "/sys/id";
      assert FieldAddr(PrefixField) == "/sys/prefix";
      assert FieldAddr(RotationField) == "/sys/rotation";
      assert FieldAddr(SizeField) == "/sys/size";
    }
  }

  // ---------------------------------------------------------------------------
  // The receive loop of `setup`

  /** How the receive loop ends: complete after `consumed` packets, stuck waiting for more, or a panic in `fill`. */
  datatype SetupOutcome = Ready(info: Info, consumed: nat) | Stalled(info: Info) | Crashed

  function After(o: SetupOutcome, n: nat): SetupOutcome {
    if o.Ready? then Ready(o.info, o.consumed + n) else o
  }

  /** The loop on values: fill with each packet and stop at the first point where the info is complete. */
  function Accumulate(info: Info, replies: seq<Packet>): SetupOutcome
    decreases |replies|
  {
    if replies == [] then Stalled(info)
    else match FillInfo(info, replies[0])
      case Panic => Crashed
      case Done(next) => if Complete(next) then Ready(next, 1) else After(Accumulate(next, replies[1..]), 1)
  }

  /** Filling with every packet of a sequence, without stopping. */
  function FillAll(info: Info, replies: seq<Packet>): Outcome<Info>
    decreases |replies|
  {
    if replies == [] then Done(info)
    else match FillInfo(info, replies[0])
      case Panic => Panic
      case Done(next) => FillAll(next, replies[1..])
  }

  /** The loop stops at the first prefix of the replies after which the info is complete. */
  lemma {:induction false} ReadyAtFirstComplete(info: Info, replies: seq<Packet>)
    requires Accumulate(info, replies).Ready?
    ensures var o := Accumulate(info, replies);
      && 1 <= o.consumed <= |replies|
      && Complete(o.info)
      && FillAll(info, replies[..o.consumed]) == Done(o.info)
      && forall m :: 1 <= m < o.consumed ==>
           FillAll(info, replies[..m]).Done? && !Complete(FillAll(info, replies[..m]).value)
    decreases |replies|
  {
    var next := FillInfo(info, replies[0]).value;
    var o := Accumulate(info, replies);
    assert replies[..1][1..] == [];
    if !Complete(next) {
      var rest := replies[1..];
      ReadyAtFirstComplete(next, rest);
      forall m | 1 <= m <= o.consumed
        ensures FillAll(info, replies[..m]) == FillAll(next, rest[..m - 1])
      {
        assert replies[..m][1..] == rest[..m - 1];
      }
    }
  }

  /**
   * `setup` as the source runs it: the four requests go out to the device, in
   * order, then the receive loop fills a fresh `MonomeInfo`. The locally bound
   * port and address come from the socket and are parameters here.
   */
  method Setup(localPort: i32, localIp: string, prefix: string, replies: seq<Packet>)
    returns (requests: seq<Frame>, outcome: SetupOutcome)
    ensures requests == HandshakeRequests(localPort, localIp, prefix)
    ensures outcome == Accumulate(NoInfo, replies)
  {
    requests := [Frame("/sys/port", [Int(localPort)])];
    requests := requests + [Frame("/sys/host", [Str(localIp)])];
    requests := requests + [Frame("/sys/prefix", [Str(prefix)])];
    requests := requests + [Frame("/sys/info", [])];
    var info := new MonomeInfo();
    var k := 0;
    while k < |replies|
      invariant 0 <= k <= |replies|
      invariant Accumulate(NoInfo, replies) == After(Accumulate(info.Value(), replies[k..]), k)
    {
      assert replies[k..][1..] == replies[k + 1..];
      var panicked := info.Fill(replies[k]);
      if panicked {
        return requests, Crashed;
      }
      k := k + 1;
      if Complete(info.Value()) {
        return requests, Ready(info.Value(), k);
      }
    }
    return requests, Stalled(info.Value());
  }

  // ---------------------------------------------------------------------------
  // Arrival order does not matter

  /** The values a device reports. */
  datatype Descriptor = Descriptor(port: i32, host: string, id: string, prefix: string, rotation: i32, width: i32, height: i32)

  /** One reply per field, in the order a device sends them. */
  function Replies(d: Descriptor): seq<InfoMsg> {
    [PortMsg(d.port), HostMsg(d.host), IdMsg(d.id), PrefixMsg(d.prefix), RotationMsg(d.rotation), SizeMsg(d.width, d.height)]
  }

  function ReplyFor(d: Descriptor, f: Field): InfoMsg {
    match f
    case PortField => PortMsg(d.port)
    case HostField => HostMsg(d.host)
    case IdField => IdMsg(d.id)
    case PrefixField => PrefixMsg(d.prefix)
    case RotationField => RotationMsg(d.rotation)
    case SizeField => SizeMsg(d.width, d.height)
  }

  function Described(d: Descriptor): Info {
    Info(Some(d.port), Some(d.host), Some(d.prefix), Some(d.id), Some((d.width, d.height)), Some(d.rotation))
  }

  function Packets(msgs: seq<InfoMsg>): (ps: seq<Packet>)
    ensures |ps| == |msgs|
  {
    seq(|msgs|, i requires 0 <= i < |msgs| => InfoPacket(msgs[i]))
  }

  lemma TwiceCountsTwice<T>(s: seq<T>, i: int, j: int)
    requires 0 <= i < j < |s| && s[i] == s[j]
    ensures multiset(s)[s[i]] >= 2
  {
    assert s == s[..j] + s[j..];
    assert s[i] in s[..j];
    assert s[j..][0] == s[j];
    assert multiset(s) == multiset(s[..j]) + multiset(s[j..]);
  }

  /** Some message among the first k is a reply for field f. */
  predicate SeenField(msgs: seq<InfoMsg>, k: int, f: Field)
    requires 0 <= k <= |msgs|
  {
    exists i :: 0 <= i < k && FieldOf(msgs[i]) == f
  }

  /** A permutation of a device's replies holds each field's reply exactly once. */
  lemma PermutedReplies(msgs: seq<InfoMsg>, d: Descriptor)
    requires multiset(msgs) == multiset(Replies(d))
    ensures |msgs| == 6
    ensures forall i :: 0 <= i < |msgs| ==> msgs[i] == ReplyFor(d, FieldOf(msgs[i]))
    ensures forall i, j :: 0 <= i < j < |msgs| ==> FieldOf(msgs[i]) != FieldOf(msgs[j])
    ensures forall f :: SeenField(msgs, 6, f)
  {
    PermutedValues(msgs, d);
    PermutedDistinct(msgs, d);
    PermutedCover(msgs, d);
  }

  lemma PermutedLength(msgs: seq<InfoMsg>, d: Descriptor)
    requires multiset(msgs) == multiset(Replies(d))
    ensures |msgs| == 6
  {
    assert |multiset(msgs)| == |multiset(Replies(d))|;
  }

  lemma PermutedValues(msgs: seq<InfoMsg>, d: Descriptor)
    requires multiset(msgs) == multiset(Replies(d))
    ensures |msgs| == 6
    ensures forall i :: 0 <= i < |msgs| ==> msgs[i] == ReplyFor(d, FieldOf(msgs[i]))
  {
    assert |multiset(msgs)| == |multiset(Replies(d))|;
    forall i | 0 <= i < |msgs| ensures msgs[i] == ReplyFor(d, FieldOf(msgs[i])) {
      assert msgs[i] in multiset(Replies(d));
    }
  }

  lemma PermutedDistinct(msgs: seq<InfoMsg>, d: Descriptor)
    requires multiset(msgs) == multiset(Replies(d))
    ensures forall i, j :: 0 <= i < j < |msgs| ==> FieldOf(msgs[i]) != FieldOf(msgs[j])
  {
    PermutedValues(msgs, d);
    forall i, j | 0 <= i < j < |msgs| ensures msgs[i] != msgs[j] {
      assert multiset(Replies(d))[msgs[i]] <= 1;
      if msgs[i] == msgs[j] {
        TwiceCountsTwice(msgs, i, j);
      }
    }
  }

  lemma PermutedCover(msgs: seq<InfoMsg>, d: Descriptor)
    requires multiset(msgs) == multiset(Replies(d))
    ensures |msgs| == 6
    ensures forall f :: SeenField(msgs, 6, f)
  {
    assert |multiset(msgs)| == |multiset(Replies(d))|;
    forall f ensures SeenField(msgs, 6, f) {
      var r := ReplyFor(d, f);
      assert r in multiset(Replies(d));
      assert r in msgs;
      var i :| 0 <= i < |msgs| && msgs[i] == r;
      assert FieldOf(msgs[i]) == f;
    }
  }

  /** `fill` never panics on well-formed replies. */
  lemma {:induction false} FillAllPackets(info: Info, msgs: seq<InfoMsg>)
    ensures FillAll(info, Packets(msgs)).Done?
    decreases |msgs|
  {
    if msgs != [] {
      FillSetsOneField(info, msgs[0], PortField);
      assert Packets(msgs)[0] == InfoPacket(msgs[0]);
      assert Packets(msgs)[1..] == Packets(msgs[1..]);
      FillAllPackets(FillInfo(info, InfoPacket(msgs[0])).value, msgs[1..]);
    }
  }

  lemma {:induction false} FillAllSnoc(info: Info, replies: seq<Packet>, p: Packet)
    requires FillAll(info, replies).Done?
    ensures FillAll(info, replies + [p]) == FillInfo(FillAll(info, replies).value, p)
    decreases |replies|
  {
    if replies == [] {
      assert ([] + [p])[1..] == [];
    } else {
      var next := FillInfo(info, replies[0]).value;
      assert (replies + [p])[1..] == replies[1..] + [p];
      FillAllSnoc(next, replies[1..], p);
    }
  }

  lemma SeenOneMore(msgs: seq<InfoMsg>, k: nat, f: Field)
    requires 0 < k <= |msgs|
    ensures SeenField(msgs, k, f) <==> SeenField(msgs, k - 1, f) || FieldOf(msgs[k - 1]) == f
  {
    if SeenField(msgs, k, f) && FieldOf(msgs[k - 1]) != f {
      var i :| 0 <= i < k && FieldOf(msgs[i]) == f;
      assert SeenField(msgs, k - 1, f);
    }
    if SeenField(msgs, k - 1, f) {
      var i :| 0 <= i < k - 1 && FieldOf(msgs[i]) == f;
      assert SeenField(msgs, k, f);
    }
    if FieldOf(msgs[k - 1]) == f {
      assert SeenField(msgs, k, f);
    }
  }

  /** The info after the first k replies of a permutation: the fields seen so far, with the device's values. */
  lemma {:induction false} FilledPrefix(msgs: seq<InfoMsg>, d: Descriptor, k: nat)
    requires k <= |msgs|
    requires forall i :: 0 <= i < |msgs| ==> msgs[i] == ReplyFor(d, FieldOf(msgs[i]))
    ensures FillAll(NoInfo, Packets(msgs)[..k]).Done?
    ensures forall f :: (Project(FillAll(NoInfo, Packets(msgs)[..k]).value, f) ==
      if SeenField(msgs, k, f) then Some(ReplyFor(d, f)) else None)
  {
    if k > 0 {
      FilledPrefix(msgs, d, k - 1);
      var before := FillAll(NoInfo, Packets(msgs)[..k - 1]).value;
      FillAllSnoc(NoInfo, Packets(msgs)[..k - 1], InfoPacket(msgs[k - 1]));
      assert Packets(msgs)[..k] == Packets(msgs)[..k - 1] + [InfoPacket(msgs[k - 1])];
      forall f ensures (Project(FillAll(NoInfo, Packets(msgs)[..k]).value, f) ==
        if SeenField(msgs, k, f) then Some(ReplyFor(d, f)) else None)
      {
        FillSetsOneField(before, msgs[k - 1], f);
        SeenOneMore(msgs, k, f);
      }
    } else {
      forall f ensures Project(NoInfo, f) == None { }
    }
  }

  /** The info after k replies of a permutation, which `fill` never rejects. */
  function InfoAfter(msgs: seq<InfoMsg>, d: Descriptor, k: nat): Info
    requires multiset(msgs) == multiset(Replies(d)) && k <= 6
  {
    PermutedValues(msgs, d);
    FilledPrefix(msgs, d, k);
    FillAll(NoInfo, Packets(msgs)[..k]).value
  }

  /** Reply k takes the info from its state after k replies to its state after k + 1. */
  lemma StepFills(msgs: seq<InfoMsg>, d: Descriptor, k: nat)
    requires multiset(msgs) == multiset(Replies(d)) && k < 6
    ensures |msgs| == 6
    ensures FillInfo(InfoAfter(msgs, d, k), Packets(msgs)[k]) == Done(InfoAfter(msgs, d, k + 1))
  {
    PermutedLength(msgs, d);
    var ps := Packets(msgs);
    var pre := ps[..k];
    assert ps[..k + 1] == pre + [ps[k]];
    assert ps[..k + 1] == Packets(msgs[..k + 1]);
    FillAllPackets(NoInfo, msgs[..k + 1]);
    assert pre == Packets(msgs[..k]);
    FillAllPackets(NoInfo, msgs[..k]);
    FillAllSnoc(NoInfo, pre, ps[k]);
  }

  /** After k replies of a permutation the info is complete only when k is 6, and then it holds the device's values. */
  lemma CompleteAt(msgs: seq<InfoMsg>, d: Descriptor, k: nat)
    requires multiset(msgs) == multiset(Replies(d)) && 0 < k <= 6
    ensures Complete(InfoAfter(msgs, d, k)) <==> k == 6
    ensures k == 6 ==> InfoAfter(msgs, d, k) == Described(d)
  {
    PermutedValues(msgs, d);
    FilledPrefix(msgs, d, k);
    var info := InfoAfter(msgs, d, k);
    ProjectionsDetermine(info, Described(d));
    if k == 6 {
      PermutedCover(msgs, d);
      forall f ensures Project(info, f) == Project(Described(d), f) {
        assert SeenField(msgs, 6, f);
      }
    } else {
      PermutedDistinct(msgs, d);
      var f := FieldOf(msgs[k]);
      assert !SeenField(msgs, k, f);
      assert Project(info, f) == None;
    }
  }

  lemma {:induction false} AccumulateFrom(msgs: seq<InfoMsg>, d: Descriptor, k: nat)
    requires multiset(msgs) == multiset(Replies(d))
    requires k < 6
    ensures |msgs| == 6
    ensures Accumulate(InfoAfter(msgs, d, k), Packets(msgs)[k..]) == Ready(Described(d), 6 - k)
    decreases 6 - k
  {
    StepFills(msgs, d, k);
    CompleteAt(msgs, d, k + 1);
    assert Packets(msgs)[k..][0] == Packets(msgs)[k];
    if k < 5 {
      AccumulateFrom(msgs, d, k + 1);
      assert Packets(msgs)[k..][1..] == Packets(msgs)[k + 1..];
    }
  }

  /** Whatever order the six replies arrive in, the handshake completes after exactly those six, with the device's values. */
  lemma HandshakeInAnyOrder(msgs: seq<InfoMsg>, d: Descriptor)
    requires multiset(msgs) == multiset(Replies(d))
    ensures Accumulate(NoInfo, Packets(msgs)) == Ready(Described(d), 6)
    ensures Complete(Described(d))
  {
    AccumulateFrom(msgs, d, 0);
    assert Packets(msgs)[..0] == [];
    assert Packets(msgs)[0..] == Packets(msgs);
  }

  // ---------------------------------------------------------------------------
  // The requests that start the handshake

  /** The four messages `setup` sends to the device's port, unprefixed and in this order. */
  function HandshakeRequests(localPort: i32, localIp: string, prefix: string): seq<Frame> {
    [ Frame("/sys/port", [Int(localPort)]),
      Frame("/sys/host", [Str(localIp)]),
      Frame("/sys/prefix", [Str(prefix)]),
      Frame("/sys/info", []) ]
  }

  function AsPacket(f: Frame): Packet {
    Message(f.addr, Some(f.args))
  }

  /**
   * The requests have the shapes `fill` reads: read back by `fill`, the three
   * requests that carry a value set exactly the port, host and prefix that
   * were sent, and the info request fills nothing.
   */
  lemma EchoedRequests(localPort: i32, localIp: string, prefix: string)
    ensures var echo := seq(4, i requires 0 <= i < 4 => AsPacket(HandshakeRequests(localPort, localIp, prefix)[i]));
      FillAll(NoInfo, echo) == Done(NoInfo.(port := Some(localPort), host := Some(localIp), prefix := Some(prefix)))
  {
    var echo := seq(4, i requires 0 <= i < 4 => AsPacket(HandshakeRequests(localPort, localIp, prefix)[i]));
    var i1 := NoInfo.(port := Some(localPort));
    var i2 := i1.(host := Some(localIp));
    var i3 := i2.(prefix := Some(prefix));
    assert echo[3] == Message("/sys/info", Some([]));
    forall f ensures !StartsWith("/sys/info", FieldAddr(f)) {
      var k := if f == IdField then 6 else 5;
      assert "/sys/info"[k] != FieldAddr(f)[k];
    }
    FillIgnores(i3, echo[3]);
    assert FillAll(i3, echo[3..]) == Done(i3) by {
      assert echo[3..][1..] == [];
    }
    assert echo[2] == InfoPacket(PrefixMsg(prefix));
    FieldAddrsDistinct(PrefixField, PortField);
    FieldAddrsDistinct(PrefixField, HostField);
    FieldAddrsDistinct(PrefixField, IdField);
    FieldAddrsDistinct(PrefixField, PrefixField);
    assert FillInfo(i2, echo[2]) == Done(i3);
    assert FillAll(i2, echo[2..]) == Done(i3) by {
      assert echo[2..][1..] == echo[3..];
    }
    assert echo[1] == InfoPacket(HostMsg(localIp));
    FieldAddrsDistinct(HostField, PortField);
    FieldAddrsDistinct(HostField, HostField);
    assert FillInfo(i1, echo[1]) == Done(i2);
    assert FillAll(i1, echo[1..]) == Done(i3) by {
      assert echo[1..][1..] == echo[2..];
    }
    assert echo[0] == InfoPacket(PortMsg(localPort));
    FieldAddrsDistinct(PortField, PortField);
    assert FillInfo(NoInfo, echo[0]) == Done(i1);
  }
}
