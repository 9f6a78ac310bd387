/**
 * Talking to the serialosc daemon: listing the attached devices, picking the
 * first one, and the watcher that re-registers for add/remove notifications.
 * Time is abstracted: a `Timeout` event stands for 500 ms without a datagram.
 */
module Discovery {
  import opened Osc
  import opened Device

  /** What the enumeration loop sees on each turn: a decoded datagram, or the delay firing first. */
  datatype TraceEvent = Recv(p: Packet) | Timeout

  /** How the enumeration loop ends: with the listed devices, or still waiting when the trace runs out. */
  datatype Enumeration = Listed(devices: seq<MonomeDevice>) | Waiting(devices: seq<MonomeDevice>)

  const DeviceAddr: string := "/serialosc/device"

  /** The events that end the loop: the delay firing, or a device message with no argument list. */
  predicate Ends(e: TraceEvent) {
    e.Timeout? || (e.p.Message? && e.p.addr == DeviceAddr && e.p.args.None?)
  }

  /** The device an event announces, if any: exactly `[Str name, Str type, Int port]` under exactly the device address. */
  function Announced(e: TraceEvent): (r: seq<MonomeDevice>)
    ensures |r| <= 1
    ensures |r| == 1 ==> e.Recv? && e.p.Message? && e.p.addr == DeviceAddr && !Ends(e)
    ensures |r| == 1 <==>
      && e.Recv? && e.p.Message? && e.p.addr == DeviceAddr && e.p.args.Some?
      && |e.p.args.value| == 3 && e.p.args.value[0].Str? && e.p.args.value[1].Str? && e.p.args.value[2].Int?
    ensures |r| == 1 ==>
      && e.Recv? && e.p.Message? && e.p.args.Some? && |e.p.args.value| == 3
      && e.p.args.value[0] == Str(r[0].name)
      && e.p.args.value[1].Str? && r[0].deviceType == DeviceTypeFrom(e.p.args.value[1].s)
      && e.p.args.value[2] == Int(r[0].port)
  {
    if e.Recv? && e.p.Message? && e.p.addr == DeviceAddr && e.p.args.Some? then
      var a := e.p.args.value;
      if |a| == 3 && a[0].Str? && a[1].Str? && a[2].Int? then [NewDevice(a[0].s, a[1].s, a[2].i)] else []
    else []
  }

  function Prepend(ds: seq<MonomeDevice>, e: Enumeration): Enumeration {
    if e.Listed? then Listed(ds + e.devices) else Waiting(ds + e.devices)
  }

  /** The loop of `enumerate_devices_with_port` on values. */
  function Enumerate(trace: seq<TraceEvent>): Enumeration
    decreases |trace|
  {
    if trace == [] then Waiting([])
    else if Ends(trace[0]) then Listed([])
    else Prepend(Announced(trace[0]), Enumerate(trace[1..]))
  }

  /** The loop as the source runs it, pushing onto a growing device list. */
  method EnumerateDevices(trace: seq<TraceEvent>) returns (result: Enumeration)
    ensures result == Enumerate(trace)
  {
    var devices: seq<MonomeDevice> := [];
    var k := 0;
    while k < |trace|
      invariant 0 <= k <= |trace|
      invariant Enumerate(trace) == Prepend(devices, Enumerate(trace[k..]))
    {
      var e := trace[k];
      assert trace[k..][0] == e && trace[k..][1..] == trace[k + 1..];
      if Ends(e) {
        assert Enumerate(trace[k..]) == Listed([]);
        assert devices + [] == devices;
        return Listed(devices);
      }
      assert Enumerate(trace[k..]) == Prepend(Announced(e), Enumerate(trace[k + 1..]));
      PrependTwice(devices, Announced(e), Enumerate(trace[k + 1..]));
      devices := devices + Announced(e);
      k := k + 1;
    }
    assert Enumerate(trace[k..]) == Waiting([]);
    assert devices + [] == devices;
    return Waiting(devices);
  }

  lemma PrependTwice(ds: seq<MonomeDevice>, more: seq<MonomeDevice>, e: Enumeration)
    ensures Prepend(ds, Prepend(more, e)) == Prepend(ds + more, e)
  {
    assert ds + (more + e.devices) == ds + more + e.devices;
  }

  /** Every device any event of a list announces, in order. */
  function AllAnnounced(events: seq<TraceEvent>): seq<MonomeDevice>
    decreases |events|
  {
    if events == [] then [] else AllAnnounced(events[..|events| - 1]) + Announced(events[|events| - 1])
  }

  lemma {:induction false} AllAnnouncedCons(e: TraceEvent, events: seq<TraceEvent>)
    ensures AllAnnounced([e] + events) == Announced(e) + AllAnnounced(events)
    decreases |events|
  {
    if events != [] {
      var init := events[..|events| - 1];
      assert ([e] + events)[..|events|] == [e] + init;
      AllAnnouncedCons(e, init);
    } else {
      assert ([e] + events)[..0] == [];
    }
  }

  /**
   * The loop ends at the first terminating event and lists exactly the
   * devices announced before it, in arrival order; announcements after it
   * are never read. Without a terminating event it is still waiting.
   */
  lemma {:induction false} EnumerateUpToFirstEnd(trace: seq<TraceEvent>, k: nat)
    requires k <= |trace|
    requires forall i :: 0 <= i < k ==> !Ends(trace[i])
    ensures k < |trace| && Ends(trace[k]) ==> Enumerate(trace) == Listed(AllAnnounced(trace[..k]))
    ensures k == |trace| ==> Enumerate(trace) == Waiting(AllAnnounced(trace))
    decreases k
  {
    if k > 0 {
      EnumerateUpToFirstEnd(trace[1..], k - 1);
      assert trace[..k] == [trace[0]] + trace[1..][..k - 1];
      AllAnnouncedCons(trace[0], trace[1..][..k - 1]);
      assert trace[1..][..k - 1] == trace[1..k];
      if k == |trace| {
        assert trace[1..][..k - 1] == trace[1..];
        assert trace[..k] == trace;
      }
    } else {
      assert trace[..0] == [];
    }
  }

  /** The announcement the daemon sends for one device. */
  function Announcement(name: string, typeName: string, port: i32): TraceEvent {
    Recv(Message(DeviceAddr, Some([Str(name), Str(typeName), Int(port)])))
  }

  function Announcements(ds: seq<(string, string, i32)>): (r: seq<TraceEvent>)
    ensures |r| == |ds|
  {
    seq(|ds|, i requires 0 <= i < |ds| => Announcement(ds[i].0, ds[i].1, ds[i].2))
  }

  /** The daemon's answer, one announcement per device followed by a quiet period, lists every device in order, whatever comes after. */
  lemma DaemonAnswer(ds: seq<(string, string, i32)>, rest: seq<TraceEvent>)
    ensures var r := Enumerate(Announcements(ds) + [Timeout] + rest);
      && r.Listed?
      && |r.devices| == |ds|
      && forall i :: 0 <= i < |ds| ==> r.devices[i] == NewDevice(ds[i].0, ds[i].1, ds[i].2)
  {
    var trace := Announcements(ds) + [Timeout] + rest;
    var k := |ds|;
    assert forall i :: 0 <= i < k ==> trace[i] == Announcements(ds)[i];
    EnumerateUpToFirstEnd(trace, k);
    assert trace[..k] == Announcements(ds);
    AnnouncementsList(ds);
  }

  lemma {:induction false} AnnouncementsList(ds: seq<(string, string, i32)>)
    ensures |AllAnnounced(Announcements(ds))| == |ds|
    ensures forall i :: 0 <= i < |ds| ==> AllAnnounced(Announcements(ds))[i] == NewDevice(ds[i].0, ds[i].1, ds[i].2)
    decreases |ds|
  {
    if ds != [] {
      var init := ds[..|ds| - 1];
      AnnouncementsList(init);
      assert Announcements(ds)[..|ds| - 1] == Announcements(init);
    }
  }

  /** An event that neither ends the loop nor announces a device (a key press, a bundle, a message for another address) changes nothing. */
  lemma {:induction false} StrayEventIgnored(before: seq<TraceEvent>, e: TraceEvent, after: seq<TraceEvent>)
    requires !Ends(e) && Announced(e) == []
    ensures Enumerate(before + [e] + after) == Enumerate(before + after)
    decreases |before|
  {
    if before == [] {
      assert ([] + [e] + after)[1..] == after;
      assert [] + after == after;
    } else {
      assert (before + [e] + after)[0] == before[0];
      assert (before + after)[0] == before[0];
      assert (before + [e] + after)[1..] == before[1..] + [e] + after;
      assert (before + after)[1..] == before[1..] + after;
      StrayEventIgnored(before[1..], e, after);
    }
  }

  /** `new_with_port`: the first listed device, or the error for an empty list. */
  function FirstDevice(devices: seq<MonomeDevice>): (r: Result<MonomeDevice>)
    ensures r.Err? <==> devices == []
    ensures r.Err? ==> r.msg == "No devices detected"
    ensures r.Ok? ==> r.value == devices[0]
  {
    if devices == [] then Err("No devices detected") else Ok(devices[0])
  }

  // ---------------------------------------------------------------------------
  // The device-change watcher

  datatype DeviceChangeEvent = Added(id: string) | Removed(id: string)

  /** What the watcher does: (re-)register for notifications, or call the user's callback. */
  datatype WatchEffect = SendNotify | Callback(event: DeviceChangeEvent)

  /** What one received packet does: whether it asks for a new notify registration, and the callback it triggers. */
  datatype Reaction = Reaction(rearm: bool, event: Option<DeviceChangeEvent>)

  const NoReaction: Reaction := Reaction(false, None)

  /** One turn of the watcher loop. Reading the first argument of an empty list is the source's out-of-bounds panic. */
  function React(p: Packet): (r: Outcome<Reaction>)
    ensures r.Done? && r.value.event.Some? ==> r.value.rearm
    ensures r == Panic <==>
      p.Message? && p.args == Some([]) &&
      (StartsWith(p.addr, "/serialosc/add") || StartsWith(p.addr, "/serialosc/remove"))
    ensures r.Done? && r.value.rearm ==> p.Message? && StartsWith(p.addr, "/serialosc/")
    ensures r.Done? && r.value.rearm <==>
      && p.Message? && p.args.Some? && |p.args.value| > 0
      && (StartsWith(p.addr, "/serialosc/add") || (StartsWith(p.addr, "/serialosc/remove") && p.args.value[0].Str?))
    ensures (r.Done? && r.value.event.Some? && r.value.event.value.Added?) <==>
      && p.Message? && p.args.Some? && |p.args.value| > 0 && p.args.value[0].Str?
      && StartsWith(p.addr, "/serialosc/add")
    ensures (r.Done? && r.value.event.Some? && r.value.event.value.Removed?) <==>
      && p.Message? && p.args.Some? && |p.args.value| > 0 && p.args.value[0].Str?
      && !StartsWith(p.addr, "/serialosc/add") && StartsWith(p.addr, "/serialosc/remove")
    ensures r.Done? && r.value.event.Some? ==>
      p.Message? && p.args.Some? && |p.args.value| > 0 && p.args.value[0] == Str(r.value.event.value.id)
  {
    match p
    case Bundle => Done(NoReaction)
    case Message(addr, args) =>
      DaemonAddrs(addr);
      if args.None? then Done(NoReaction)
      else if StartsWith(addr, "/serialosc/add") then
        if |args.value| == 0 then Panic
        else if args.value[0].Str? then Done(Reaction(true, Some(Added(args.value[0].s))))
        else Done(Reaction(true, None))
      else if StartsWith(addr, "/serialosc/remove") then
        if |args.value| == 0 then Panic
        else if args.value[0].Str? then Done(Reaction(true, Some(Removed(args.value[0].s))))
        else Done(NoReaction)
      else Done(NoReaction)
  }

  /** Both daemon notifications lie under "/serialosc/". */
  lemma DaemonAddrs(addr: string)
    ensures StartsWith(addr, "/serialosc/add") ==> StartsWith(addr, "/serialosc/")
    ensures StartsWith(addr, "/serialosc/remove") ==> StartsWith(addr, "/serialosc/")
  {
    if StartsWith(addr, "/serialosc/add") {
      assert addr[..11] == "/serialosc/add"[..11];
    }
    if StartsWith(addr, "/serialosc/remove") {
      assert addr[..11] == "/serialosc/remove"[..11];
    }
  }

  /** The effects of a run of the watcher, and whether it ended in a panic. */
  datatype WatchRun = WatchRun(effects: seq<WatchEffect>, crashed: bool)

  function CallbackOf(r: Reaction): seq<WatchEffect> {
    if r.event.Some? then [Callback(r.event.value)] else []
  }

  /**
   * The watcher loop on values, from a given `need_notify_msg`: at the top of
   * each turn a pending registration is sent, then one packet is received.
   * After the last packet of the trace a pending registration is still sent.
   */
  function Watch(rearm: bool, trace: seq<Packet>): WatchRun
    decreases |trace|
  {
    var notify := if rearm then [SendNotify] else [];
    if trace == [] then WatchRun(notify, false)
    else match React(trace[0])
      case Panic => WatchRun(notify, true)
      case Done(r) =>
        var rest := Watch(r.rearm, trace[1..]);
        WatchRun(notify + CallbackOf(r) + rest.effects, rest.crashed)
  }

  /** A run preceded by some effects. */
  function Then(before: seq<WatchEffect>, run: WatchRun): WatchRun {
    WatchRun(before + run.effects, run.crashed)
  }

  /** One turn of the loop, as `Watch` takes it, after the effects so far. */
  lemma WatchTurn(effects: seq<WatchEffect>, rearm: bool, trace: seq<Packet>, notify: seq<WatchEffect>)
    requires trace != [] && notify == if rearm then [SendNotify] else []
    ensures React(trace[0]).Panic? ==> Then(effects, Watch(rearm, trace)) == WatchRun(effects + notify, true)
    ensures React(trace[0]).Done? ==>
      Then(effects, Watch(rearm, trace)) ==
      Then(effects + notify + CallbackOf(React(trace[0]).value), Watch(React(trace[0]).value.rearm, trace[1..]))
  {
    match React(trace[0])
    case Panic =>
      assert Watch(rearm, trace) == WatchRun(notify, true);
    case Done(r) =>
      var rest := Watch(r.rearm, trace[1..]);
      assert Watch(rearm, trace) == WatchRun(notify + CallbackOf(r) + rest.effects, rest.crashed);
      assert effects + (notify + CallbackOf(r) + rest.effects) == effects + notify + CallbackOf(r) + rest.effects;
  }

  /** The loop as the source runs it, with `need_notify_msg` as a variable. */
  method WatchDeviceChanges(trace: seq<Packet>) returns (effects: seq<WatchEffect>, crashed: bool)
    ensures WatchRun(effects, crashed) == Watch(true, trace)
  {
    effects := [];
    var needNotify := true;
    var k := 0;
    while k < |trace|
      invariant 0 <= k <= |trace|
      invariant Watch(true, trace) == Then(effects, Watch(needNotify, trace[k..]))
    {
      var notify := if needNotify then [SendNotify] else [];
      WatchTurn(effects, needNotify, trace[k..], notify);
      assert trace[k..][0] == trace[k] && trace[k..][1..] == trace[k + 1..];
      var reaction := React(trace[k]);
      if reaction.Panic? {
        return effects + notify, true;
      }
      effects := effects + notify + CallbackOf(reaction.value);
      needNotify := reaction.value.rearm;
      k := k + 1;
    }
    assert trace[k..] == [];
    if needNotify {
      effects := effects + [SendNotify];
    }
    crashed := false;
  }

  /** The first thing the watcher does is register. */
  lemma RegistersFirst(trace: seq<Packet>)
    ensures |Watch(true, trace).effects| > 0 && Watch(true, trace).effects[0] == SendNotify
  {
  }

  /** Every callback is followed at once by a new registration, so the watcher keeps hearing about later changes. */
  lemma {:induction false} CallbackThenNotify(rearm: bool, trace: seq<Packet>, i: nat)
    requires i < |Watch(rearm, trace).effects| && Watch(rearm, trace).effects[i].Callback?
    ensures i + 1 < |Watch(rearm, trace).effects| && Watch(rearm, trace).effects[i + 1] == SendNotify
    decreases |trace|
  {
    var notify := if rearm then [SendNotify] else [];
    if trace != [] && React(trace[0]).Done? {
      var r := React(trace[0]).value;
      var rest := Watch(r.rearm, trace[1..]);
      if i >= |notify| + |CallbackOf(r)| {
        CallbackThenNotify(r.rearm, trace[1..], i - |notify| - |CallbackOf(r)|);
      } else {
        assert r.event.Some?;
        RegistersFirst(trace[1..]);
      }
    }
  }

  /** The number of packets of a trace that ask for a new registration (none may panic). */
  function Rearms(trace: seq<Packet>): nat
    requires forall i :: 0 <= i < |trace| ==> React(trace[i]).Done?
    decreases |trace|
  {
    if trace == [] then 0
    else (if React(trace[0]).value.rearm then 1 else 0) + Rearms(trace[1..])
  }

  /** The device-change events of a trace, in order (none may panic). */
  function Changes(trace: seq<Packet>): seq<DeviceChangeEvent>
    requires forall i :: 0 <= i < |trace| ==> React(trace[i]).Done?
    decreases |trace|
  {
    if trace == [] then []
    else var e := React(trace[0]).value.event;
      (if e.Some? then [e.value] else []) + Changes(trace[1..])
  }

  function Callbacks(effects: seq<WatchEffect>): seq<DeviceChangeEvent>
    decreases |effects|
  {
    if effects == [] then []
    else (if effects[0].Callback? then [effects[0].event] else []) + Callbacks(effects[1..])
  }

  lemma {:induction false} CallbacksAppend(a: seq<WatchEffect>, b: seq<WatchEffect>)
    ensures Callbacks(a + b) == Callbacks(a) + Callbacks(b)
    decreases |a|
  {
    if a == [] {
      assert a + b == b;
    } else {
      assert (a + b)[0] == a[0] && (a + b)[1..] == a[1..] + b;
      CallbacksAppend(a[1..], b);
      var head := if a[0].Callback? then [a[0].event] else [];
      assert head + (Callbacks(a[1..]) + Callbacks(b)) == head + Callbacks(a[1..]) + Callbacks(b);
    }
  }

  function CountNotify(effects: seq<WatchEffect>): nat
    decreases |effects|
  {
    if effects == [] then 0
    else (if effects[0] == SendNotify then 1 else 0) + CountNotify(effects[1..])
  }

  lemma {:induction false} CountNotifyAppend(a: seq<WatchEffect>, b: seq<WatchEffect>)
    ensures CountNotify(a + b) == CountNotify(a) + CountNotify(b)
    decreases |a|
  {
    if a == [] {
      assert a + b == b;
    } else {
      assert (a + b)[0] == a[0] && (a + b)[1..] == a[1..] + b;
      CountNotifyAppend(a[1..], b);
    }
  }

  /**
   * On a trace that never panics, the watcher calls back once per add or
   * remove of a named device, in order, and registers once at the start plus
   * once after every add and every named remove.
   */
  lemma {:induction false} WatchAccounts(rearm: bool, trace: seq<Packet>)
    requires forall i :: 0 <= i < |trace| ==> React(trace[i]).Done?
    ensures !Watch(rearm, trace).crashed
    ensures Callbacks(Watch(rearm, trace).effects) == Changes(trace)
    ensures CountNotify(Watch(rearm, trace).effects) == (if rearm then 1 else 0) + Rearms(trace)
    decreases |trace|
  {
    var notify := if rearm then [SendNotify] else [];
    assert Callbacks(notify) == [] by {
      if rearm { assert Callbacks(notify) == [] + Callbacks([]); }
    }
    if trace != [] {
      var r := React(trace[0]).value;
      var rest := Watch(r.rearm, trace[1..]);
      WatchAccounts(r.rearm, trace[1..]);
      CallbacksAppend(notify + CallbackOf(r), rest.effects);
      CallbacksAppend(notify, CallbackOf(r));
      CountNotifyAppend(notify + CallbackOf(r), rest.effects);
      CountNotifyAppend(notify, CallbackOf(r));
      if r.event.Some? {
        assert Callbacks(CallbackOf(r)) == [r.event.value] + Callbacks([]);
        assert CountNotify(CallbackOf(r)) == 0 + CountNotify([]);
      }
    }
  }

  /** The watcher stops at the first packet that panics, having sent only what came before. */
  lemma {:induction false} WatchCrashes(rearm: bool, trace: seq<Packet>)
    ensures Watch(rearm, trace).crashed <==> exists i :: 0 <= i < |trace| && React(trace[i]) == Panic
    decreases |trace|
  {
    if trace != [] {
      WatchCrashes(if React(trace[0]).Done? then React(trace[0]).value.rearm else false, trace[1..]);
      if exists i :: 0 <= i < |trace| && React(trace[i]) == Panic {
        var i :| 0 <= i < |trace| && React(trace[i]) == Panic;
        if i > 0 {
          assert React(trace[1..][i - 1]) == Panic;
        }
      }
      if exists i :: 0 <= i < |trace[1..]| && React(trace[1..][i]) == Panic {
        var i :| 0 <= i < |trace[1..]| && React(trace[1..][i]) == Panic;
        assert React(trace[i + 1]) == Panic;
      }
    }
  }
}
