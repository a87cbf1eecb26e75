/**
 * Every run of one session of a device, of either kind: messages queued by clients, the write
 * timer, and reads of any bytes whatever, each of which may bring several packets, answers and
 * unsolicited ones alike, and make the host queue requests of its own.
 */
module DeviceRuns {
  import opened Sequences
  import opened OutputLists
  import opened Sessions
  import opened Devices
  import opened Backends

  /** An open device with its unread input, the time, and every message ever queued, in order. */
  datatype Running = Running(live: Live, input: string, clock: int, queued: seq<Output>)

  datatype Event =
    | Sends(at: int, out: Output)
    | Fires(at: int)
    | Reads(at: int, chunk: string)

  predicate CanHappen(x: Running, e: Event) {
    && e.at >= x.clock
    && (e.Fires? ==> x.live.host.due.Some? && e.at >= x.live.host.due.value)
  }

  /** The layer requests that a run of packets makes the host queue. */
  function Requests(d: Device, v: Live, packets: seq<string>, now: int, default: Timeval): seq<Output>
    requires WellFormed(d) && Ready(v) && NoneEmpty(packets)
    decreases |packets|
  {
    if packets == [] then []
    else
      RequestOf(d, v, packets[0]) +
      Requests(d, Update(d, v, packets[0], now, default).live, packets[1..], now, default)
  }

  function RequestOf(d: Device, v: Live, packet: string): seq<Output>
    requires WellFormed(d) && Ready(v)
  {
    if d.Lge? then []
    else
      var o := MaRequest(packet, d.infos, v.layers);
      if o.Some? then [o.value] else []
  }

  /** One event: what `Send`, `TimerFires` and `ReadCb` of a device do. */
  ghost function Happened(d: Device, x: Running, e: Event, default: Timeval): (y: Running)
    requires WellFormed(d) && Ready(x.live) && CanHappen(x, e)
    ensures Ready(y.live)
  {
    match e
    case Sends(at, o) =>
      Running(x.live.(host := Push(x.live.host, at, o, default)), x.input, at, x.queued + [o])
    case Fires(at) =>
      Running(x.live.(host := Fire(x.live.host, at, default)), x.input, at, x.queued)
    case Reads(at, chunk) =>
      var f := Pending(d, x.input + chunk);
      Running(UpdateAll(d, x.live, f.packets, at, default).live, f.rest, at,
              x.queued + Requests(d, x.live, f.packets, at, default))
  }

  ghost predicate Possible(d: Device, x: Running, es: seq<Event>, default: Timeval)
    requires WellFormed(d) && Ready(x.live)
    decreases |es|
  {
    es == [] || (CanHappen(x, es[0]) && Possible(d, Happened(d, x, es[0], default), es[1..], default))
  }

  ghost function AfterRun(d: Device, x: Running, es: seq<Event>, default: Timeval): Running
    requires WellFormed(d) && Ready(x.live) && Possible(d, x, es, default)
    decreases |es|
  {
    if es == [] then x else AfterRun(d, Happened(d, x, es[0], default), es[1..], default)
  }

  /**
   * Consecutive writes are at least the earlier one's pause apart, the timer is pending while
   * anything waits, and what was queued is what was written and then what waits.
   */
  ghost predicate Orderly(h: Host, clock: int, queued: seq<Output>, default: Timeval) {
    && Sane(h)
    && Spaced(h.writes, default)
    && Guarded(h, clock, default)
    && queued == Written(h.writes) + h.unsent
  }

  ghost predicate Inv(x: Running, default: Timeval) {
    Ready(x.live) && Orderly(x.live.host, x.clock, x.queued, default)
  }

  /** A packet of either device: nothing that waits or was written is lost, and a request comes last. */
  lemma UpdateKeeps(d: Device, v: Live, packet: string, clock: int, now: int, queued: seq<Output>, default: Timeval)
    requires WellFormed(d) && Ready(v) && packet != [] && clock <= now
    requires Orderly(v.host, clock, queued, default)
    ensures var v' := Update(d, v, packet, now, default).live;
            && Orderly(v'.host, now, queued + RequestOf(d, v, packet), default)
            && v.host.writes <= v'.host.writes && v.host.popped <= v'.host.popped
  {
    if d.Lge? {
      Associate(queued, [], []);
    } else {
      MarantzKeeps(v, packet, clock, now, d.infos, default);
      var o := MaRequest(packet, d.infos, v.layers);
      if o.Some? {
        PushKeeps(v.host.(popped := |v.host.writes|), clock, now, o.value, default);
      }
    }
  }

  lemma {:induction false} UpdateAllKeeps(d: Device, v: Live, packets: seq<string>, clock: int, now: int,
                                          queued: seq<Output>, default: Timeval)
    requires WellFormed(d) && Ready(v) && NoneEmpty(packets) && clock <= now
    requires Orderly(v.host, clock, queued, default)
    ensures var v' := UpdateAll(d, v, packets, now, default).live;
            && Orderly(v'.host, now, queued + Requests(d, v, packets, now, default), default)
            && v.host.writes <= v'.host.writes && v.host.popped <= v'.host.popped
    decreases |packets|
  {
    if packets == [] {
      Associate(queued, [], []);
    } else {
      var v1, o := Update(d, v, packets[0], now, default).live, RequestOf(d, v, packets[0]);
      UpdateKeeps(d, v, packets[0], clock, now, queued, default);
      UpdateAllKeeps(d, v1, packets[1..], now, now, queued + o, default);
      Associate(queued, o, Requests(d, v1, packets[1..], now, default));
    }
  }

  lemma EventKeeps(d: Device, x: Running, e: Event, default: Timeval)
    requires WellFormed(d) && Inv(x, default) && CanHappen(x, e)
    ensures var y := Happened(d, x, e, default);
            && Inv(y, default)
            && x.live.host.writes <= y.live.host.writes && x.live.host.popped <= y.live.host.popped
  {
    match e
    case Sends(at, o) => PushKeeps(x.live.host, x.clock, at, o, default);
    case Fires(at) => FireKeeps(x.live.host, x.clock, at, default);
    case Reads(at, chunk) =>
      UpdateAllKeeps(d, x.live, Pending(d, x.input + chunk).packets, x.clock, at, x.queued, default);
  }

  lemma {:induction false} RunKeeps(d: Device, x: Running, es: seq<Event>, default: Timeval)
    requires WellFormed(d) && Inv(x, default) && Possible(d, x, es, default)
    ensures var y := AfterRun(d, x, es, default);
            && Inv(y, default)
            && x.live.host.writes <= y.live.host.writes && x.live.host.popped <= y.live.host.popped
    decreases |es|
  {
    if es != [] {
      EventKeeps(d, x, es[0], default);
      RunKeeps(d, Happened(d, x, es[0], default), es[1..], default);
    }
  }

  /** A device whose line has just been opened: a Marantz is at once asked for its first layer. */
  function JustOpened(d: Device, now: int, default: Timeval): Running {
    if d.Lge? then Running(Live(FRESH, NO_LAYERS), [], now, [])
    else
      var o := LayerRequest(NO_LAYERS, 1);
      Running(Live(Push(FRESH, now, o, default), NO_LAYERS), [], now, [o])
  }

  /**
   * Over every run of a session of either device: writes spaced, nothing lost, duplicated or
   * reordered, and no message stuck without a timer.
   */
  lemma EveryRun(d: Device, x: Running, es: seq<Event>, default: Timeval)
    requires WellFormed(d) && x == JustOpened(d, x.clock, default)
    requires Ready(x.live) && Possible(d, x, es, default)
    ensures Inv(AfterRun(d, x, es, default), default)
  {
    if d.Marantz? {
      PushKeeps(FRESH, x.clock, x.clock, LayerRequest(NO_LAYERS, 1), default);
    }
    RunKeeps(d, x, es, default);
  }

  /**
   * Over every run of a session of either device, configured for `ms` milliseconds: a write comes
   * no sooner after the one before than that one's message asks for, or else than the configured
   * time, and the timer is due exactly then after the last one.
   */
  lemma EveryPause(d: Device, x: Running, es: seq<Event>, ms: int)
    requires WellFormed(d) && x == JustOpened(d, x.clock, DefaultThrottle(ms))
    requires Ready(x.live) && Possible(d, x, es, DefaultThrottle(ms))
    ensures var h := AfterRun(d, x, es, DefaultThrottle(ms)).live.host;
            && (forall i {:trigger h.writes[i].out} | 0 <= i < |h.writes| - 1 ::
                  var t := h.writes[i].out.throttle;
                  h.writes[i + 1].at - h.writes[i].at >=
                  if t.sec > 0 || t.usec > 0 then t.sec * 1_000_000 + t.usec else ms * 1000)
            && (h.writes != [] && h.due.Some? ==>
                  var w := h.writes[|h.writes| - 1];
                  var t := w.out.throttle;
                  h.due.value - w.at == if t.sec > 0 || t.usec > 0 then t.sec * 1_000_000 + t.usec else ms * 1000)
  {
    EveryRun(d, x, es, DefaultThrottle(ms));
    var y := AfterRun(d, x, es, DefaultThrottle(ms));
    PausesKept(y.live.host, y.clock, ms);
  }
}
