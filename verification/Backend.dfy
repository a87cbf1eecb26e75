/**
 * A device's connection (backend.cc, backend_private.hh): the throttled queue over the linked
 * list, the write timer, and the draining of input into packets for the device's `update_status`.
 */
module Backends {
  import opened Options
  import opened Sequences
  import opened OutputLists
  import opened Sessions
  import opened Devices
  import opened Framing

  /** What distinguishes the two kinds of device: their tables. */
  datatype Device =
    | Lge(notifies: seq<LgeNotify>, commands: seq<LgeCommand>)
    | Marantz(infos: seq<MaInfo>)

  predicate WellFormed(d: Device) {
    d.Marantz? ==> Layered(d.infos)
  }

  function Separators(d: Device): string { if d.Lge? then "x" else "\r" }

  /** Packets end at a separator or at a NUL, which `strchr` finds at every string's end; empty ones are dropped. */
  function PacketCut(d: Device): Cut {
    Cut(if d.Lge? then {'x', '\0'} else {'\r', '\0'}, false)
  }

  lemma SeparatorsStop(d: Device, c: char)
    ensures c in PacketCut(d).stops <==> c in Separators(d) || c == '\0'
  {}

  /** What handling input comes to: the device, and what is reported (only an LGE's replies are, here). */
  datatype Outcome = Outcome(live: Live, reports: seq<Report>)

  /** The device's reaction to one packet. */
  function Update(d: Device, v: Live, packet: string, now: int, default: Timeval): (o: Outcome)
    requires WellFormed(d) && Ready(v) && packet != []
    ensures Ready(o.live)
  {
    if d.Lge? then Outcome(v.(host := Reply(v.host, packet[0])), LgeReports(v.host, packet, d.notifies))
    else Outcome(MaUpdate(v, packet, now, d.infos, default), [])
  }

  /** The device's reaction to a run of packets. */
  function UpdateAll(d: Device, v: Live, packets: seq<string>, now: int, default: Timeval): (o: Outcome)
    requires WellFormed(d) && Ready(v) && NoneEmpty(packets)
    ensures Ready(o.live)
    decreases |packets|
  {
    if packets == [] then Outcome(v, [])
    else
      var first := Update(d, v, packets[0], now, default);
      Reporting(first.reports, UpdateAll(d, first.live, packets[1..], now, default))
  }

  function Reporting(reports: seq<Report>, o: Outcome): Outcome { Outcome(o.live, reports + o.reports) }

  /** The first packet's share of a run's outcome. */
  lemma UpdateFirst(d: Device, v: Live, packets: seq<string>, now: int, default: Timeval, soFar: seq<Report>)
    requires WellFormed(d) && Ready(v) && NoneEmpty(packets) && packets != []
    ensures NoneEmpty(packets[1..])
    ensures var first := Update(d, v, packets[0], now, default);
            Reporting(soFar, UpdateAll(d, v, packets, now, default)) ==
            Reporting(soFar + first.reports, UpdateAll(d, first.live, packets[1..], now, default))
  {
    NoneEmptyTail(packets);
    var first := Update(d, v, packets[0], now, default);
    Associate(soFar, first.reports, UpdateAll(d, first.live, packets[1..], now, default).reports);
  }

  lemma {:induction false} PacketsNonEmpty(s: string, c: Cut)
    requires !c.keepEmpty
    ensures NoneEmpty(Frame(s, c).packets)
    decreases |s|
  {
    var i := FirstStop(s, c);
    if i < |s| {
      FrameFirst(s, c);
      PacketsNonEmpty(s[i + 1..], c);
    }
  }

  /** What a buffer holds: packets, none of them empty, and a rest. */
  ghost function Pending(d: Device, s: string): (f: Framed)
    ensures NoneEmpty(f.packets)
  {
    PacketsNonEmpty(s, PacketCut(d));
    Frame(s, PacketCut(d))
  }

  lemma WrittenSnoc(ws: seq<Write>, w: Write, from: nat)
    requires from <= |ws|
    ensures Written(ws + [w])[from..] == Written(ws)[from..] + [w.out]
  {}

  class BackendDevice {
    const device: Device
    const outThrottle: Timeval
    const output: OutputList

    /** When the write timer is due, if it is pending. */
    var writeEv: Option<int>
    /** Bytes read and not yet cut into packets. */
    var input: string
    /** What went out on the line, and when. */
    var line: seq<Write>
    /** The automatic-feedback layers a Marantz device has on. */
    var layers: seq<bool>
    /** How many of the messages on the line have left the queue. */
    ghost var popped: nat

    ghost predicate Valid()
      reads this, output, output.nodes
    {
      && WellFormed(device)
      && |layers| == 4
      && output.Valid()
      && popped <= |line|
      && output.sent == Written(line)[popped..]
    }

    ghost function Abs(): (h: Host)
      requires Valid()
      reads this, output, output.nodes
      ensures Sane(h)
    {
      Host(line, popped, output.unsent, writeEv)
    }

    ghost function Whole(): (v: Live)
      requires Valid()
      reads this, output, output.nodes
      ensures Ready(v)
    {
      Live(Abs(), layers)
    }

    /** `inptr` points at the oldest outstanding message, or is null when there is none. */
    ghost predicate AtFront(inptr: Node?)
      requires Valid()
      reads this, output, output.nodes, output.beforeBegin
    {
      && inptr == output.Front()
      && if popped < |line| then inptr != null && inptr.out == line[popped].out else inptr == null
    }

    lemma FrontIsOldest()
      requires Valid()
      ensures AtFront(output.Front())
    {
      output.Ends();
    }

    /** Nothing but `output`'s own nodes and new ones is linked into the queue. */
    twostate predicate OwnNodes()
      reads this, output
    {
      forall i | 0 <= i < |output.nodes| :: output.nodes[i] in old(output.nodes) || fresh(output.nodes[i])
    }

    constructor (device: Device, throttle: int)
      requires WellFormed(device)
      ensures Valid() && fresh(output) && fresh(output.nodes)
      ensures this.device == device && outThrottle == DefaultThrottle(throttle)
      ensures Abs() == FRESH && input == [] && layers == [false, false, false, false]
    {
      this.device := device;
      outThrottle := DefaultThrottle(throttle);
      output := new OutputList();
      writeEv, input, line, popped := None, [], [], 0;
      layers := [false, false, false, false];
    }

    /** A write of the next message, if any, and a new timer for its pause. */
    method WriteCb(now: int)
      requires Valid()
      modifies this`line, this`writeEv, output
      ensures Valid() && output.nodes == old(output.nodes)
      ensures Abs() == WriteNext(old(Abs()), now, outThrottle)
      ensures if old(output.unsent) == [] then line == old(line) && writeEv == old(writeEv)
              else
                var o := old(output.unsent)[0];
                && line == old(line) + [Write(o, now)] && output.unsent == old(output.unsent)[1..]
                && writeEv == Some(now + if o.throttle.sec > 0 || o.throttle.usec > 0
                                         then o.throttle.sec * 1_000_000 + o.throttle.usec
                                         else outThrottle.sec * 1_000_000 + outThrottle.usec)
    {
      var out := output.ToSend();
      if out == null {
        return;
      }
      line := line + [Write(out.out, now)];
      WrittenSnoc(old(line), Write(out.out, now), popped);
      var t := out.out.throttle;
      if t.sec > 0 || t.usec > 0 {
        writeEv := Some(now + t.Micros());
      } else {
        writeEv := Some(now + outThrottle.Micros());
      }
    }

    /** The event loop runs the timer's callback, which is then no longer pending. */
    method TimerFires(now: int)
      requires Valid() && writeEv.Some?
      modifies this`line, this`writeEv, output
      ensures Valid() && output.nodes == old(output.nodes)
      ensures Abs() == Fire(old(Abs()), now, outThrottle)
    {
      writeEv := None;
      WriteCb(now);
    }

    method Send(o: Output, now: int)
      requires Valid()
      modifies this`line, this`writeEv, output, output.nodes
      ensures Valid() && OwnNodes()
      ensures Abs() == Push(old(Abs()), now, o, outThrottle)
    {
      output.Push(o);
      if writeEv.None? {
        WriteCb(now);
      }
    }

    /** Opening the line; a Marantz device is at once asked for its first feedback layer. */
    method Open(now: int)
      requires Valid()
      modifies this`line, this`writeEv, this`layers, output, output.nodes
      ensures Valid() && OwnNodes()
      ensures layers == if device.Marantz? then [false, false, false, false] else old(layers)
      ensures Abs() ==
              if device.Marantz? then Push(old(Abs()), now, LayerRequest(layers, 1), outThrottle) else old(Abs())
    {
      if device.Marantz? {
        layers := [false, false, false, false];
        EnableAutoStatusLayer(1, now);
      }
    }

    method SendStatusRequest(code: string, now: int) returns (res: int)
      requires Valid()
      modifies this`line, this`writeEv, output, output.nodes
      ensures Valid() && OwnNodes()
      ensures var o := if device.Lge? then StatusRequest(device.notifies, code) else Some(MaStatusRequest(code));
              && (res == 0 <==> o.Some?)
              && Abs() == if o.Some? then Push(old(Abs()), now, o.value, outThrottle) else old(Abs())
    {
      if device.Marantz? {
        Send(MaStatusRequest(code), now);
        return 0;
      }
      var rows := device.notifies;
      for i := 0 to |rows|
        invariant Valid() && OwnNodes() && Abs() == old(Abs())
        invariant StatusRequest(rows[i..], code) == StatusRequest(rows, code)
      {
        assert rows[i..][1..] == rows[i + 1..];
        if rows[i].code == code {
          Send(Output(rows[i].cmd + " 00 FF\r", ZERO), now);
          return 0;
        }
      }
      return -1;
    }

    /** A client's command for an LGE device. */
    method LgeSendCommand(cmd: string, args: seq<int>, now: int)
      requires Valid() && device.Lge?
      modifies this`line, this`writeEv, output, output.nodes
      ensures Valid() && OwnNodes()
      ensures var o := Command(device.commands, cmd, args);
              Abs() == if o.Some? then Push(old(Abs()), now, o.value, outThrottle) else old(Abs())
    {
      var rows := device.commands;
      var i := FindCommand(rows, cmd);
      if i == |rows| || |args| != ArgCount(rows[i].format) {
        return;
      }
      Send(Output(CommandText(rows[i], args), rows[i].throttle), now);
    }

    method Close()
      requires Valid()
      modifies this, output, output.nodes
      ensures Valid() && OwnNodes()
      ensures Abs() == FRESH && input == [] && layers == old(layers)
    {
      writeEv, input, line, popped := None, [], [], 0;
      output.Clear();
    }

    /**
     * Removes the message `inptr` points at, which must be the oldest outstanding one: anything
     * else is reported by throwing. Hands back the pointer to the next outstanding message.
     */
    method RemoveOutput(inptr: Node) returns (thrown: bool, next: Node?)
      requires Valid()
      modifies this`popped, output, output.beforeBegin
      ensures Valid() && OwnNodes()
      ensures thrown <==> inptr != old(output.Front())
      ensures output.unsent == old(output.unsent)
      ensures if thrown then popped == old(popped) && output.sent == old(output.sent)
              else popped == old(popped) + 1 && AtFront(next)
    {
      var front := output.InPtr();
      if inptr != front {
        return true, inptr;
      }
      output.Pop();
      popped := popped + 1;
      FrontIsOldest();
      thrown := false;
      next := output.InPtr();
    }

    /** Removes an outstanding message that a line starting with `letter` cannot answer. */
    method SkipOne(letter: char, inptr: Node) returns (next: Node?)
      requires Valid() && AtFront(inptr) && popped < |line| && !Answers(inptr.out, letter)
      modifies this`popped, output, output.beforeBegin
      ensures Valid() && OwnNodes() && AtFront(next) && output.unsent == old(output.unsent)
      ensures popped == old(popped) + 1
      ensures Match(line, popped, letter) == Match(line, old(popped), letter)
    {
      var thrown;
      thrown, next := RemoveOutput(inptr);
      assert !thrown;
    }

    /** Removes outstanding messages as long as the oldest cannot be what a line starting with `letter` answers. */
    method SkipUnmatched(letter: char, inptr0: Node?) returns (inptr: Node?)
      requires Valid() && AtFront(inptr0)
      modifies this`popped, output, output.beforeBegin
      ensures Valid() && OwnNodes() && AtFront(inptr)
      ensures popped == Match(line, old(popped), letter) && output.unsent == old(output.unsent)
    {
      inptr := inptr0;
      while inptr != null && (|inptr.out.data| < 2 || inptr.out.data[1] != letter)
        invariant Valid() && OwnNodes() && AtFront(inptr) && output.unsent == old(output.unsent)
        invariant Match(line, old(popped), letter) == Match(line, popped, letter)
        decreases |line| - popped
      {
        inptr := SkipOne(letter, inptr);
      }
    }

    /** Skips to the match for `letter` and removes it; hands back its first letter. */
    method TakeMatch(letter: char, inptr0: Node?) returns (first: Option<char>)
      requires Valid() && AtFront(inptr0)
      modifies this`popped, output, output.beforeBegin
      ensures Valid() && OwnNodes() && Abs() == Reply(old(Abs()), letter)
      ensures var k := Match(line, old(popped), letter);
              first == if k < |line| then Some(line[k].out.data[0]) else None
    {
      var inptr := SkipUnmatched(letter, inptr0);
      if inptr == null {
        return None;
      }
      first := Some(inptr.out.data[0]);
      var thrown;
      thrown, inptr := RemoveOutput(inptr);
      assert !thrown;
    }

    /**
     * An LGE's reply line: outstanding messages that cannot be what it answers are skipped, the
     * match is removed, and its first letter joins the line's to pick the rows to report.
     */
    method LgeUpdateStatus(packet: string, inptr0: Node?) returns (reports: seq<Report>)
      requires Valid() && device.Lge? && packet != [] && AtFront(inptr0)
      modifies this`popped, output, output.beforeBegin
      ensures Valid() && OwnNodes()
      ensures Abs() == Reply(old(Abs()), packet[0])
      ensures reports == LgeReports(old(Abs()), packet, device.notifies)
    {
      var first := TakeMatch(packet[0], inptr0);
      if first.None? {
        return [];
      }
      reports := LgeDispatch([first.value, packet[0]], packet);
    }

    method LgeDispatch(cmd: string, packet: string) returns (reports: seq<Report>)
      requires device.Lge?
      ensures reports == Reports(device.notifies, cmd, packet)
    {
      reports := [];
      if |packet| < 6 {
        return;
      }
      var ack := if |packet| < 7 then packet[5..] else packet[5..7];
      if ack != "OK" && ack != "NG" {
        return;
      }
      var rows := device.notifies;
      for i := 0 to |rows|
        invariant reports == ReportsFor(rows[..i], cmd, ack == "OK", packet[7..])
      {
        assert rows[..i + 1][..i] == rows[..i];
        if rows[i].cmd == cmd {
          reports := reports + [Report(rows[i].code, ack == "OK", packet[7..])];
        }
      }
      assert rows[..|rows|] == rows;
    }

    method EnableAutoStatusLayer(layer: nat, now: int)
      requires Valid()
      modifies this`line, this`writeEv, output, output.nodes
      ensures Valid() && OwnNodes()
      ensures Abs() == Push(old(Abs()), now, LayerRequest(layers, layer), outThrottle)
    {
      var flags, bit := 0, 1;
      for i := 0 to 4
        invariant flags == LayerFlags(layers, layer, i) && bit == Bit(i)
      {
        if layers[i] || layer == i + 1 {
          flags := flags + bit;
        }
        bit := bit * 2;
      }
      Send(Output("@AST:" + Hex(flags) + "\r", ZERO), now);
    }

    /** Removes every outstanding message. */
    method RemoveAll(inptr0: Node?)
      requires Valid() && AtFront(inptr0)
      modifies this`popped, output, output.beforeBegin
      ensures Valid() && OwnNodes() && output.sent == []
      ensures popped == |line| && output.unsent == old(output.unsent)
    {
      var inptr, thrown := inptr0, false;
      while inptr != null
        invariant Valid() && OwnNodes() && AtFront(inptr) && output.unsent == old(output.unsent)
        decreases |line| - popped
      {
        thrown, inptr := RemoveOutput(inptr);
        assert !thrown;
      }
    }

    /** A Marantz packet: every outstanding message is removed, whatever the packet says. */
    method MaUpdateStatus(packet: string, inptr0: Node?, now: int)
      requires Valid() && device.Marantz? && AtFront(inptr0)
      modifies this`popped, this`line, this`writeEv, this`layers, output, output.nodes
      ensures Valid() && OwnNodes()
      ensures Whole() == MaUpdate(old(Whole()), packet, now, device.infos, outThrottle)
    {
      RemoveAll(inptr0);
      var code, arg := CutPacket(packet);
      if code.Some? {
        ApplyCode(code.value, arg, now);
      }
    }

    /** The code and the argument of a packet, or no code if it holds no colon. */
    method CutPacket(packet: string) returns (code: Option<string>, arg: string)
      ensures code == PacketCode(packet) && arg == PacketArg(packet)
    {
      var cpos := IndexOf(packet, ':');
      if cpos == |packet| {
        return None, [];
      }
      var c := packet[..cpos];
      if c != [] && c[0] == '@' {
        c := c[1..];
        assert c == packet[1..cpos];
      }
      code, arg := Some(c), packet[cpos + 1..];
    }

    /** The first row for the code: its feedback is heeded and its layer asked for, unless it is on. */
    method ApplyCode(code: string, arg: string, now: int)
      requires Valid() && device.Marantz?
      modifies this`line, this`writeEv, this`layers, output, output.nodes
      ensures Valid() && OwnNodes()
      ensures var row := RowFor(device.infos, code);
              && layers == LayersAfter(row, arg, old(layers))
              && var o := RowRequest(row, layers);
                 Abs() == if o.Some? then Push(old(Abs()), now, o.value, outThrottle) else old(Abs())
    {
      var infos := device.infos;
      for i := 0 to |infos|
        invariant Valid() && OwnNodes() && Abs() == old(Abs()) && layers == old(layers)
        invariant RowFor(infos, code) == RowFor(infos[i..], code)
      {
        assert infos[i..][1..] == infos[i + 1..];
        if infos[i].code == code {
          if infos[i].feedback {
            UpdateAutoStatusFeedback(arg);
          }
          var layer := infos[i].layer;
          if layer > 0 && !layers[layer - 1] {
            EnableAutoStatusLayer(layer, now);
          }
          return;
        }
      }
    }

    method UpdateAutoStatusFeedback(arg: string)
      requires Valid()
      modifies this`layers
      ensures Valid() && layers == Feedback(FeedbackValue(arg))
    {
      var x := FeedbackValue(arg);
      layers := layers[3 := x / 8 % 2 == 1];
      layers := layers[2 := x / 4 % 2 == 1];
      layers := layers[1 := x / 2 % 2 == 1];
      layers := layers[0 := x % 2 == 1];
    }

    /** The device's own `update_status`. */
    method UpdateStatus(packet: string, inptr: Node?, now: int) returns (reports: seq<Report>)
      requires Valid() && packet != [] && AtFront(inptr)
      modifies this`popped, this`line, this`writeEv, this`layers, output, output.nodes
      ensures Valid() && OwnNodes()
      ensures Outcome(Whole(), reports) == Update(device, old(Whole()), packet, now, outThrottle)
    {
      if device.Lge? {
        reports := LgeUpdateStatus(packet, inptr);
      } else {
        MaUpdateStatus(packet, inptr, now);
        reports := [];
      }
    }

    /** What the packets `packets` will come to, with what has been reported so far. */
    ghost function Ahead(soFar: seq<Report>, packets: seq<string>, now: int): Outcome
      requires Valid() && NoneEmpty(packets)
      reads this, output, output.nodes
    {
      Reporting(soFar, UpdateAll(device, Whole(), packets, now, outThrottle))
    }

    /** A packet that has been cut off is handled. */
    method HandlePacket(packet: string, now: int, soFar: seq<Report>, ghost packets: seq<string>)
        returns (reports: seq<Report>)
      requires Valid() && NoneEmpty(packets) && packets != [] && packet == packets[0]
      modifies this`popped, this`line, this`writeEv, this`layers, output, output.nodes
      ensures Valid() && OwnNodes() && NoneEmpty(packets[1..])
      ensures Ahead(reports, packets[1..], now) == old(Ahead(soFar, packets, now))
    {
      UpdateFirst(device, Whole(), packets, now, outThrottle, soFar);
      FrontIsOldest();
      var inptr := output.InPtr();
      var rs := UpdateStatus(packet, inptr, now);
      reports := soFar + rs;
    }

    /** The first packet, ending at `i`, is cut off and handled. */
    method TakePacket(i: nat, now: int, soFar: seq<Report>, ghost packets: seq<string>, ghost rest: string)
        returns (reports: seq<Report>)
      requires Valid() && 0 < i == FirstStop(input, PacketCut(device)) < |input|
      requires NoneEmpty(packets) && Yields(input, PacketCut(device), packets, rest)
      modifies this`popped, this`line, this`writeEv, this`layers, this`input, output, output.nodes
      ensures Valid() && OwnNodes() && |input| < old(|input|)
      ensures packets != [] && NoneEmpty(packets[1..]) && Yields(input, PacketCut(device), packets[1..], rest)
      ensures Ahead(reports, packets[1..], now) == old(Ahead(soFar, packets, now))
    {
      YieldsFirst(input, PacketCut(device), packets, rest);
      var packet := input[..i];
      input := input[i + 1..];
      reports := HandlePacket(packet, now, soFar, packets);
    }

    /** A separator with nothing before it is dropped. */
    method SkipSeparator(ghost packets: seq<string>, ghost rest: string)
      requires input != [] && FirstStop(input, PacketCut(device)) == 0
      requires Yields(input, PacketCut(device), packets, rest)
      modifies this`input
      ensures input == old(input)[1..] && Yields(input, PacketCut(device), packets, rest)
    {
      YieldsLater(input, PacketCut(device), packets, rest);
      input := input[1..];
    }

    /** The first field, ending at `i`, is cut off and, unless it is empty, handled. */
    method TakeField(i: nat, now: int, soFar: seq<Report>, ghost packets: seq<string>, ghost rest: string)
        returns (reports: seq<Report>, ghost later: seq<string>)
      requires Valid() && i == FirstStop(input, PacketCut(device)) < |input|
      requires NoneEmpty(packets) && Yields(input, PacketCut(device), packets, rest)
      modifies this`popped, this`line, this`writeEv, this`layers, this`input, output, output.nodes
      ensures Valid() && OwnNodes() && |input| < old(|input|)
      ensures NoneEmpty(later) && Yields(input, PacketCut(device), later, rest)
      ensures Ahead(reports, later, now) == old(Ahead(soFar, packets, now))
    {
      if i > 0 {
        reports := TakePacket(i, now, soFar, packets, rest);
        later := packets[1..];
      } else {
        SkipSeparator(packets, rest);
        reports, later := soFar, packets;
      }
    }

    /** Every complete packet of the input is cut off and handled. */
    method Drain(now: int, ghost packets: seq<string>, ghost rest: string) returns (reports: seq<Report>)
      requires Valid() && NoneEmpty(packets) && Yields(input, PacketCut(device), packets, rest)
      modifies this`popped, this`line, this`writeEv, this`layers, this`input, output, output.nodes
      ensures Valid() && OwnNodes() && input == rest
      ensures Outcome(Whole(), reports) == old(Ahead([], packets, now))
    {
      reports := [];
      ghost var todo := packets;
      while input != []
        invariant Valid() && OwnNodes() && NoneEmpty(todo) && Yields(input, PacketCut(device), todo, rest)
        invariant Ahead(reports, todo, now) == old(Ahead([], packets, now))
        decreases |input|
      {
        var i := ScanSeparator();
        if i == |input| {
          break;
        }
        reports, todo := TakeField(i, now, reports, todo, rest);
      }
      YieldsNone(input, PacketCut(device), todo, rest);
      Associate(reports, [], []);
    }

    /** A read of the line: the chunk joins what was left, and every complete packet is handled. */
    method ReadCb(chunk: string, now: int) returns (reports: seq<Report>)
      requires Valid()
      modifies this`popped, this`line, this`writeEv, this`layers, this`input, output, output.nodes
      ensures Valid() && OwnNodes()
      ensures var f := Pending(device, old(input) + chunk);
              && input == f.rest
              && Outcome(Whole(), reports) == UpdateAll(device, old(Whole()), f.packets, now, outThrottle)
    {
      ghost var f := Pending(device, input + chunk);
      input := input + chunk;
      YieldsFrame(input, PacketCut(device));
      Associate([], UpdateAll(device, Whole(), f.packets, now, outThrottle).reports, []);
      reports := Drain(now, f.packets, f.rest);
    }

    /** The position of the first separator or NUL in the input. */
    method ScanSeparator() returns (i: nat)
      ensures i == FirstStop(input, PacketCut(device))
    {
      i := 0;
      while i < |input|
        invariant i <= |input|
        invariant forall k | 0 <= k < i :: input[k] !in PacketCut(device).stops
      {
        SeparatorsStop(device, input[i]);
        if input[i] in Separators(device) || input[i] == '\0' {
          break;
        }
        i := i + 1;
      }
      FirstStopUnique(input, i, PacketCut(device));
    }
  }
}
