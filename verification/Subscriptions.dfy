/** What holds of subscriptions in every run of the daemon. */
module Subscriptions {
  import opened Sequences
  import opened Codec
  import opened Registry
  import opened Framing

  // ------------------------------------------------------------ what leaves the chain

  lemma DistinctCons(n: Info, rest: seq<Info>)
    ensures Distinct([n] + rest) <==> Distinct(rest) && forall m | m in rest :: m.addr != n.addr
  {
    var all := [n] + rest;
    assert forall i | 0 <= i < |rest| :: all[i + 1] == rest[i];
    if Distinct(all) {
      assert forall i | 0 <= i < |rest| :: rest[i].addr != all[0].addr;
    }
  }

  lemma InCons(n: Info, rest: seq<Info>)
    ensures forall m :: m in [n] + rest <==> m == n || m in rest
  {}

  /** The chain `[n] + tail` of which `rest` is left behind `n`, and `n` itself if `keep`. */
  lemma KeepOne(n: Info, keep: bool, tail: seq<Info>, rest: seq<Info>)
    requires forall m | m in rest :: m in tail
    ensures var kept := (if keep then [n] else []) + rest;
            && (forall m :: m in kept <==> (keep && m == n) || m in rest)
            && (Distinct([n] + tail) ==> Distinct(tail) && (Distinct(rest) ==> Distinct(kept)))
  {
    DistinctCons(n, tail);
    if keep {
      InCons(n, rest);
      DistinctCons(n, rest);
    } else {
      Associate(rest, [], []);
    }
  }

  lemma {:induction false} UnlinkHas(chain: seq<Info>, addr: nat)
    ensures forall n :: n in Unlink(chain, addr) <==> n in chain && n.addr != addr
    ensures Distinct(chain) ==> Distinct(Unlink(chain, addr))
  {
    if chain != [] {
      UnlinkHas(chain[1..], addr);
      var n, rest := chain[0], Unlink(chain[1..], addr);
      KeepOne(n, n.addr != addr, chain[1..], rest);
      assert chain == [n] + chain[1..];
      InCons(n, chain[1..]);
    }
  }

  lemma {:induction false} DeliveredHas(chain: seq<Info>, code: string)
    ensures forall n :: n in Delivered(chain, code) <==> n in chain && !(n.code == code && n.once)
    ensures Distinct(chain) ==> Distinct(Delivered(chain, code))
  {
    if chain != [] {
      DeliveredHas(chain[1..], code);
      var n, rest := chain[0], Delivered(chain[1..], code);
      KeepOne(n, !(n.code == code && n.once), chain[1..], rest);
      assert chain == [n] + chain[1..];
      InCons(n, chain[1..]);
    }
  }

  lemma {:induction false} WithoutConnHas(chain: seq<Info>, fd: int)
    ensures forall n :: n in WithoutConn(chain, fd) <==> n in chain && n.fd != fd
    ensures Distinct(chain) ==> Distinct(WithoutConn(chain, fd))
  {
    if chain != [] {
      WithoutConnHas(chain[1..], fd);
      var n, rest := chain[0], WithoutConn(chain[1..], fd);
      KeepOne(n, n.fd != fd, chain[1..], rest);
      assert chain == [n] + chain[1..];
      InCons(n, chain[1..]);
    }
  }

  // ------------------------------------------------------------ entries and tokens in every run

  lemma WriteKeeps(s: State, fd: int, text: string)
    requires Inv(s) && fd in s.conns
    ensures Inv(Write(s, fd, text))
  {}

  lemma LinkKeeps(s: State, fd: int, code: string, once: bool)
    requires Inv(s) && fd in s.conns && code !in s.conns[fd].codes
    ensures Inv(StartNotify(s, fd, code, once, true))
  {
    var n := Info(s.next, fd, code, once);
    var s' := StartNotify(s, fd, code, once, true);
    assert s'.chain == [n] + s.chain;
    DistinctCons(n, s.chain);
    assert forall m :: m in s'.chain <==> m == n || m in s.chain;
  }

  lemma StopKeeps(s: State, fd: int, code: string)
    requires Inv(s) && fd in s.conns
    ensures Inv(StopNotify(s, fd, code))
  {
    if code in s.conns[fd].codes {
      var dead := s.conns[fd].codes[code];
      UnlinkHas(s.chain, dead.addr);
      var s' := StopNotify(s, fd, code);
      forall n | n in s'.chain
        ensures n.code in s'.conns[n.fd].codes && s'.conns[n.fd].codes[n.code] == n
      {
        SameAddress(s.chain, n, dead);
      }
      forall fd2, code2 | fd2 in s'.conns && code2 in s'.conns[fd2].codes
        ensures s'.conns[fd2].codes[code2] in s'.chain
      {
        SameAddress(s.chain, s.conns[fd2].codes[code2], dead);
      }
    }
  }

  lemma SameAddress(chain: seq<Info>, n: Info, m: Info)
    requires Distinct(chain) && n in chain && m in chain
    ensures n.addr == m.addr <==> n == m
  {}

  lemma UnlinkBehind(n: Info, chain: seq<Info>, addr: nat)
    requires n.addr != addr
    ensures Unlink([n] + chain, addr) == [n] + Unlink(chain, addr)
  {
    assert ([n] + chain)[1..] == chain;
  }

  lemma PutTwice<K, V>(m: map<K, V>, k: K, v: V, w: V)
    ensures m[k := v][k := w] == m[k := w]
    ensures (m - {k})[k := w] == m[k := w]
  {}

  /** Replacing a subscription comes to stopping and starting it, though the new entry is linked in first. */
  lemma ReplaceIsStopStart(s: State, fd: int, code: string, once: bool)
    requires Inv(s) && fd in s.conns
    ensures StartNotify(s, fd, code, once, true) == StartNotify(StopNotify(s, fd, code), fd, code, once, true)
  {
    var c := s.conns[fd];
    if code in c.codes {
      var n := Info(s.next, fd, code, once);
      UnlinkBehind(n, s.chain, c.codes[code].addr);
      PutTwice(c.codes, code, n, n);
      PutTwice(s.conns, fd, c.(codes := c.codes - {code}), c.(codes := c.codes[code := n]));
    }
  }

  lemma StartKeeps(s: State, fd: int, code: string, once: bool, replace: bool)
    requires Inv(s) && fd in s.conns
    ensures Inv(StartNotify(s, fd, code, once, replace))
  {
    if code !in s.conns[fd].codes || replace {
      StopKeeps(s, fd, code);
      ReplaceIsStopStart(s, fd, code, once);
      LinkKeeps(StopNotify(s, fd, code), fd, code, once);
    }
  }

  lemma HangupKeeps(s: State, fd: int)
    requires Inv(s)
    ensures Inv(Hangup(s, fd))
    ensures forall n | n in Hangup(s, fd).chain :: n.fd != fd
  {
    WithoutConnHas(s.chain, fd);
  }

  lemma AcceptKeeps(s: State, fd: int, side: nat)
    requires Inv(s) && fd !in s.conns && side < |s.sides|
    ensures Inv(Accept(s, fd, side))
  {}

  lemma NotifyKeeps(s: State, code: string, val: string)
    requires Inv(s)
    ensures Inv(Notify(s, code, val))
  {
    DeliveredHas(s.chain, code);
  }

  lemma ObeyKeeps(s: State, fd: int, verb: Verb, arg: string)
    requires Inv(s) && fd in s.conns
    ensures Inv(Obey(s, fd, verb, arg))
  {
    match verb
    case Query => StartKeeps(s, fd, arg, true, false);
    case Start => StartKeeps(s, fd, arg, false, true);
    case Stop => StopKeeps(s, fd, arg);
    case _ =>
  }

  lemma HandleKeeps(s: State, fd: int, line: string)
    requires Inv(s) && fd in s.conns
    ensures Inv(Handle(s, fd, line))
  {
    WriteKeeps(s, fd, "EDIS\n");
    if |line| >= 4 {
      ObeyKeeps(s, fd, Lookup(line[..4]), line[4..]);
    }
  }

  lemma {:induction false} HandleAllKeeps(s: State, fd: int, lines: seq<string>)
    requires Inv(s) && fd in s.conns
    ensures Inv(HandleAll(s, fd, lines))
    decreases |lines|
  {
    if lines != [] {
      HandleKeeps(s, fd, CString(lines[0]));
      HandleAllKeeps(Handle(s, fd, CString(lines[0])), fd, lines[1..]);
    }
  }

  lemma ReadKeeps(s: State, fd: int, chunk: string)
    requires Inv(s) && fd in s.conns
    ensures Inv(Read(s, fd, chunk))
  {
    var f := Frame(s.conns[fd].input + chunk, LINE_CUT);
    assert Inv(SetInput(s, fd, f.rest));
    HandleAllKeeps(SetInput(s, fd, f.rest), fd, f.packets);
  }

  lemma EofKeeps(s: State, fd: int)
    requires Inv(s) && fd in s.conns
    ensures Inv(Eof(s, fd))
  {
    ReadKeeps(s, fd, []);
    var s1 := Read(s, fd, []);
    HandleKeeps(s1, fd, s1.conns[fd].input);
    HangupKeeps(s1, fd);
    HangupKeeps(Handle(s1, fd, s1.conns[fd].input), fd);
  }

  /** What can happen to the daemon. */
  datatype Event =
    | Opened(fd: int, side: nat)
    | Received(fd: int, chunk: string)
    | Ended(fd: int)
    | Reported(code: string, val: string)

  predicate Possible(s: State, e: Event) {
    match e
    case Opened(fd, side) => fd !in s.conns && side < |s.sides|
    case Received(fd, _) => fd in s.conns
    case Ended(fd) => fd in s.conns
    case Reported(_, _) => true
  }

  function Happen(s: State, e: Event): State
    requires Possible(s, e)
  {
    match e
    case Opened(fd, side) => Accept(s, fd, side)
    case Received(fd, chunk) => Read(s, fd, chunk)
    case Ended(fd) => Eof(s, fd)
    case Reported(code, val) => Notify(s, code, val)
  }

  ghost predicate Run(s: State, es: seq<Event>, t: State)
    decreases |es|
  {
    if es == [] then s == t else Possible(s, es[0]) && Run(Happen(s, es[0]), es[1..], t)
  }

  /** In every state of every run, entries and tokens of live connections correspond one to one. */
  lemma {:induction false} EveryRun(s: State, es: seq<Event>, t: State)
    requires Inv(s) && Run(s, es, t)
    ensures Inv(t)
    decreases |es|
  {
    if es != [] {
      match es[0] {
        case Opened(fd, side) => AcceptKeeps(s, fd, side);
        case Received(fd, chunk) => ReadKeeps(s, fd, chunk);
        case Ended(fd) => EofKeeps(s, fd);
        case Reported(code, val) => NotifyKeeps(s, code, val);
      }
      EveryRun(Happen(s, es[0]), es[1..], t);
    }
  }

  /** A connection is subscribed to a code exactly when the chain has an entry for both, and then it has one. */
  lemma OneEntryEach(s: State, fd: int, code: string)
    requires Inv(s) && fd in s.conns
    ensures code in s.conns[fd].codes <==>
              exists i :: 0 <= i < |s.chain| && s.chain[i].fd == fd && s.chain[i].code == code
    ensures forall i, j | 0 <= i < j < |s.chain| ::
              s.chain[i].fd != s.chain[j].fd || s.chain[i].code != s.chain[j].code
  {
    if code in s.conns[fd].codes {
      assert s.conns[fd].codes[code] in s.chain;
    }
    forall i, j | 0 <= i < j < |s.chain|
      ensures s.chain[i].fd != s.chain[j].fd || s.chain[i].code != s.chain[j].code
    {
      assert s.chain[i] in s.chain && s.chain[j] in s.chain;
    }
  }

  // ------------------------------------------------------------ the three states of a subscription

  datatype Mode = Off | OneShot | Lasting

  function ModeOf(s: State, fd: int, code: string): Mode
    requires fd in s.conns
  {
    if code !in s.conns[fd].codes then Off else if s.conns[fd].codes[code].once then OneShot else Lasting
  }

  datatype Signal = Asks | Starts | Stops | Delivers | Nothing

  /** A query subscribes who is not subscribed; a start makes any subscription lasting; a delivery ends one-shots. */
  function Turn(m: Mode, g: Signal): Mode {
    match g
    case Asks => if m.Off? then OneShot else m
    case Starts => Lasting
    case Stops => Off
    case Delivers => if m.OneShot? then Off else m
    case Nothing => m
  }

  lemma SubscriptionVerbs()
    ensures Lookup("STRT") == Start && Lookup("STOP") == Stop
  {
    assert "STRT"[0] != "QCMD"[0] && "STRT"[1] != "SEND"[1] && "STRT"[0] != "QSTS"[0] && "STRT"[0] != "QURY"[0];
    assert "STOP"[1] != "SEND"[1] && "STOP"[2] != "STRT"[2];
  }

  function VerbSignal(verb: Verb, arg: string, code: string): Signal {
    if |arg| != 4 || arg != code then Nothing
    else match verb
      case Query => Asks
      case Start => Starts
      case Stop => Stops
      case _ => Nothing
  }

  /** What a line means for `code` on an enabled server. */
  function SignalOf(line: string, code: string): Signal {
    if |line| < 4 then Nothing else VerbSignal(Lookup(line[..4]), line[4..], code)
  }

  function SignalFor(s: State, from: int, line: string, fd: int, code: string): Signal
    requires from in s.conns
  {
    if from != fd || Disabled(s, from) then Nothing else SignalOf(line, code)
  }

  lemma ObeyTurns(s: State, from: int, verb: Verb, arg: string, fd: int, code: string)
    requires from in s.conns && fd in s.conns
    ensures ModeOf(Obey(s, from, verb, arg), fd, code) ==
            Turn(ModeOf(s, fd, code), if from == fd then VerbSignal(verb, arg, code) else Nothing)
  {
    match verb
    case Query =>
    case Start =>
    case Stop =>
    case _ => assert VerbSignal(verb, arg, code) == Nothing;
  }

  /** A line moves exactly the subscriptions of its own connection, to its own code, as the machine says. */
  lemma LineTurns(s: State, from: int, line: string, fd: int, code: string)
    requires from in s.conns && fd in s.conns
    ensures ModeOf(Handle(s, from, line), fd, code) == Turn(ModeOf(s, fd, code), SignalFor(s, from, line, fd, code))
  {
    if |line| >= 4 {
      ObeyTurns(s, from, Lookup(line[..4]), line[4..], fd, code);
      assert line[..4] == "SENA" ==> Lookup(line[..4]) == Enable;
    }
  }

  /** A registration, and nothing else, asks the device for the value once more. */
  lemma LineRequests(s: State, from: int, line: string)
    requires from in s.conns
    ensures var code := if |line| < 4 then [] else line[4..];
            var g := SignalFor(s, from, line, from, code);
            Handle(s, from, line).requests ==
            if g.Starts? || (g.Asks? && ModeOf(s, from, code).Off?) then s.requests + [code] else s.requests
  {
    if |line| >= 4 {
      ObeyRequests(s, from, Lookup(line[..4]), line[4..]);
      assert line[..4] == "SENA" ==> Lookup(line[..4]) == Enable;
    }
  }

  lemma ObeyRequests(s: State, from: int, verb: Verb, arg: string)
    requires from in s.conns
    ensures var g := VerbSignal(verb, arg, arg);
            Obey(s, from, verb, arg).requests ==
            if g.Starts? || (g.Asks? && ModeOf(s, from, arg).Off?) then s.requests + [arg] else s.requests
  {}

  /** A report moves the subscriptions to its own code, of every connection. */
  lemma ReportTurns(s: State, code: string, val: string, fd: int, other: string)
    requires fd in s.conns
    ensures ModeOf(Notify(s, code, val), fd, other) ==
            Turn(ModeOf(s, fd, other), if other == code then Delivers else Nothing)
  {
  }

  /**
   * A report writes exactly one line to every subscribed connection and nothing to any other;
   * of the chain, exactly the one-shot entries for the code go.
   */
  lemma ReportReaches(s: State, code: string, val: string, fd: int)
    requires Inv(s) && fd in s.conns
    ensures var t := Notify(s, code, val);
            && t.conns.Keys == s.conns.Keys
            && t.conns[fd].out == s.conns[fd].out + (if code in s.conns[fd].codes then StatLine(code, val) else [])
            && t.conns[fd].codes.Keys == s.conns[fd].codes.Keys - (if ModeOf(s, fd, code).OneShot? then {code} else {})
    ensures forall n :: n in Notify(s, code, val).chain <==> n in s.chain && !(n.code == code && n.once)
  {
    DeliveredHas(s.chain, code);
    assert s.conns[fd].out + [] == s.conns[fd].out;
  }

  /**
   * A number reported: every subscribed connection is written one line with four characters that
   * decode to its sign and 23 low bits, so to the number itself exactly if it is a 24-bit value;
   * no other is written anything, and exactly the one-shots for the code go.
   */
  lemma NumberReaches(s: State, code: string, val: int) returns (v: string)
    requires Inv(s)
    ensures |v| == 4 && Decode(v) == Fold23(val) && (Decode(v) == val <==> IsInt24(val))
    ensures var t := NotifyInt(s, code, val);
            && t.conns.Keys == s.conns.Keys
            && (forall fd | fd in s.conns ::
                  t.conns[fd].out ==
                  s.conns[fd].out + if code in s.conns[fd].codes then "STAT" + code + v + "\n" else [])
            && (forall fd | fd in s.conns :: forall c :: c in t.conns[fd].codes <==>
                  c in s.conns[fd].codes && !(c == code && s.conns[fd].codes[c].once))
            && (forall n :: n in t.chain <==> n in s.chain && !(n.code == code && n.once))
  {
    v := Encode(val);
    DecodeEncode(val);
    forall fd | fd in s.conns
      ensures NotifyInt(s, code, val).conns[fd].out ==
              s.conns[fd].out + if code in s.conns[fd].codes then "STAT" + code + v + "\n" else []
    {
      ReportReaches(s, code, v, fd);
    }
    DeliveredHas(s.chain, code);
  }

  /** Lines of any connections and reports, in any order. */
  datatype Happening = Line(from: int, line: string) | Report(code: string, val: string)

  ghost predicate Live(s: State, hs: seq<Happening>) {
    forall i | 0 <= i < |hs| :: hs[i].Line? ==> hs[i].from in s.conns
  }

  function One(s: State, h: Happening): (s': State)
    requires h.Line? ==> h.from in s.conns
    ensures s'.conns.Keys == s.conns.Keys
  {
    if h.Line? then Handle(s, h.from, h.line) else Notify(s, h.code, h.val)
  }

  ghost function Many(s: State, hs: seq<Happening>): (s': State)
    requires Live(s, hs)
    ensures s'.conns.Keys == s.conns.Keys
    decreases |hs|
  {
    if hs == [] then s else Many(One(s, hs[0]), hs[1..])
  }

  /** The three-state machine of one connection and code, over the same happenings. */
  ghost function Turns(m: Mode, s: State, hs: seq<Happening>, fd: int, code: string): Mode
    requires Live(s, hs)
    decreases |hs|
  {
    if hs == [] then m
    else
      var g := if hs[0].Line? then SignalFor(s, hs[0].from, hs[0].line, fd, code)
               else if hs[0].code == code then Delivers else Nothing;
      Turns(Turn(m, g), One(s, hs[0]), hs[1..], fd, code)
  }

  /** Whatever is interleaved, each connection's subscription to each code is the three-state machine. */
  lemma {:induction false} ManyTurns(s: State, hs: seq<Happening>, fd: int, code: string)
    requires Live(s, hs) && fd in s.conns
    ensures ModeOf(Many(s, hs), fd, code) == Turns(ModeOf(s, fd, code), s, hs, fd, code)
    decreases |hs|
  {
    if hs != [] {
      if hs[0].Line? {
        LineTurns(s, hs[0].from, hs[0].line, fd, code);
      } else {
        ReportTurns(s, hs[0].code, hs[0].val, fd, code);
      }
      ManyTurns(One(s, hs[0]), hs[1..], fd, code);
    }
  }
}
