/** The daemon's connections and notification chain in place (api_serverside.cc, status.cc). */
module Daemons {
  import opened Sequences
  import opened Codec
  import opened Framing
  import opened Registry
  import opened Subscriptions
  import opened Notifying

  class ApiConn {
    const fd: int
    const side: nat
    var codes: map<string, Info>
    var out: string
    var input: string

    constructor (fd: int, side: nat)
      ensures this.fd == fd && this.side == side && codes == map[] && out == [] && input == []
    {
      this.fd, this.side, codes, out, input := fd, side, map[], [], [];
    }
  }

  class Daemon {
    const tables: Tables
    var chain: seq<Info>
    /** Stands for the allocator: the address of the next chain entry. */
    var next: nat
    var conns: map<int, ApiConn>
    var sides: seq<Side>
    /** Codes the device was asked for, and commands it was passed. */
    var requests: seq<string>
    var commands: seq<Sent>

    /** All of the above as a value. */
    ghost var state: State

    ghost predicate Reflects()
      reads this, conns.Values
    {
      && state.tables == tables && state.chain == chain && state.next == next && state.sides == sides
      && state.requests == requests && state.commands == commands
      && state.conns.Keys == conns.Keys
      && forall fd | fd in conns ::
           conns[fd].fd == fd &&
           state.conns[fd] == Conn(conns[fd].codes, conns[fd].out, conns[fd].input, conns[fd].side)
    }

    ghost predicate Valid()
      reads this, conns.Values
    {
      Reflects() && Inv(state)
    }

    ghost predicate Has(c: ApiConn)
      reads this
    {
      c.fd in conns && conns[c.fd] == c
    }

    constructor (tables: Tables, sides: seq<Side>)
      ensures Valid() && conns == map[] && state == State([], 0, map[], sides, [], [], tables)
    {
      this.tables, chain, next, conns, this.sides := tables, [], 0, map[], sides;
      requests, commands := [], [];
      state := State([], 0, map[], sides, [], [], tables);
    }

    // ------------------------------------------------------------ status.cc

    /** A new chain entry; the token that goes with it is the entry itself. */
    method StatusStartNotify(fd: int, code: string, once: bool) returns (token: Info)
      modifies this`chain, this`next
      ensures token == Info(old(next), fd, code, once)
      ensures chain == [token] + old(chain) && next == old(next) + 1
    {
      token := Info(next, fd, code, once);
      chain, next := [token] + chain, next + 1;
    }

    /** The death of a token. */
    method StatusStopNotify(token: Info)
      modifies this`chain
      ensures chain == Unlink(old(chain), token.addr)
    {
      var i, kept := 0, [];
      assert chain[0..] == chain;
      while i < |chain|
        invariant i <= |chain| && chain == old(chain)
        invariant UnlinkEnd(kept, chain[i..], token.addr) == Unlink(chain, token.addr)
      {
        UnlinkStep(kept, chain, i, token.addr);
        if chain[i].addr != token.addr {
          kept := kept + [chain[i]];
        }
        i := i + 1;
      }
      Associate(kept, [], []);
      chain := kept;
    }

    // ------------------------------------------------------------ api_ss_conn

    method Put(c: ApiConn, text: string)
      requires Reflects() && Has(c)
      modifies this`state, c`out
      ensures Reflects() && state == Write(old(state), c.fd, text)
    {
      c.out := c.out + text;
      state := Write(state, c.fd, text);
    }

    method StartNotify(c: ApiConn, code: string, once: bool, replace: bool)
      requires Reflects() && Has(c)
      modifies this`chain, this`next, this`requests, this`state, c`codes
      ensures Reflects() && state == Registry.StartNotify(old(state), c.fd, code, once, replace)
    {
      if code in c.codes && !replace {
        return;
      }
      var token := StatusStartNotify(c.fd, code, once);
      if code in c.codes {
        var dead := c.codes[code];
        c.codes := c.codes[code := token];
        StatusStopNotify(dead);
      } else {
        c.codes := c.codes[code := token];
      }
      requests := requests + [code];
      state := Registry.StartNotify(state, c.fd, code, once, replace);
    }

    method StopNotify(c: ApiConn, code: string)
      requires Reflects() && Has(c)
      modifies this`chain, this`state, c`codes
      ensures Reflects() && state == Registry.StopNotify(old(state), c.fd, code)
    {
      if code in c.codes {
        var dead := c.codes[code];
        c.codes := c.codes - {code};
        StatusStopNotify(dead);
      }
      state := Registry.StopNotify(state, c.fd, code);
    }

    method QueryNotifyCb(c: ApiConn, code: string, val: string)
      requires Reflects() && Has(c)
      modifies this`chain, this`state, c`out, c`codes
      ensures Reflects()
      ensures state == Registry.StopNotify(Write(old(state), c.fd, StatLine(code, val)), c.fd, code)
    {
      Put(c, StatLine(code, val));
      StopNotify(c, code);
    }

    method NotifyCb(c: ApiConn, code: string, val: string)
      requires Reflects() && Has(c)
      modifies this`state, c`out
      ensures Reflects() && state == Write(old(state), c.fd, StatLine(code, val))
    {
      Put(c, StatLine(code, val));
    }

    // ------------------------------------------------------------ reporting

    method CallBack(n: Info, val: string)
      requires Reflects() && n.fd in conns
      modifies this`chain, this`state, conns.Values`out, conns.Values`codes
      ensures Reflects() && state == Callback(old(state), n, val)
    {
      var c := conns[n.fd];
      if n.once {
        QueryNotifyCb(c, n.code, val);
      } else {
        NotifyCb(c, n.code, val);
      }
    }

    /** One turn of the walk: the entry at `i` is called back if it matches; hands back where its successor is then. */
    method Visit(i: nat, code: string, val: string) returns (next: nat)
      requires Valid() && i < |chain| && forall n | n in chain[i..] :: n.fd in state.conns
      modifies this`chain, this`state, conns.Values`out, conns.Values`codes
      ensures Valid() && next <= |chain| && |chain| - next == |old(chain)| - i - 1
      ensures forall n | n in chain[next..] :: n.fd in state.conns
      ensures Walk(state, chain[next..], code, val) == Walk(old(state), old(chain)[i..], code, val)
    {
      var n, successors := chain[i], |chain| - i - 1;
      ghost var pre, post := chain[..i], chain[i + 1..];
      assert chain[i..] == [n] + post;
      NextEntry(state, pre, n, post, code, val);
      if n.code == code {
        CallBack(n, val);
      }
      next := |chain| - successors;
      assert chain[next..] == post;
    }

    /** A value is reported: every matching entry is called back, the successor of each having been taken before. */
    method Notify(code: string, val: string)
      requires Valid()
      modifies this`chain, this`state, conns.Values`out, conns.Values`codes
      ensures Valid() && state == Registry.Notify(old(state), code, val)
    {
      WalkIsNotify(state, code, val);
      var i := 0;
      assert chain[0..] == chain;
      while i < |chain|
        invariant Valid() && 0 <= i <= |chain|
        invariant forall n | n in chain[i..] :: n.fd in state.conns
        invariant Walk(state, chain[i..], code, val) == Registry.Notify(old(state), code, val)
        decreases |chain| - i
      {
        i := Visit(i, code, val);
      }
    }

    method NotifyInt(code: string, val: Int32)
      requires Valid()
      modifies this`chain, this`state, conns.Values`out, conns.Values`codes
      ensures Valid() && state == Registry.NotifyInt(old(state), code, val)
    {
      var v := new char[4];
      Base64Int24(v, val);
      Notify(code, v[..]);
    }

    // ------------------------------------------------------------ requests

    /** The reply to a capability query: the known ones of the codes asked for, in the order asked. */
    method Answer(c: ApiConn, verb: string, arg: string, codes: set<string>)
      requires Reflects() && Has(c)
      modifies this`state, c`out
      ensures Reflects() && state == Write(old(state), c.fd, verb + Known(Pieces(arg), codes) + "\n")
    {
      Put(c, verb);
      var i := 0;
      ghost var written := verb;
      while i < |arg|
        invariant Reflects() && Has(c)
        invariant state == Write(old(state), c.fd, written)
        invariant written + Known(Pieces(if i < |arg| then arg[i..] else []), codes) == verb + Known(Pieces(arg), codes)
        decreases |arg| - i
      {
        var cmd := if i + 4 <= |arg| then arg[i..i + 4] else arg[i..];
        KnownStep(arg, i, codes, written);
        if cmd in codes {
          Put(c, cmd);
          WriteTwice(old(state), c.fd, written, cmd);
          written := written + cmd;
        }
        i := i + 4;
      }
      assert Known(Pieces([]), codes) == [];
      assert written == verb + Known(Pieces(arg), codes);
      Put(c, "\n");
      WriteTwice(old(state), c.fd, written, "\n");
    }

    method PassCommand(arg: string)
      requires Reflects()
      modifies this`commands, this`state
      ensures Reflects() && state == SendCommand(old(state), arg)
    {
      if |arg| < 4 {
        return;
      }
      var args, i := [], 4;
      assert Pieces([]) == [];
      while i < |arg|
        invariant 4 <= i && Reflects() && state == old(state)
        invariant args + DecodeAll(Pieces(if i < |arg| then arg[i..] else [])) == DecodeAll(Pieces(arg[4..]))
        decreases |arg| - i
      {
        DecodeStep(arg, i, args);
        var a := Debase64Int24(if i + 4 <= |arg| then arg[i..i + 4] else arg[i..]);
        args := args + [a];
        i := i + 4;
      }
      assert args == DecodeAll(Pieces(arg[4..]));
      commands := commands + [Sent(arg[..4], args)];
      state := SendCommand(state, arg);
    }

    method Switch(name: string, disabled: bool)
      requires Reflects()
      modifies this`sides, this`state
      ensures Reflects() && state == old(state).(sides := SwitchAll(old(state).sides, name, disabled))
    {
      var i := 0;
      while i < |sides|
        invariant i <= |sides| == |old(sides)| && state == old(state)
        invariant forall j | 0 <= j < |sides| :: sides[j] ==
                    if j < i then SwitchAll(old(sides), name, disabled)[j] else old(sides)[j]
        decreases |sides| - i
      {
        if sides[i].name == name {
          sides := sides[i := Side(name, disabled)];
        }
        i := i + 1;
      }
      assert sides == SwitchAll(old(sides), name, disabled);
      state := state.(sides := sides);
    }

    /** One line from a client. */
    method Handle(c: ApiConn, line: string)
      requires Valid() && Has(c)
      modifies this`chain, this`next, this`sides, this`requests, this`commands, this`state, c`codes, c`out
      ensures Valid() && state == Registry.Handle(old(state), c.fd, line)
    {
      HandleKeeps(state, c.fd, line);
      if sides[c.side].disabled && Head(line) != "SENA" {
        Put(c, "EDIS\n");
        return;
      }
      if |line| < 4 {
        return;
      }
      Obey(c, Lookup(line[..4]), line[4..]);
    }

    method Obey(c: ApiConn, verb: Verb, arg: string)
      requires Reflects() && Has(c)
      modifies this`chain, this`next, this`sides, this`requests, this`commands, this`state, c`codes, c`out
      ensures Reflects() && state == Registry.Obey(old(state), c.fd, verb, arg)
    {
      match verb
      case QueryCommands => Answer(c, "QCMD", arg, tables.commands);
      case QueryStatus => Answer(c, "QSTS", arg, tables.statuses);
      case Send => PassCommand(arg);
      case Query => if |arg| == 4 { StartNotify(c, arg, true, false); }
      case Start => if |arg| == 4 { StartNotify(c, arg, false, true); }
      case Stop => if |arg| == 4 { StopNotify(c, arg); }
      case Enable => Switch(arg, false);
      case Disable => Switch(arg, true);
      case Unknown => Put(c, "ECMD\n");
    }

    // ------------------------------------------------------------ a client's bytes

    method Accept(fd: int, side: nat)
      requires Valid() && fd !in conns && side < |sides|
      modifies this`conns, this`state
      ensures Valid() && state == Registry.Accept(old(state), fd, side)
      ensures conns.Keys == old(conns.Keys) + {fd} && fresh(conns[fd])
    {
      AcceptKeeps(state, fd, side);
      var c := new ApiConn(fd, side);
      conns := conns[fd := c];
      state := Registry.Accept(state, fd, side);
    }

    /** One turn of the reading loop: the first complete line is cut off and handled. */
    method TakeLine(c: ApiConn, i: nat, ghost lines: seq<string>, ghost rest: string)
      requires Valid() && Has(c) && i == FirstStop(c.input, LINE_CUT) < |c.input|
      requires Yields(c.input, LINE_CUT, lines, rest)
      modifies this`chain, this`next, this`sides, this`requests, this`commands, this`state, c`codes, c`out, c`input
      ensures Valid() && |c.input| < old(|c.input|)
      ensures lines != [] && Yields(c.input, LINE_CUT, lines[1..], rest)
      ensures HandleAll(SetInput(old(state), c.fd, rest), c.fd, lines) ==
              HandleAll(SetInput(state, c.fd, rest), c.fd, lines[1..])
    {
      var line, tail := c.input[..i], c.input[i + 1..];
      YieldsFirst(c.input, LINE_CUT, lines, rest);
      LineStep(state, c.fd, lines, rest, tail);
      HandleCut(c, line, tail);
    }

    method HandleCut(c: ApiConn, line: string, tail: string)
      requires Valid() && Has(c)
      modifies this`chain, this`next, this`sides, this`requests, this`commands, this`state, c`codes, c`out, c`input
      ensures Valid() && c.input == tail
      ensures state == Registry.Handle(SetInput(old(state), c.fd, tail), c.fd, CString(line))
    {
      CutOff(c, tail);
      Handle(c, CString(line));
    }

    /** What is left in a connection's input. */
    method CutOff(c: ApiConn, tail: string)
      requires Valid() && Has(c)
      modifies this`state, c`input
      ensures Valid() && c.input == tail && state == SetInput(old(state), c.fd, tail)
    {
      SetInputKeeps(state, c.fd, tail);
      c.input := tail;
      state := SetInput(state, c.fd, tail);
    }

    /** Every complete line of a connection's input is cut off and handled. */
    method Drain(c: ApiConn, ghost lines: seq<string>, ghost rest: string)
      requires Valid() && Has(c) && Yields(c.input, LINE_CUT, lines, rest)
      modifies this`chain, this`next, this`sides, this`requests, this`commands, this`state, c`codes, c`out, c`input
      ensures Valid() && c.input == rest
      ensures SetInput(state, c.fd, rest) == HandleAll(SetInput(old(state), c.fd, rest), c.fd, lines)
    {
      ghost var todo := lines;
      var i := FirstStop(c.input, LINE_CUT);
      while i < |c.input|
        invariant Valid() && Has(c) && i == FirstStop(c.input, LINE_CUT)
        invariant Yields(c.input, LINE_CUT, todo, rest)
        invariant HandleAll(SetInput(state, c.fd, rest), c.fd, todo) ==
                  HandleAll(SetInput(old(state), c.fd, rest), c.fd, lines)
        decreases |c.input|
      {
        TakeLine(c, i, todo, rest);
        todo := todo[1..];
        i := FirstStop(c.input, LINE_CUT);
      }
      YieldsNone(c.input, LINE_CUT, todo, rest);
    }

    /** A read from a client: every complete line is cut off and handled. */
    method ReadCb(c: ApiConn, chunk: string)
      requires Valid() && Has(c)
      modifies this`chain, this`next, this`sides, this`requests, this`commands, this`state, c`codes, c`out, c`input
      ensures Valid() && state == Read(old(state), c.fd, chunk)
    {
      ghost var f := Frame(c.input + chunk, LINE_CUT);
      YieldsFrame(c.input + chunk, LINE_CUT);
      SetInputTwice(state, c.fd, c.input + chunk, f.rest);
      CutOff(c, c.input + chunk);
      Drain(c, f.packets, f.rest);
      SetInputSame(state, c.fd);
    }

    /** Some token of a connection dies. */
    method DropToken(c: ApiConn)
      requires Valid() && Has(c) && c.codes != map[]
      modifies this`chain, this`state, c`codes
      ensures Valid() && c.codes.Keys < old(c.codes.Keys)
      ensures Hangup(state, c.fd) == Hangup(old(state), c.fd)
    {
      var code :| code in c.codes;
      StopKeeps(state, c.fd, code);
      StopThenHangup(state, c.fd, code);
      StopNotify(c, code);
      assert c.codes.Keys == old(c.codes.Keys) - {code};
    }

    /** All tokens of a connection die, in whatever order. */
    method DropTokens(c: ApiConn)
      requires Valid() && Has(c)
      modifies this`chain, this`state, c`codes
      ensures Valid() && c.codes == map[] && Hangup(state, c.fd) == Hangup(old(state), c.fd)
    {
      while c.codes != map[]
        invariant Valid() && Has(c)
        invariant Hangup(state, c.fd) == Hangup(old(state), c.fd)
        decreases c.codes.Keys
      {
        DropToken(c);
      }
    }

    /** A connection goes, and its tokens with it. */
    method CloseConn(c: ApiConn)
      requires Valid() && Has(c)
      modifies this`chain, this`conns, this`state, c`codes
      ensures Valid() && state == Hangup(old(state), c.fd) && conns == old(conns) - {c.fd}
    {
      DropTokens(c);
      Forget(c);
    }

    method Forget(c: ApiConn)
      requires Valid() && Has(c) && c.codes == map[]
      modifies this`conns, this`state
      ensures Valid() && state == Hangup(old(state), c.fd) && conns == old(conns) - {c.fd}
    {
      NothingToHangUp(state, c.fd);
      HangupKeeps(state, c.fd);
      conns := conns - {c.fd};
      state := Hangup(state, c.fd);
    }

    /** The client's end of file: what is left over is a line too. */
    method ErrorCb(c: ApiConn)
      requires Valid() && Has(c)
      modifies this, c
      ensures Valid() && state == Eof(old(state), c.fd) && conns == old(conns) - {c.fd}
    {
      ReadCb(c, []);
      if |c.input| > 0 {
        Handle(c, c.input);
      }
      CloseConn(c);
    }
  }

  // ------------------------------------------------------------ lemmas

  lemma WriteTwice(s: State, fd: int, a: string, b: string)
    requires fd in s.conns
    ensures Write(Write(s, fd, a), fd, b) == Write(s, fd, a + b)
  {
    assert s.conns[fd].out + a + b == s.conns[fd].out + (a + b);
    PutTwice(s.conns, fd, s.conns[fd].(out := s.conns[fd].out + a), s.conns[fd].(out := s.conns[fd].out + (a + b)));
  }

  function Piece(arg: string, i: nat): string
    requires i < |arg|
  {
    if i + 4 <= |arg| then arg[i..i + 4] else arg[i..]
  }

  lemma PiecesStep(arg: string, i: nat)
    requires i < |arg|
    ensures Pieces(arg[i..]) == [Piece(arg, i)] + Pieces(if i + 4 < |arg| then arg[i + 4..] else [])
  {
    var rest := arg[i..];
    if |rest| > 4 {
      assert rest[..4] == arg[i..i + 4] && rest[4..] == arg[i + 4..];
    } else {
      assert Piece(arg, i) == rest;
    }
  }

  lemma KnownStep(arg: string, i: nat, codes: set<string>, written: string)
    requires i < |arg|
    ensures written + Known(Pieces(arg[i..]), codes) ==
            written + (if Piece(arg, i) in codes then Piece(arg, i) else []) +
            Known(Pieces(if i + 4 < |arg| then arg[i + 4..] else []), codes)
  {
    PiecesStep(arg, i);
    var rest := Pieces(if i + 4 < |arg| then arg[i + 4..] else []);
    assert ([Piece(arg, i)] + rest)[1..] == rest;
  }

  lemma DecodeStep(arg: string, i: nat, args: seq<int>)
    requires i < |arg|
    ensures args + DecodeAll(Pieces(arg[i..])) ==
            args + [Decode(Piece(arg, i))] + DecodeAll(Pieces(if i + 4 < |arg| then arg[i + 4..] else []))
  {
    PiecesStep(arg, i);
    var rest := Pieces(if i + 4 < |arg| then arg[i + 4..] else []);
    assert ([Piece(arg, i)] + rest)[1..] == rest;
  }

  /** Calling back an entry of the chain leaves the walk over its successors. */
  lemma NextEntry(s: State, pre: seq<Info>, n: Info, post: seq<Info>, code: string, val: string)
    requires Inv(s) && s.chain == pre + [n] + post
    requires forall m | m in [n] + post :: m.fd in s.conns
    ensures n.fd in s.conns && forall m | m in post :: m.fd in s.conns
    ensures var t := if n.code == code then Callback(s, n, val) else s;
            && Inv(t) && t.conns.Keys == s.conns.Keys
            && t.chain == (if n.code == code && n.once then pre else pre + [n]) + post
            && Walk(s, [n] + post, code, val) == Walk(t, post, code, val)
  {
    assert n == s.chain[|pre|] && n in s.chain && n in [n] + post;
    assert forall m | m in post :: m in [n] + post;
    assert ([n] + post)[1..] == post;
    if n.code == code {
      CallbackConns(s, n, val);
      WriteKeeps(s, n.fd, StatLine(n.code, val));
      StopKeeps(Write(s, n.fd, StatLine(n.code, val)), n.fd, n.code);
      Apart(pre, n, post);
      UnlinkMiddle(pre, n, post);
    }
  }

  lemma SetInputTwice(s: State, fd: int, a: string, b: string)
    requires fd in s.conns
    ensures SetInput(SetInput(s, fd, a), fd, b) == SetInput(s, fd, b)
  {
    PutTwice(s.conns, fd, s.conns[fd].(input := a), s.conns[fd].(input := b));
  }

  lemma SetInputSame(s: State, fd: int)
    requires fd in s.conns
    ensures SetInput(s, fd, s.conns[fd].input) == s
  {
    assert s.conns[fd := s.conns[fd]] == s.conns;
  }

  /** Handling a line does not depend on what is left in the input. */
  lemma HandleIgnoresInput(s: State, fd: int, input: string, line: string)
    requires fd in s.conns
    ensures Registry.Handle(SetInput(s, fd, input), fd, line) == SetInput(Registry.Handle(s, fd, line), fd, input)
  {
    if |line| >= 4 {
      ObeyIgnoresInput(s, fd, input, Lookup(line[..4]), line[4..]);
    }
    WriteIgnoresInput(s, fd, input, "EDIS\n");
  }

  lemma PutInto(s: State, fd: int, c: Conn, input: string)
    requires fd in s.conns
    ensures s.conns[fd := s.conns[fd].(input := input)][fd := c.(input := input)] ==
            s.conns[fd := c][fd := c.(input := input)]
  {}

  lemma WriteIgnoresInput(s: State, fd: int, input: string, text: string)
    requires fd in s.conns
    ensures Write(SetInput(s, fd, input), fd, text) == SetInput(Write(s, fd, text), fd, input)
  {
    PutInto(s, fd, s.conns[fd].(out := s.conns[fd].out + text), input);
  }

  lemma ObeyIgnoresInput(s: State, fd: int, input: string, verb: Verb, arg: string)
    requires fd in s.conns
    ensures Registry.Obey(SetInput(s, fd, input), fd, verb, arg) == SetInput(Registry.Obey(s, fd, verb, arg), fd, input)
  {
    var c := s.conns[fd];
    match verb
    case QueryCommands => WriteIgnoresInput(s, fd, input, "QCMD" + Known(Pieces(arg), s.tables.commands) + "\n");
    case QueryStatus => WriteIgnoresInput(s, fd, input, "QSTS" + Known(Pieces(arg), s.tables.statuses) + "\n");
    case Unknown => WriteIgnoresInput(s, fd, input, "ECMD\n");
    case Query => PutInto(s, fd, c.(codes := c.codes[arg := Info(s.next, fd, arg, true)]), input);
    case Start => PutInto(s, fd, c.(codes := c.codes[arg := Info(s.next, fd, arg, false)]), input);
    case Stop => PutInto(s, fd, c.(codes := c.codes - {arg}), input);
    case _ =>
  }

  lemma ReadStep(s: State, fd: int, tail: string, rest: string, line: string)
    requires fd in s.conns
    ensures SetInput(Registry.Handle(SetInput(s, fd, tail), fd, line), fd, rest) ==
            Registry.Handle(SetInput(s, fd, rest), fd, line)
  {
    HandleIgnoresInput(s, fd, tail, line);
    HandleIgnoresInput(s, fd, rest, line);
    SetInputTwice(Registry.Handle(s, fd, line), fd, tail, rest);
  }

  /** Handling the first of some lines, with the rest of the input in place, leaves the others. */
  lemma LineStep(s: State, fd: int, lines: seq<string>, rest: string, tail: string)
    requires fd in s.conns && lines != []
    ensures var t := Registry.Handle(SetInput(s, fd, tail), fd, CString(lines[0]));
            HandleAll(SetInput(s, fd, rest), fd, lines) == HandleAll(SetInput(t, fd, rest), fd, lines[1..])
  {
    ReadStep(s, fd, tail, rest, CString(lines[0]));
  }

  ghost function UnlinkEnd(kept: seq<Info>, todo: seq<Info>, addr: nat): seq<Info> { kept + Unlink(todo, addr) }

  lemma UnlinkStep(kept: seq<Info>, chain: seq<Info>, i: nat, addr: nat)
    requires i < |chain|
    ensures UnlinkEnd(kept, chain[i..], addr) ==
            UnlinkEnd(if chain[i].addr == addr then kept else kept + [chain[i]], chain[i + 1..], addr)
  {
    assert chain[i..][0] == chain[i] && chain[i..][1..] == chain[i + 1..];
    Associate(kept, if chain[i].addr == addr then [] else [chain[i]], Unlink(chain[i + 1..], addr));
  }

  lemma SetInputKeeps(s: State, fd: int, input: string)
    requires Inv(s) && fd in s.conns
    ensures Inv(SetInput(s, fd, input))
  {}

  lemma HandleAllStep(s: State, fd: int, lines: seq<string>, t: State)
    requires fd in s.conns && lines != [] && t == Registry.Handle(s, fd, CString(lines[0]))
    ensures HandleAll(s, fd, lines) == HandleAll(t, fd, lines[1..])
  {}

  lemma {:induction false} UnlinkThenWithout(chain: seq<Info>, addr: nat, fd: int)
    requires forall n | n in chain && n.addr == addr :: n.fd == fd
    ensures WithoutConn(Unlink(chain, addr), fd) == WithoutConn(chain, fd)
  {
    if chain != [] {
      assert chain[0] in chain && forall n | n in chain[1..] :: n in chain;
      UnlinkThenWithout(chain[1..], addr, fd);
      var rest := Unlink(chain[1..], addr);
      if chain[0].addr == addr {
        assert Unlink(chain, addr) == rest;
        assert WithoutConn(chain, fd) == WithoutConn(chain[1..], fd);
      } else {
        assert ([chain[0]] + rest)[1..] == rest;
      }
    }
  }

  lemma StopThenHangup(s: State, fd: int, code: string)
    requires Inv(s) && fd in s.conns && code in s.conns[fd].codes
    ensures Hangup(Registry.StopNotify(s, fd, code), fd) == Hangup(s, fd)
  {
    var dead := s.conns[fd].codes[code];
    forall n | n in s.chain && n.addr == dead.addr
      ensures n.fd == fd
    {
      SameAddress(s.chain, n, dead);
    }
    UnlinkThenWithout(s.chain, dead.addr, fd);
    assert (s.conns[fd := s.conns[fd].(codes := s.conns[fd].codes - {code})]) - {fd} == s.conns - {fd};
  }

  lemma {:induction false} WithoutAbsent(chain: seq<Info>, fd: int)
    requires forall n | n in chain :: n.fd != fd
    ensures WithoutConn(chain, fd) == chain
  {
    if chain != [] {
      assert chain[0] in chain && forall n | n in chain[1..] :: n in chain;
      WithoutAbsent(chain[1..], fd);
      assert chain == [chain[0]] + chain[1..];
    }
  }

  lemma NothingToHangUp(s: State, fd: int)
    requires Inv(s) && fd in s.conns && s.conns[fd].codes == map[]
    ensures Hangup(s, fd).chain == s.chain
  {
    WithoutAbsent(s.chain, fd);
  }
}
