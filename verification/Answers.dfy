/** What a client sees of its requests, by the bytes of its lines (api_serverside.cc). */
module Answers {
  import opened Codec
  import opened Framing
  import opened Sequences
  import opened Registry
  import opened Subscriptions

  // ------------------------------------------------------------ lines and their parts

  /** A line ends at the first NUL. */
  lemma {:induction false} NulCuts(a: string, b: string)
    requires forall i | 0 <= i < |a| :: a[i] != '\0'
    ensures CString(a + "\0" + b) == a && CString(a) == a
  {
    if a != [] {
      NulCuts(a[1..], b);
      assert (a + "\0" + b)[1..] == a[1..] + "\0" + b && (a + "\0" + b)[0] == a[0];
      assert a == [a[0]] + a[1..];
    }
  }

  /** Cutting into pieces loses nothing: all have four characters but the last, which has one to four. */
  lemma {:induction false} PiecesCut(arg: string)
    ensures var ps := Pieces(arg);
            && Flatten(ps) == arg
            && forall i | 0 <= i < |ps| :: 1 <= |ps[i]| <= 4 && (i < |ps| - 1 ==> |ps[i]| == 4)
    decreases |arg|
  {
    if |arg| > 4 {
      PiecesCut(arg[4..]);
      HeadTail(arg[..4], Pieces(arg[4..]));
      assert arg == arg[..4] + arg[4..];
    } else if arg != [] {
      HeadTail(arg, []);
      assert Flatten([arg]) == arg + Flatten([]) == arg;
    }
  }

  /** Of the pieces exactly the known ones are handed back, each as often as it was asked for, in order. */
  lemma {:induction false} KnownKept(ps: seq<string>, codes: set<string>) returns (kept: seq<string>)
    ensures Known(ps, codes) == Flatten(kept) && Sublist(kept, ps)
    ensures forall p :: multiset(kept)[p] == if p in codes then multiset(ps)[p] else 0
  {
    kept := [];
    if ps != [] {
      var rest := KnownKept(ps[1..], codes);
      kept := rest;
      SublistCons(ps[0], rest, ps[1..]);
      assert ps == [ps[0]] + ps[1..];
      if ps[0] in codes {
        kept := [ps[0]] + rest;
        HeadTail(ps[0], rest);
      }
    }
  }

  /** The arguments of a command are its pieces' numbers, one by one. */
  lemma {:induction false} DecodedEach(ps: seq<string>)
    ensures |DecodeAll(ps)| == |ps| && forall i | 0 <= i < |ps| :: DecodeAll(ps)[i] == Decode(ps[i])
  {
    if ps != [] { DecodedEach(ps[1..]); }
  }

  // ------------------------------------------------------------ what a line comes to

  /** What an enabled server writes for a request. */
  function Answer(s: State, verb: Verb, arg: string): string {
    match verb
    case QueryCommands => "QCMD" + Known(Pieces(arg), s.tables.commands) + "\n"
    case QueryStatus => "QSTS" + Known(Pieces(arg), s.tables.statuses) + "\n"
    case Unknown => "ECMD\n"
    case _ => []
  }

  lemma ObeyWrites(s: State, fd: int, verb: Verb, arg: string, other: int)
    requires fd in s.conns && other in s.conns
    ensures var c, d := s.conns[other], Obey(s, fd, verb, arg).conns[other];
            && d.input == c.input && d.side == c.side
            && d.out == c.out + if other == fd then Answer(s, verb, arg) else []
  {
    Associate(s.conns[other].out, [], []);
    match verb
    case QueryCommands =>
    case QueryStatus =>
    case Unknown =>
    case _ => assert Answer(s, verb, arg) == [];
  }

  lemma ObeyPasses(s: State, fd: int, verb: Verb, arg: string)
    requires fd in s.conns
    ensures var t := Obey(s, fd, verb, arg);
            && t.tables == s.tables
            && t.commands == s.commands +
               if verb.Send? && |arg| >= 4 then [Sent(arg[..4], DecodeAll(Pieces(arg[4..])))] else []
  {
    Associate(s.commands, [], []);
  }

  /**
   * What a line makes the server write, and pass on as a command: a disabled server answers EDIS
   * to anything but a line that begins SENA; too short a line is not answered; queries are
   * answered with the known ones of the codes asked for; subscriptions, commands and switches are
   * not answered; anything else is answered ECMD. Only the connection the line came from is written
   * to, and only SEND with a code is passed on.
   */
  lemma LineAnswered(s: State, fd: int, line: string, other: int)
    requires fd in s.conns && other in s.conns
    ensures var t := Handle(s, fd, line);
            var lost := Disabled(s, fd) && !(|line| >= 4 && line[..4] == "SENA");
            && t.tables == s.tables
            && t.conns[other].input == s.conns[other].input && t.conns[other].side == s.conns[other].side
            && t.conns[other].out == s.conns[other].out + (
                 if other != fd then []
                 else if lost then "EDIS\n"
                 else if |line| < 4 then []
                 else if line[..4] == "QCMD" then "QCMD" + Known(Pieces(line[4..]), s.tables.commands) + "\n"
                 else if line[..4] == "QSTS" then "QSTS" + Known(Pieces(line[4..]), s.tables.statuses) + "\n"
                 else if line[..4] == "SEND" || line[..4] == "QURY" || line[..4] == "STRT" || line[..4] == "STOP" ||
                         line[..4] == "SENA" || line[..4] == "SDIS" then []
                 else "ECMD\n")
            && t.commands == s.commands + (
                 if !lost && |line| >= 8 && line[..4] == "SEND" then [Sent(line[4..8], DecodeAll(Pieces(line[8..])))]
                 else [])
  {
    Associate(s.conns[other].out, [], []);
    Associate(s.commands, [], []);
    if |line| >= 4 {
      ObeyWrites(s, fd, Lookup(line[..4]), line[4..], other);
      ObeyPasses(s, fd, Lookup(line[..4]), line[4..]);
      assert |line| >= 8 ==> line[4..][..4] == line[4..8] && line[4..][4..] == line[8..];
    }
  }

  /** A connection's lines that subscribe: a query once unless it has the code, STRT lastingly, STOP no longer. */
  lemma LineSubscribes(s: State, fd: int, code: string)
    requires fd in s.conns && |code| == 4 && !Disabled(s, fd)
    ensures var t := Handle(s, fd, "QURY" + code);
            ModeOf(t, fd, code) == if code in s.conns[fd].codes then ModeOf(s, fd, code) else OneShot
    ensures ModeOf(Handle(s, fd, "STRT" + code), fd, code) == Lasting
    ensures code !in Handle(s, fd, "STOP" + code).conns[fd].codes
  {
    Subscribing(s, fd, "QURY", code);
    Subscribing(s, fd, "STRT", code);
    Subscribing(s, fd, "STOP", code);
  }

  /** With anything but four characters for a code these lines do nothing. */
  lemma NoSuchCode(s: State, fd: int, cmd: string, arg: string)
    requires fd in s.conns && !Disabled(s, fd) && cmd in {"QURY", "STRT", "STOP"} && |arg| != 4
    ensures Handle(s, fd, cmd + arg) == s
  {
    Subscribing(s, fd, cmd, "ABCD");
    var line := cmd + arg;
    assert line[..4] == cmd && line[4..] == arg;
  }

  lemma Subscribing(s: State, fd: int, cmd: string, code: string)
    requires fd in s.conns && |code| == 4 && !Disabled(s, fd) && cmd in {"QURY", "STRT", "STOP"}
    ensures Lookup(cmd) == if cmd == "QURY" then Query else if cmd == "STRT" then Start else Stop
    ensures Handle(s, fd, cmd + code) == Obey(s, fd, Lookup(cmd), code)
  {
    var line := cmd + code;
    assert line[..4] == cmd && line[4..] == code;
    assert "QURY"[1] != "QCMD"[1] && "QURY"[1] != "QSTS"[1] && "QURY"[0] != "SEND"[0];
    SubscriptionVerbs();
  }

  // ------------------------------------------------------------ connections

  /** A new connection has no subscriptions, and is disabled if its server is; nobody else notices. */
  lemma Accepted(s: State, fd: int, side: nat)
    requires fd !in s.conns && side < |s.sides|
    ensures var t := Accept(s, fd, side);
            && t == s.(conns := t.conns) && t.conns.Keys == s.conns.Keys + {fd}
            && t.conns[fd].codes == map[] && t.conns[fd].out == [] && t.conns[fd].input == []
            && (Disabled(t, fd) <==> s.sides[side].disabled)
            && forall other | other in s.conns :: t.conns[other] == s.conns[other]
  {}

  /** A connection that goes takes its own entries along and nothing else. */
  lemma Gone(s: State, fd: int)
    requires Inv(s) && fd in s.conns
    ensures var t := Hangup(s, fd);
            && t == s.(conns := t.conns, chain := t.chain) && t.conns == s.conns - {fd}
            && forall n :: n in t.chain <==> n in s.chain && n.fd != fd
  {
    WithoutConnHas(s.chain, fd);
  }
}
