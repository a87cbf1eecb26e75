/**
 * Subscriptions to status reports: the notification chain (status.cc, status_private.hh) and the
 * connections that hold its tokens (api_serverside.cc), as a state and the operations on it.
 */
module Registry {
  import opened Codec
  import opened Framing

  /** An entry of the notification chain, told from others by its address; its callback is connection `fd`'s. */
  datatype Info = Info(addr: nat, fd: int, code: string, once: bool)

  /** A client connection: its tokens by code, what was written to it, and what it sent that is no whole line yet. */
  datatype Conn = Conn(codes: map<string, Info>, out: string, input: string, side: nat)

  /** A listening server of the daemon. */
  datatype Side = Side(name: string, disabled: bool)

  /** A command passed on to the device. */
  datatype Sent = Sent(cmd: string, args: seq<int>)

  /** The codes the device's tables know. */
  datatype Tables = Tables(commands: set<string>, statuses: set<string>)

  datatype State = State(chain: seq<Info>, next: nat, conns: map<int, Conn>, sides: seq<Side>,
                         requests: seq<string>, commands: seq<Sent>, tables: Tables)

  // ------------------------------------------------------------ the chain

  predicate Distinct(chain: seq<Info>) {
    forall i, j | 0 <= i < j < |chain| :: chain[i].addr != chain[j].addr
  }

  /** Removing by identity. */
  function Unlink(chain: seq<Info>, addr: nat): seq<Info> {
    if chain == [] then [] else (if chain[0].addr == addr then [] else [chain[0]]) + Unlink(chain[1..], addr)
  }

  /** The chain without the one-shot entries for `code`. */
  function Delivered(chain: seq<Info>, code: string): seq<Info> {
    if chain == [] then []
    else (if chain[0].code == code && chain[0].once then [] else [chain[0]]) + Delivered(chain[1..], code)
  }

  /** The chain without the entries of connection `fd`. */
  function WithoutConn(chain: seq<Info>, fd: int): seq<Info> {
    if chain == [] then [] else (if chain[0].fd == fd then [] else [chain[0]]) + WithoutConn(chain[1..], fd)
  }

  // ------------------------------------------------------------ what every operation keeps

  /** Each entry of the chain is the token its live connection holds for its code. */
  ghost predicate EntriesHeld(s: State) {
    forall n | n in s.chain ::
      n.addr < s.next && n.fd in s.conns && n.code in s.conns[n.fd].codes && s.conns[n.fd].codes[n.code] == n
  }

  /** Each token a connection holds is an entry of the chain, for that connection and code. */
  ghost predicate TokensLinked(s: State) {
    forall fd, code | fd in s.conns && code in s.conns[fd].codes ::
      var n := s.conns[fd].codes[code];
      n in s.chain && n.fd == fd && n.code == code
  }

  /** Entries and tokens correspond one to one. */
  ghost predicate Inv(s: State) {
    && Distinct(s.chain) && EntriesHeld(s) && TokensLinked(s)
    && forall fd | fd in s.conns :: s.conns[fd].side < |s.sides|
  }

  // ------------------------------------------------------------ subscribing

  function Write(s: State, fd: int, text: string): State
    requires fd in s.conns
  {
    s.(conns := s.conns[fd := s.conns[fd].(out := s.conns[fd].out + text)])
  }

  /** The new entry is linked in before the token it replaces dies. */
  function StartNotify(s: State, fd: int, code: string, once: bool, replace: bool): State
    requires fd in s.conns
  {
    var c := s.conns[fd];
    if code in c.codes && !replace then s
    else
      var n := Info(s.next, fd, code, once);
      var chain := [n] + s.chain;
      s.(chain := if code in c.codes then Unlink(chain, c.codes[code].addr) else chain,
         next := s.next + 1,
         conns := s.conns[fd := c.(codes := c.codes[code := n])],
         requests := s.requests + [code])
  }

  function StopNotify(s: State, fd: int, code: string): State
    requires fd in s.conns
  {
    var c := s.conns[fd];
    if code !in c.codes then s
    else s.(chain := Unlink(s.chain, c.codes[code].addr), conns := s.conns[fd := c.(codes := c.codes - {code})])
  }

  /** A connection goes away with its tokens. */
  function Hangup(s: State, fd: int): State {
    s.(chain := WithoutConn(s.chain, fd), conns := s.conns - {fd})
  }

  function Accept(s: State, fd: int, side: nat): State
    requires fd !in s.conns
  {
    s.(conns := s.conns[fd := Conn(map[], [], [], side)])
  }

  // ------------------------------------------------------------ reporting

  function StatLine(code: string, val: string): string { "STAT" + code + val + "\n" }

  /** A connection after a report: it is told if subscribed, and a one-shot subscription ends. */
  function Receive(c: Conn, code: string, val: string): Conn {
    if code !in c.codes then c
    else c.(out := c.out + StatLine(code, val),
            codes := if c.codes[code].once then c.codes - {code} else c.codes)
  }

  /** The state after a report of `val` for `code`. */
  function Notify(s: State, code: string, val: string): State {
    s.(chain := Delivered(s.chain, code), conns := map fd | fd in s.conns :: Receive(s.conns[fd], code, val))
  }

  /** A number is reported in its four-character form. */
  function NotifyInt(s: State, code: string, val: int): State { Notify(s, code, Encode(val)) }

  // ------------------------------------------------------------ requests

  /** A line cut into pieces of four characters, the last one possibly shorter. */
  function Pieces(arg: string): seq<string>
    decreases |arg|
  {
    if arg == [] then [] else if |arg| <= 4 then [arg] else [arg[..4]] + Pieces(arg[4..])
  }

  /** The pieces that are known, run together again. */
  function Known(pieces: seq<string>, codes: set<string>): string {
    if pieces == [] then [] else (if pieces[0] in codes then pieces[0] else []) + Known(pieces[1..], codes)
  }

  function DecodeAll(pieces: seq<string>): seq<int> {
    if pieces == [] then [] else [Decode(pieces[0])] + DecodeAll(pieces[1..])
  }

  function SendCommand(s: State, arg: string): State {
    if |arg| < 4 then s else s.(commands := s.commands + [Sent(arg[..4], DecodeAll(Pieces(arg[4..])))])
  }

  /** Every server of that name is switched. */
  function SwitchAll(sides: seq<Side>, name: string, disabled: bool): (r: seq<Side>)
    ensures |r| == |sides|
    ensures forall i | 0 <= i < |sides| ::
              r[i] == if sides[i].name == name then Side(name, disabled) else sides[i]
  {
    seq(|sides|, i requires 0 <= i < |sides| => if sides[i].name == name then Side(name, disabled) else sides[i])
  }

  predicate Disabled(s: State, fd: int)
    requires fd in s.conns
  {
    s.conns[fd].side < |s.sides| && s.sides[s.conns[fd].side].disabled
  }

  /** At most the first four characters. */
  function Head(line: string): string { if |line| < 4 then line else line[..4] }

  /** The table of requests. */
  datatype Verb = QueryCommands | QueryStatus | Send | Query | Start | Stop | Enable | Disable | Unknown

  function Lookup(cmd: string): Verb {
    if cmd == "QCMD" then QueryCommands
    else if cmd == "QSTS" then QueryStatus
    else if cmd == "SEND" then Send
    else if cmd == "QURY" then Query
    else if cmd == "STRT" then Start
    else if cmd == "STOP" then Stop
    else if cmd == "SENA" then Enable
    else if cmd == "SDIS" then Disable
    else Unknown
  }

  /** One line from a client. A disabled server answers every line but an enabling one with EDIS. */
  function Handle(s: State, fd: int, line: string): (s': State)
    requires fd in s.conns
    ensures s'.conns.Keys == s.conns.Keys
  {
    if Disabled(s, fd) && Head(line) != "SENA" then Write(s, fd, "EDIS\n")
    else if |line| < 4 then s
    else Obey(s, fd, Lookup(line[..4]), line[4..])
  }

  function Obey(s: State, fd: int, verb: Verb, arg: string): (s': State)
    requires fd in s.conns
    ensures s'.conns.Keys == s.conns.Keys
  {
    match verb
    case QueryCommands => Write(s, fd, "QCMD" + Known(Pieces(arg), s.tables.commands) + "\n")
    case QueryStatus => Write(s, fd, "QSTS" + Known(Pieces(arg), s.tables.statuses) + "\n")
    case Send => SendCommand(s, arg)
    case Query => if |arg| != 4 then s else StartNotify(s, fd, arg, true, false)
    case Start => if |arg| != 4 then s else StartNotify(s, fd, arg, false, true)
    case Stop => if |arg| != 4 then s else StopNotify(s, fd, arg)
    case Enable => s.(sides := SwitchAll(s.sides, arg, false))
    case Disable => s.(sides := SwitchAll(s.sides, arg, true))
    case Unknown => Write(s, fd, "ECMD\n")
  }

  /**
   * A line that enables or disables servers by name: afterwards a connection is disabled as the
   * line says if its server has that name, and as before otherwise; nothing else changes. A
   * disabled server still takes the enabling line, also for itself, but not the disabling one.
   */
  lemma Switches(s: State, fd: int, name: string, disabled: bool, other: int)
    requires fd in s.conns && other in s.conns && s.conns[other].side < |s.sides|
    ensures var t := Handle(s, fd, (if disabled then "SDIS" else "SENA") + name);
            if disabled && Disabled(s, fd) then t == Write(s, fd, "EDIS\n")
            else
              && t == s.(sides := t.sides)
              && (Disabled(t, other) <==>
                  if s.sides[s.conns[other].side].name == name then disabled else Disabled(s, other))
  {
    var verb := if disabled then "SDIS" else "SENA";
    assert (verb + name)[..4] == verb && (verb + name)[4..] == name;
    assert "SDIS"[1] != "SENA"[1] && "SDIS"[0] != "QCMD"[0] && "SDIS"[0] != "QSTS"[0] && "SDIS"[0] != "QURY"[0];
    assert "SDIS"[1] != "SEND"[1] && "SDIS"[1] != "STRT"[1] && "SDIS"[1] != "STOP"[1];
    assert "SENA"[0] != "QCMD"[0] && "SENA"[0] != "QSTS"[0] && "SENA"[0] != "QURY"[0];
    assert "SENA"[3] != "SEND"[3] && "SENA"[1] != "STRT"[1] && "SENA"[1] != "STOP"[1];
  }

  /** Of two switches of one name only the later one counts. */
  lemma LaterSwitchCounts(sides: seq<Side>, name: string, first: bool, second: bool)
    ensures SwitchAll(SwitchAll(sides, name, first), name, second) == SwitchAll(sides, name, second)
  {}

  // ------------------------------------------------------------ a client's bytes

  /** Client lines end at a newline; empty ones are handled too. */
  const LINE_CUT := Cut({'\n'}, true)

  /** A C string ends at the first NUL. */
  function CString(s: string): string {
    if s == [] || s[0] == '\0' then [] else [s[0]] + CString(s[1..])
  }

  function HandleAll(s: State, fd: int, lines: seq<string>): (s': State)
    requires fd in s.conns
    ensures s'.conns.Keys == s.conns.Keys
    decreases |lines|
  {
    if lines == [] then s else HandleAll(Handle(s, fd, CString(lines[0])), fd, lines[1..])
  }

  function SetInput(s: State, fd: int, input: string): State
    requires fd in s.conns
  {
    s.(conns := s.conns[fd := s.conns[fd].(input := input)])
  }

  /** A read from a client: every complete line is handled. */
  function Read(s: State, fd: int, chunk: string): (s': State)
    requires fd in s.conns
    ensures s'.conns.Keys == s.conns.Keys
  {
    var f := Frame(s.conns[fd].input + chunk, LINE_CUT);
    HandleAll(SetInput(s, fd, f.rest), fd, f.packets)
  }

  /** The client's end of file: what is left counts as a line, with any NULs in it, and the connection goes away. */
  function Eof(s: State, fd: int): State
    requires fd in s.conns
  {
    var s1 := Read(s, fd, []);
    var rest := s1.conns[fd].input;
    Hangup(if rest == [] then s1 else Handle(s1, fd, rest), fd)
  }
}
