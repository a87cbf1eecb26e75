/**
 * What the two kinds of device make of a packet, and the messages they are sent
 * (lge_status.cc, marantz_status.cc). The command, notification and info tables are parameters.
 */
module Devices {
  import opened Options
  import opened OutputLists
  import opened Sessions

  const ZERO := Timeval(0, 0)

  // ------------------------------------------------------------ LGE

  /** A row of the notification table: the code clients use, and the two-letter device command. */
  datatype LgeNotify = LgeNotify(code: string, cmd: string)

  /** A value reported for a code: acknowledged or refused, and the text after the acknowledgement. */
  datatype Report = Report(code: string, ok: bool, arg: string)

  /** The reports of all the rows for device command `cmd`, in table order. */
  function ReportsFor(rows: seq<LgeNotify>, cmd: string, ok: bool, arg: string): (rs: seq<Report>)
    ensures forall r | r in rs :: r.ok == ok && r.arg == arg
    ensures forall code :: Report(code, ok, arg) in rs <==> LgeNotify(code, cmd) in rows
  {
    if rows == [] then []
    else
      var rest := ReportsFor(rows[..|rows| - 1], cmd, ok, arg);
      var last := rows[|rows| - 1];
      assert rows == rows[..|rows| - 1] + [last];
      if last.cmd == cmd then rest + [Report(last.code, ok, arg)] else rest
  }

  /** Positions in increasing order, all below `n`. */
  ghost predicate Increasing(ks: seq<nat>, n: nat) {
    (forall i | 0 <= i < |ks| :: ks[i] < n) && (forall i, j | 0 <= i < j < |ks| :: ks[i] < ks[j])
  }

  /** One report for each row for the device command, in the order of the table. */
  lemma {:induction false} OneReportEach(rows: seq<LgeNotify>, cmd: string, ok: bool, arg: string)
    returns (ks: seq<nat>)
    ensures Increasing(ks, |rows|)
    ensures forall k | 0 <= k < |rows| :: k in ks <==> rows[k].cmd == cmd
    ensures |ks| == |ReportsFor(rows, cmd, ok, arg)|
    ensures forall i | 0 <= i < |ks| :: ReportsFor(rows, cmd, ok, arg)[i] == Report(rows[ks[i]].code, ok, arg)
  {
    ks := [];
    if rows != [] {
      var n := |rows| - 1;
      ks := OneReportEach(rows[..n], cmd, ok, arg);
      if rows[n].cmd == cmd {
        ks := ks + [n];
      }
    }
  }

  /**
   * What a reply line says about command letters `cmd`: letter, blank, two digits, blank,
   * "OK" or "NG", then the value.
   */
  function Reports(rows: seq<LgeNotify>, cmd: string, line: string): seq<Report> {
    if |line| < 7 then []
    else if line[5..7] == "OK" then ReportsFor(rows, cmd, true, line[7..])
    else if line[5..7] == "NG" then ReportsFor(rows, cmd, false, line[7..])
    else []
  }

  /** What a reply line makes the host report: the match decides the command's first letter. */
  function LgeReports(h: Host, line: string, rows: seq<LgeNotify>): seq<Report>
    requires Sane(h) && line != []
  {
    var k := Match(h.writes, h.popped, line[0]);
    if k == |h.writes| then [] else Reports(rows, [h.writes[k].out.data[0], line[0]], line)
  }

  /** A status request for the first row with the code. */
  function StatusRequest(rows: seq<LgeNotify>, code: string): (o: Option<Output>)
    ensures o.None? <==> forall r | r in rows :: r.code != code
  {
    if rows == [] then None
    else if rows[0].code == code then Some(Output(rows[0].cmd + " 00 FF\r", ZERO))
    else StatusRequest(rows[1..], code)
  }

  /** The part of a command's format after the device command: a constant, one byte, or two bytes and a suffix. */
  datatype Format = Constant(arg: string) | Byte | Word(suffix: string)

  datatype LgeCommand = LgeCommand(cmd: string, code: string, format: Format, throttle: Timeval)

  function HexDigit(d: nat): char
    requires d < 16
  {
    if d < 10 then (d + '0' as int) as char else (d - 10 + 'A' as int) as char
  }

  function Hex(n: nat): (s: string)
    ensures |s| >= 1
  {
    if n < 16 then [HexDigit(n)] else Hex(n / 16) + [HexDigit(n % 16)]
  }

  /** `printf`'s "%02X" of a C int, which it takes as unsigned. */
  function Hex02(x: int): (s: string)
    ensures |s| >= 2
  {
    var s := Hex(x % 0x1_0000_0000);
    if |s| < 2 then "0" + s else s
  }

  function ArgCount(f: Format): nat { if f.Constant? then 0 else 1 }

  /** The message for a command row; `/` on the argument truncates as in C, and `& 255` takes the low byte. */
  function CommandText(row: LgeCommand, args: seq<int>): string
    requires |args| == ArgCount(row.format)
  {
    row.code + " 00 " +
    match row.format
    case Constant(arg) => arg + "\r"
    case Byte => Hex02(args[0]) + "\r"
    case Word(suffix) => Hex02(TruncDiv(args[0], 256)) + " " + Hex02(args[0] % 256) + " " + suffix + "\r"
  }

  function FindCommand(rows: seq<LgeCommand>, cmd: string): (i: nat)
    ensures i <= |rows| && (forall j | 0 <= j < i :: rows[j].cmd != cmd)
    ensures i < |rows| ==> rows[i].cmd == cmd
  {
    if rows == [] || rows[0].cmd == cmd then 0 else 1 + FindCommand(rows[1..], cmd)
  }

  /** What a client's command sends: nothing if it is unknown or has the wrong number of arguments. */
  function Command(rows: seq<LgeCommand>, cmd: string, args: seq<int>): Option<Output> {
    var i := FindCommand(rows, cmd);
    if i == |rows| || |args| != ArgCount(rows[i].format) then None
    else Some(Output(CommandText(rows[i], args), rows[i].throttle))
  }

  function HexValue(s: string): int {
    if s == [] then 0
    else
      var c := s[|s| - 1];
      16 * HexValue(s[..|s| - 1]) + (if c <= '9' then c as int - '0' as int else c as int - 'A' as int + 10)
  }

  lemma {:induction false} HexRoundTrip(n: nat)
    ensures HexValue(Hex(n)) == n
    ensures (|Hex(n)| == 1 <==> n < 16) && (|Hex(n)| <= 2 <==> n < 256)
  {
    if n >= 16 {
      HexRoundTrip(n / 16);
      assert Hex(n)[..|Hex(n)| - 1] == Hex(n / 16);
    } else {
      assert HexValue([]) == 0;
      assert Hex(n)[..0] == [];
    }
  }

  lemma LeadingZero(s: string)
    requires |s| == 1
    ensures HexValue("0" + s) == HexValue(s)
  {
    assert ("0" + s)[..1] == "0" && "0"[..0] == [] && s[..0] == [];
    assert HexValue([]) == 0 && HexValue("0") == 0;
  }

  predicate IsCInt(x: int) { -0x8000_0000 <= x < 0x8000_0000 }

  /** A number is printed as the digits of its unsigned value, two of them exactly if it is a byte. */
  lemma Hex02Digits(x: int)
    requires IsCInt(x)
    ensures HexValue(Hex02(x)) == if x >= 0 then x else x + 0x1_0000_0000
    ensures |Hex02(x)| == 2 <==> 0 <= x < 256
  {
    var u := x % 0x1_0000_0000;
    HexRoundTrip(u);
    if |Hex(u)| < 2 { LeadingZero(Hex(u)); }
  }

  /** A byte argument is sent as two digits exactly if it is a byte, and as its own value unless it is negative. */
  lemma ByteDigits(x: int)
    requires IsCInt(x)
    ensures |Hex02(x)| == 2 <==> 0 <= x < 256
    ensures HexValue(Hex02(x)) == x <==> x >= 0
  {
    Hex02Digits(x);
  }

  /**
   * A word argument reaches the device as two bytes of two digits exactly if it is above -256 and
   * below 65536, the second byte being its lowest in any case; they spell it unless it is negative.
   */
  lemma WordArgument(x: int)
    requires IsCInt(x)
    ensures |Hex02(TruncDiv(x, 256))| == 2 <==> -256 < x < 65536
    ensures |Hex02(x % 256)| == 2 && HexValue(Hex02(x % 256)) == x % 256
    ensures 256 * HexValue(Hex02(TruncDiv(x, 256))) + HexValue(Hex02(x % 256)) == x <==> x >= 0
  {
    Quotient(x);
    Hex02Digits(TruncDiv(x, 256));
    Hex02Digits(x % 256);
  }

  lemma Quotient(x: int)
    requires IsCInt(x)
    ensures IsCInt(TruncDiv(x, 256)) && (x >= 0 ==> 256 * TruncDiv(x, 256) + x % 256 == x)
    ensures 0 <= TruncDiv(x, 256) < 256 <==> -256 < x < 65536
    ensures x < 0 ==> TruncDiv(x, 256) <= 0
  {}

  /**
   * Every message an LGE device is sent can be answered: with two-letter device commands, the
   * second letter of the row is the letter the reply starts with.
   */
  lemma EveryMessageAnswerable(cmds: seq<LgeCommand>, rows: seq<LgeNotify>, cmd: string, args: seq<int>)
    requires forall r | r in cmds :: |r.code| == 2
    requires forall r | r in rows :: |r.cmd| == 2
    ensures var o := Command(cmds, cmd, args);
            o.Some? ==> exists r :: r in cmds && r.cmd == cmd && r.code <= o.value.data && Answers(o.value, r.code[1])
    ensures var o := StatusRequest(rows, cmd);
            o.Some? ==> exists r :: r in rows && r.code == cmd && r.cmd <= o.value.data && Answers(o.value, r.cmd[1])
  {
    var i := FindCommand(cmds, cmd);
    if i < |cmds| { assert cmds[i] in cmds; }
    StatusRequestRow(rows, cmd);
  }

  lemma {:induction false} StatusRequestRow(rows: seq<LgeNotify>, code: string)
    ensures var o := StatusRequest(rows, code);
            o.Some? ==> exists r :: r in rows && r.code == code && o.value == Output(r.cmd + " 00 FF\r", ZERO)
  {
    if rows != [] && rows[0].code != code {
      StatusRequestRow(rows[1..], code);
    }
  }

  // ------------------------------------------------------------ Marantz

  /**
   * A row of the info table: the device's code, the automatic-feedback layer it belongs to, 0 for
   * none, and whether it is the row that tells which layers are on.
   */
  datatype MaInfo = MaInfo(code: string, layer: nat, feedback: bool)

  /** An open device: its queue and line, and the automatic-feedback layers a Marantz has on. */
  datatype Live = Live(host: Host, layers: seq<bool>)

  const NO_LAYERS := [false, false, false, false]

  predicate Ready(v: Live) { Sane(v.host) && |v.layers| == 4 }

  /** 1 if layer `i + 1` is on or is the one asked for. */
  function Wanted(layers: seq<bool>, layer: nat, i: nat): int
    requires i < |layers|
  {
    if layers[i] || layer == i + 1 then 1 else 0
  }

  function Bit(i: nat): (b: nat)
    ensures b > 0
  {
    if i == 0 then 1 else 2 * Bit(i - 1)
  }

  /** The flags of the first `i` layers: bit `j` for layer `j + 1`. */
  function LayerFlags(layers: seq<bool>, layer: nat, i: nat): nat
    requires i <= |layers|
  {
    if i == 0 then 0 else LayerFlags(layers, layer, i - 1) + Wanted(layers, layer, i - 1) * Bit(i - 1)
  }

  lemma FourBits(a: int, b: int, c: int, d: int)
    requires 0 <= a <= 1 && 0 <= b <= 1 && 0 <= c <= 1 && 0 <= d <= 1
    ensures var f := a + 2 * b + 4 * c + 8 * d;
            0 <= f < 16 && f % 2 == a && f / 2 % 2 == b && f / 4 % 2 == c && f / 8 % 2 == d
  {}

  /** One hexadecimal digit, in which exactly the layers that are on and the one asked for have their bit set. */
  lemma LayerFlagsBits(layers: seq<bool>, layer: nat, i: nat)
    requires |layers| == 4 && i < 4
    ensures LayerFlags(layers, layer, 4) < 16
    ensures LayerFlags(layers, layer, 4) / Bit(i) % 2 == Wanted(layers, layer, i)
  {
    var w := (j: nat) requires j < 4 => Wanted(layers, layer, j);
    assert Bit(0) == 1 && Bit(1) == 2 && Bit(2) == 4 && Bit(3) == 8;
    assert LayerFlags(layers, layer, 1) == w(0);
    assert LayerFlags(layers, layer, 2) == w(0) + 2 * w(1);
    assert LayerFlags(layers, layer, 3) == w(0) + 2 * w(1) + 4 * w(2);
    assert LayerFlags(layers, layer, 4) == w(0) + 2 * w(1) + 4 * w(2) + 8 * w(3);
    FourBits(w(0), w(1), w(2), w(3));
  }

  function LayerRequest(layers: seq<bool>, layer: nat): Output
    requires |layers| == 4
  {
    Output("@AST:" + Hex(LayerFlags(layers, layer, 4)) + "\r", ZERO)
  }

  /** A Marantz status request: "%.3s" takes at most three characters of the code. */
  function MaStatusRequest(code: string): Output {
    Output("@" + (if |code| < 3 then code else code[..3]) + ":?\r", ZERO)
  }

  function IndexOf(s: string, c: char): (i: nat)
    ensures i <= |s| && (forall j | 0 <= j < i :: s[j] != c) && (i < |s| ==> s[i] == c)
  {
    if s == [] || s[0] == c then 0 else 1 + IndexOf(s[1..], c)
  }

  /** The code of a packet: what precedes the colon, without a leading '@'. */
  function PacketCode(line: string): Option<string> {
    var i := IndexOf(line, ':');
    if i == |line| then None
    else if i > 0 && line[0] == '@' then Some(line[1..i])
    else Some(line[..i])
  }

  /** The argument of a packet: what follows the colon. */
  function PacketArg(line: string): string {
    var i := IndexOf(line, ':');
    if i == |line| then [] else line[i + 1..]
  }

  predicate Layered(infos: seq<MaInfo>) { forall r | r in infos :: r.layer <= 4 }

  /** The first row for a code. */
  function RowFor(infos: seq<MaInfo>, code: string): (o: Option<MaInfo>)
    ensures o.None? <==> forall r | r in infos :: r.code != code
    ensures o.Some? ==> o.value in infos && o.value.code == code
  {
    if infos == [] then None
    else if infos[0].code == code then Some(infos[0])
    else
      assert infos == [infos[0]] + infos[1..];
      RowFor(infos[1..], code)
  }

  function PacketRow(line: string, infos: seq<MaInfo>): (o: Option<MaInfo>)
    ensures o.Some? ==> o.value in infos
  {
    var code := PacketCode(line);
    if code.None? then None else RowFor(infos, code.value)
  }

  /** The number a feedback argument's first character stands for; letters are taken from 'A' as 0. */
  function FeedbackValue(arg: string): int {
    var c := if arg == [] then 0 else arg[0] as int;
    if c >= 'A' as int then c - 'A' as int else c - '0' as int
  }

  /** Layer `i + 1` is on if bit `i` is set. */
  function Feedback(x: int): (layers: seq<bool>)
    ensures |layers| == 4
  {
    [x % 2 == 1, x / 2 % 2 == 1, x / 4 % 2 == 1, x / 8 % 2 == 1]
  }

  /** The layers a host takes to be on after a packet. */
  function LayersAfter(row: Option<MaInfo>, arg: string, layers: seq<bool>): (r: seq<bool>)
    requires |layers| == 4
    ensures |r| == 4
  {
    if row.Some? && row.value.feedback then Feedback(FeedbackValue(arg)) else layers
  }

  /** A packet's row makes the host ask for the row's layer unless that layer is on. */
  function RowRequest(row: Option<MaInfo>, layers: seq<bool>): Option<Output>
    requires |layers| == 4 && (row.Some? ==> row.value.layer <= 4)
  {
    if row.Some? && row.value.layer > 0 && !layers[row.value.layer - 1] then Some(LayerRequest(layers, row.value.layer))
    else None
  }

  /** The layer a packet makes the host ask for, the packet's own feedback having been heeded. */
  function MaRequest(line: string, infos: seq<MaInfo>, layers: seq<bool>): Option<Output>
    requires |layers| == 4 && Layered(infos)
  {
    var row := PacketRow(line, infos);
    RowRequest(row, LayersAfter(row, PacketArg(line), layers))
  }

  /** Any packet clears all outstanding messages; it may change the layers and queue one request. */
  function MaUpdate(v: Live, line: string, now: int, infos: seq<MaInfo>, default: Timeval): (v': Live)
    requires Ready(v) && Layered(infos)
    ensures Ready(v')
  {
    var h := v.host.(popped := |v.host.writes|);
    var o := MaRequest(line, infos, v.layers);
    Live(if o.None? then h else Push(h, now, o.value, default),
         LayersAfter(PacketRow(line, infos), PacketArg(line), v.layers))
  }

  /**
   * The flags of a layer request, sent back as feedback, turn exactly the flagged layers on as
   * long as they are a decimal digit: a letter is taken for a number less by ten.
   */
  lemma FeedbackOfFlags(flags: nat)
    requires flags < 16
    ensures |Hex(flags)| == 1
    ensures Feedback(FeedbackValue(Hex(flags))) == Feedback(flags) <==> flags < 10
  {
    assert Hex(flags) == [HexDigit(flags)];
    assert FeedbackValue(Hex(flags)) == if flags < 10 then flags else flags - 10;
    FeedbackTells(flags, if flags < 10 then flags else flags - 10);
  }

  lemma FeedbackTells(x: nat, y: nat)
    requires x < 16 && y < 16
    ensures Feedback(x) == Feedback(y) <==> x == y
  {
    if Feedback(x) == Feedback(y) {
      assert Feedback(x)[0] == Feedback(y)[0] && Feedback(x)[1] == Feedback(y)[1];
      assert Feedback(x)[2] == Feedback(y)[2] && Feedback(x)[3] == Feedback(y)[3];
    }
  }

  /**
   * Handling a packet removes every outstanding message and no waiting one; the request it may
   * queue comes last, and writes stay spaced and guarded by the timer.
   */
  lemma MarantzKeeps(v: Live, line: string, clock: int, now: int, infos: seq<MaInfo>, default: Timeval)
    requires Ready(v) && Layered(infos) && clock <= now
    requires Spaced(v.host.writes, default) && Guarded(v.host, clock, default)
    ensures var h, h', o := v.host, MaUpdate(v, line, now, infos, default).host, MaRequest(line, infos, v.layers);
            && Sane(h') && h'.popped == |h.writes|
            && Written(h'.writes) + h'.unsent == Written(h.writes) + h.unsent + (if o.Some? then [o.value] else [])
            && Spaced(h'.writes, default) && Guarded(h', now, default)
  {
    var h, o := v.host, MaRequest(line, infos, v.layers);
    if o.Some? {
      PushKeeps(h.(popped := |h.writes|), clock, now, o.value, default);
    }
  }
}
