/**
 * What is on a device's line, byte by byte: what can be read back from the messages sent
 * (lge_status.cc, marantz_status.cc), and what is made of the lines a device sends.
 */
module LineTexts {
  import opened Options
  import opened Sequences
  import opened OutputLists
  import opened Sessions
  import opened Devices
  import opened Framing
  import opened Backends

  // ------------------------------------------------------------ hexadecimal digits

  const DIGITS: string := "0123456789ABCDEF"

  lemma OneDigit(i: nat)
    requires i < 16
    ensures HexDigit(i) == DIGITS[i] && HexValue([DIGITS[i]]) == i
  {
    assert [DIGITS[i]][..0] == [] && HexValue([]) == 0;
  }

  /** Numbers are read from digits, the higher one first, and a number below 16 is written as its digit. */
  lemma DigitsRead(i: nat, j: nat)
    requires i < 16 && j < 16
    ensures HexValue([DIGITS[i], DIGITS[j]]) == 16 * i + j && Hex(i) == [DIGITS[i]]
  {
    OneDigit(i);
    OneDigit(j);
    assert [DIGITS[i], DIGITS[j]][..1] == [DIGITS[i]];
  }

  // ------------------------------------------------------------ commands for an LGE device

  /** `k` is the position of the first row for the command. */
  predicate IsRowOf(rows: seq<LgeCommand>, cmd: string, k: nat) {
    k < |rows| && rows[k].cmd == cmd && forall j | 0 <= j < k :: rows[j].cmd != cmd
  }

  /** An unknown command sends nothing. */
  lemma UnknownSendsNothing(rows: seq<LgeCommand>, cmd: string, args: seq<int>)
    requires forall j | 0 <= j < |rows| :: rows[j].cmd != cmd
    ensures Command(rows, cmd, args) == None
  {}

  lemma RowFound(rows: seq<LgeCommand>, cmd: string, k: nat)
    requires IsRowOf(rows, cmd, k)
    ensures FindCommand(rows, cmd) == k
  {}

  /** A command without an argument sends its row's text, and nothing if it is given arguments. */
  lemma ConstantSent(rows: seq<LgeCommand>, cmd: string, k: nat, args: seq<int>)
    requires IsRowOf(rows, cmd, k) && rows[k].format.Constant?
    ensures Command(rows, cmd, args) ==
            if args == [] then Some(Output(rows[k].code + " 00 " + rows[k].format.arg + "\r", rows[k].throttle))
            else None
  {
    RowFound(rows, cmd, k);
    Associate(rows[k].code + " 00 ", rows[k].format.arg, "\r");
  }

  lemma TextParts(code: string, rest: string)
    ensures var data := code + " 00 " + rest;
            && |data| == |code| + 4 + |rest| && data[..|code|] == code
            && data[|code|..|code| + 4] == " 00 " && data[|code| + 4..] == rest
  {}

  /** A command with a byte argument: the row's code, " 00 ", and two digits that are the byte. */
  lemma ByteSent(rows: seq<LgeCommand>, cmd: string, k: nat, args: seq<int>)
    requires IsRowOf(rows, cmd, k) && rows[k].format.Byte?
    ensures Command(rows, cmd, args).Some? <==> |args| == 1
    ensures |args| == 1 && 0 <= args[0] < 256 ==>
              var o, n := Command(rows, cmd, args).value, |rows[k].code|;
              && o.throttle == rows[k].throttle
              && |o.data| == n + 7 && o.data[..n] == rows[k].code && o.data[n..n + 4] == " 00 "
              && HexValue(o.data[n + 4..n + 6]) == args[0] && o.data[n + 6..] == "\r"
  {
    RowFound(rows, cmd, k);
    if |args| == 1 && 0 <= args[0] < 256 {
      ByteDigits(args[0]);
      var data, rest := CommandText(rows[k], args), Hex02(args[0]) + "\r";
      TextParts(rows[k].code, rest);
      var n := |rows[k].code|;
      assert data == rows[k].code + " 00 " + rest;
      assert data[n + 4..n + 6] == rest[..2] == Hex02(args[0]) && data[n + 6..] == rest[2..] == "\r";
    }
  }

  lemma WordParts(hi: string, lo: string, suffix: string)
    requires |hi| == 2 && |lo| == 2
    ensures var rest := hi + " " + lo + " " + suffix + "\r";
            && |rest| == 7 + |suffix| && rest[..2] == hi && rest[2] == ' ' && rest[3..5] == lo
            && rest[5..] == " " + suffix + "\r"
  {}

  /** A command with a word argument: the row's code, " 00 ", high and low byte as two digits each, and the suffix. */
  lemma WordSent(rows: seq<LgeCommand>, cmd: string, k: nat, args: seq<int>)
    requires IsRowOf(rows, cmd, k) && rows[k].format.Word?
    ensures Command(rows, cmd, args).Some? <==> |args| == 1
    ensures |args| == 1 && 0 <= args[0] < 65536 ==>
              var o, n := Command(rows, cmd, args).value, |rows[k].code|;
              && o.throttle == rows[k].throttle
              && |o.data| == n + 11 + |rows[k].format.suffix|
              && o.data[..n] == rows[k].code && o.data[n..n + 4] == " 00 "
              && var rest := o.data[n + 4..];
                 && rest[2] == ' ' && 256 * HexValue(rest[..2]) + HexValue(rest[3..5]) == args[0]
                 && rest[5..] == " " + rows[k].format.suffix + "\r"
  {
    RowFound(rows, cmd, k);
    if |args| == 1 && 0 <= args[0] < 65536 {
      var x, suffix := args[0], rows[k].format.suffix;
      WordArgument(x);
      var hi, lo := Hex02(TruncDiv(x, 256)), Hex02(x % 256);
      WordParts(hi, lo, suffix);
      TextParts(rows[k].code, hi + " " + lo + " " + suffix + "\r");
      assert CommandText(rows[k], args) == rows[k].code + " 00 " + (hi + " " + lo + " " + suffix + "\r");
    }
  }

  // ------------------------------------------------------------ requests for a value

  /** An LGE device is asked with the device command of the first row for the code. */
  lemma {:induction false} LgeAskedFor(rows: seq<LgeNotify>, code: string, k: nat)
    requires k < |rows| && rows[k].code == code && forall j | 0 <= j < k :: rows[j].code != code
    ensures StatusRequest(rows, code) == Some(Output(rows[k].cmd + " 00 FF\r", Timeval(0, 0)))
  {
    if k > 0 { LgeAskedFor(rows[1..], code, k - 1); }
  }

  /** A Marantz device is asked with the first three characters of the code. */
  lemma MarantzAskedFor(code: string)
    ensures var data, n := MaStatusRequest(code).data, if |code| < 3 then |code| else 3;
            && |data| == n + 4 && data[0] == '@' && data[1..n + 1] == code[..n] && data[n + 1..] == ":?\r"
            && MaStatusRequest(code).throttle == Timeval(0, 0)
  {}

  // ------------------------------------------------------------ lines from an LGE device

  /** `k` is the oldest outstanding message that has `b` for its second letter. */
  predicate IsOldestFor(h: Host, b: char, k: nat) {
    && h.popped <= k < |h.writes| && |h.writes[k].out.data| >= 2 && h.writes[k].out.data[1] == b
    && forall j | h.popped <= j < k :: |h.writes[j].out.data| < 2 || h.writes[j].out.data[1] != b
  }

  lemma OldestMatches(h: Host, b: char, k: nat)
    requires Sane(h) && IsOldestFor(h, b, k)
    ensures Match(h.writes, h.popped, b) == k
  {
    assert Answers(h.writes[k].out, b);
    assert forall j | h.popped <= j < k :: !Answers(h.writes[j].out, b);
  }

  lemma LineParts(b: char, mid: string, ack: string, val: string)
    requires |mid| == 4 && |ack| == 2
    ensures var line := [b] + mid + ack + val;
            |line| == 7 + |val| && line[0] == b && line[5..7] == ack && line[7..] == val
  {}

  /**
   * A reply: its first letter, four characters, the acknowledgement and a value. It is reported
   * once for each row with the two letters of the oldest message it can answer, in the order of
   * the table, as acknowledged for OK and as refused for NG, with that value. With anything else
   * for an acknowledgement nothing is reported. The messages up to the match are no longer
   * outstanding.
   */
  lemma ReplyRead(h: Host, rows: seq<LgeNotify>, k: nat, b: char, mid: string, ack: string, val: string)
    returns (ks: seq<nat>)
    requires Sane(h) && IsOldestFor(h, b, k) && |mid| == 4 && |ack| == 2
    ensures Increasing(ks, |rows|)
    ensures forall i | 0 <= i < |rows| :: i in ks <==> rows[i].cmd == [h.writes[k].out.data[0], b]
    ensures var reports := LgeReports(h, [b] + mid + ack + val, rows);
            if ack == "OK" || ack == "NG" then
              |reports| == |ks| && forall i | 0 <= i < |ks| :: reports[i] == Report(rows[ks[i]].code, ack == "OK", val)
            else reports == []
    ensures Reply(h, b) == h.(popped := k + 1)
  {
    OldestMatches(h, b, k);
    LineParts(b, mid, ack, val);
    assert "OK"[0] != "NG"[0];
    ks := OneReportEach(rows, [h.writes[k].out.data[0], b], ack == "OK", val);
  }

  /** A line too short for an acknowledgement is not reported, but counts as a reply. */
  lemma ShortReply(h: Host, rows: seq<LgeNotify>, line: string)
    requires Sane(h) && 0 < |line| < 7
    ensures LgeReports(h, line, rows) == []
  {}

  /** A line that no outstanding message can be answered by is not reported, and clears all of them. */
  lemma UnmatchedReply(h: Host, rows: seq<LgeNotify>, line: string)
    requires Sane(h) && line != []
    requires forall j | h.popped <= j < |h.writes| ::
               |h.writes[j].out.data| < 2 || h.writes[j].out.data[1] != line[0]
    ensures LgeReports(h, line, rows) == [] && Reply(h, line[0]) == h.(popped := |h.writes|)
  {
    assert forall j | h.popped <= j < |h.writes| :: !Answers(h.writes[j].out, line[0]);
  }

  // ------------------------------------------------------------ packets from a Marantz device

  /** A packet with a colon: the code before the first one, with or without an '@', and the argument behind it. */
  lemma PacketRead(at: bool, code: string, arg: string)
    requires (forall i | 0 <= i < |code| :: code[i] != ':') && (code == [] || code[0] != '@')
    ensures var line := (if at then "@" else "") + code + ":" + arg;
            PacketCode(line) == Some(code) && PacketArg(line) == arg
  {
    var head := (if at then "@" else "") + code;
    var line := head + ":" + arg;
    assert line[..|head|] == head && line[|head|] == ':' && line[|head| + 1..] == arg;
    assert forall i | 0 <= i < |head| :: head[i] == if at then (if i == 0 then '@' else code[i - 1]) else code[i];
    assert forall i | 0 <= i < |head| :: line[i] == head[i] && line[i] != ':';
    assert IndexOf(line, ':') == |head|;
    if at {
      assert line[0] == '@' && line[1..|head|] == code;
    } else {
      assert head == code && (code != [] ==> line[0] == code[0]);
    }
  }

  /** A packet without a colon, or with an unknown code, only clears what is outstanding. */
  lemma PacketIgnored(v: Live, at: bool, code: string, arg: string, line: string, now: int, infos: seq<MaInfo>,
                      default: Timeval)
    requires Ready(v) && Layered(infos)
    requires (forall i | 0 <= i < |code| :: code[i] != ':') && (code == [] || code[0] != '@')
    requires
      || (forall i | 0 <= i < |line| :: line[i] != ':')
      || (line == (if at then "@" else "") + code + ":" + arg && forall j | 0 <= j < |infos| :: infos[j].code != code)
    ensures MaUpdate(v, line, now, infos, default) == v.(host := v.host.(popped := |v.host.writes|))
  {
    PacketRead(at, code, arg);
  }

  lemma {:induction false} RowRead(infos: seq<MaInfo>, code: string, k: nat)
    requires k < |infos| && infos[k].code == code && forall j | 0 <= j < k :: infos[j].code != code
    ensures RowFor(infos, code) == Some(infos[k])
  {
    if k > 0 { RowRead(infos[1..], code, k - 1); }
  }

  /**
   * Such a packet, with `k` its first row: it clears what is outstanding; if the row is the one
   * for feedback, the layers are those the argument's digit has bits for; and the row's layer, if
   * it has one, is asked for exactly if it is not on then.
   */
  lemma PacketHandled(v: Live, at: bool, code: string, arg: string, now: int, infos: seq<MaInfo>, k: nat,
                      default: Timeval)
    requires Ready(v) && Layered(infos)
    requires (forall i | 0 <= i < |code| :: code[i] != ':') && (code == [] || code[0] != '@')
    requires k < |infos| && infos[k].code == code && forall j | 0 <= j < k :: infos[j].code != code
    ensures var r, h := infos[k], v.host.(popped := |v.host.writes|);
            var v' := MaUpdate(v, (if at then "@" else "") + code + ":" + arg, now, infos, default);
            && (!r.feedback ==> v'.layers == v.layers)
            && (r.feedback && arg != [] && '0' <= arg[0] <= '9' ==>
                  var f := arg[0] as int - '0' as int;
                  v'.layers == [f % 2 == 1, f / 2 % 2 == 1, f / 4 % 2 == 1, f / 8 % 2 == 1])
            && (r.feedback && arg != [] && 'A' <= arg[0] <= 'F' ==>
                  var f := arg[0] as int - 'A' as int;
                  v'.layers == [f % 2 == 1, f / 2 % 2 == 1, f / 4 % 2 == 1, f / 8 % 2 == 1])
            && v'.host == if r.layer > 0 && !v'.layers[r.layer - 1]
                          then Push(h, now, LayerRequest(v'.layers, r.layer), default) else h
  {
    PacketRead(at, code, arg);
    RowRead(infos, code, k);
  }

  /** A layer request: one digit between "@AST:" and the end, with a bit for each layer that is on or asked for. */
  lemma LayerAskedFor(layers: seq<bool>, layer: nat)
    requires |layers| == 4 && 1 <= layer <= 4
    ensures var o := LayerRequest(layers, layer);
            && |o.data| == 7 && o.data[..5] == "@AST:" && o.data[6] == '\r' && o.throttle == Timeval(0, 0)
            && var f := HexValue(o.data[5..6]);
               && 0 <= f < 16
               && (f % 2 == 1 <==> layers[0] || layer == 1) && (f / 2 % 2 == 1 <==> layers[1] || layer == 2)
               && (f / 4 % 2 == 1 <==> layers[2] || layer == 3) && (f / 8 % 2 == 1 <==> layers[3] || layer == 4)
  {
    assert Bit(0) == 1 && Bit(1) == 2 && Bit(2) == 4 && Bit(3) == 8;
    LayerFlagsBits(layers, layer, 0);
    LayerFlagsBits(layers, layer, 1);
    LayerFlagsBits(layers, layer, 2);
    LayerFlagsBits(layers, layer, 3);
    var f := LayerFlags(layers, layer, 4);
    HexRoundTrip(f);
    assert LayerRequest(layers, layer).data[5..6] == Hex(f);
  }

  // ------------------------------------------------------------ where packets end

  /** A packet of an LGE device ends at an 'x', one of a Marantz device at a carriage return, and both at a NUL. */
  lemma PacketEnds(d: Device, packet: string, stop: char, tail: string)
    requires packet != [] && (stop == '\0' || stop == if d.Lge? then 'x' else '\r')
    requires forall i | 0 <= i < |packet| :: packet[i] != '\0' && packet[i] != if d.Lge? then 'x' else '\r'
    ensures Pending(d, packet + [stop] + tail).packets == [packet] + Pending(d, tail).packets
    ensures Pending(d, packet) == Framed([], packet)
  {
    FrameField(packet, stop, tail, PacketCut(d));
    FrameClean(packet, PacketCut(d));
  }
}
