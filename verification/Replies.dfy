/**
 * The bytes of a line to an LGE device and the session's steps put together: a peer that writes
 * reply lines, a host that reads them in chunks of any size between sends, timer firings and
 * further commands, and the steps of the session that such a run amounts to.
 */
module Replies {
  import opened Sequences
  import opened OutputLists
  import opened Sessions
  import opened Devices
  import opened Framing
  import opened Backends

  // ------------------------------------------------------------ the line as bytes

  /** Host and peer with the bytes between them: those the host has buffered, and those it has not read. */
  datatype Wired = Wired(host: Host, left: string, wire: string, clock: int, pushed: seq<Output>, taken: nat)

  datatype Doing =
    | Queues(at: int, out: Output)
    | Fires(at: int)
    | Answers(line: string)           // the peer consumes a command and writes a reply line
    | Drops                           // the peer consumes a command and stays silent
    | Reads(n: nat)                   // the host reads the next `n` bytes

  /** A reply line to the command `o`: it begins with the command's second letter and holds no separator. */
  predicate ReplyTo(d: Device, line: string, o: Output) {
    |o.data| >= 2 && line != [] && line[0] == o.data[1] && Clean(line, PacketCut(d))
  }

  predicate CanDo(d: Device, w: Wired, a: Doing) {
    match a
    case Queues(at, _) => at >= w.clock
    case Fires(at) => at >= w.clock && w.host.due.Some? && at >= w.host.due.value
    case Answers(line) => w.taken < |w.host.writes| && ReplyTo(d, line, w.host.writes[w.taken].out)
    case Drops => w.taken < |w.host.writes|
    case Reads(n) => n <= |w.wire|
  }

  /** What the host makes of the next `n` bytes: `ReadCb`, for a device that has no layers. */
  ghost function Reading(d: Device, w: Wired, n: nat, default: Timeval): Outcome
    requires d.Lge? && Sane(w.host) && n <= |w.wire|
  {
    UpdateAll(d, Live(w.host, NO_LAYERS), Pending(d, w.left + w.wire[..n]).packets, w.clock, default)
  }

  ghost function Done(d: Device, w: Wired, a: Doing, default: Timeval): (w': Wired)
    requires d.Lge? && Sane(w.host) && CanDo(d, w, a)
    ensures Sane(w'.host)
  {
    match a
    case Queues(at, o) => w.(host := Push(w.host, at, o, default), clock := at, pushed := w.pushed + [o])
    case Fires(at) => w.(host := Fire(w.host, at, default), clock := at)
    case Answers(line) => w.(taken := w.taken + 1, wire := w.wire + (line + ['x']))
    case Drops => w.(taken := w.taken + 1)
    case Reads(n) =>
      w.(host := Reading(d, w, n, default).live.host,
         left := Pending(d, w.left + w.wire[..n]).rest,
         wire := w.wire[n..])
  }

  ghost predicate CanAll(d: Device, w: Wired, acts: seq<Doing>, default: Timeval)
    requires d.Lge? && Sane(w.host)
    decreases |acts|
  {
    acts == [] || (CanDo(d, w, acts[0]) && CanAll(d, Done(d, w, acts[0], default), acts[1..], default))
  }

  ghost function DoneAll(d: Device, w: Wired, acts: seq<Doing>, default: Timeval): Wired
    requires d.Lge? && Sane(w.host) && CanAll(d, w, acts, default)
    decreases |acts|
  {
    if acts == [] then w else DoneAll(d, Done(d, w, acts[0], default), acts[1..], default)
  }

  // ------------------------------------------------------------ the session behind the bytes

  /** The session's steps an action amounts to: a read is as many arrivals as it completes lines. */
  ghost function AsSteps(d: Device, w: Wired, a: Doing): seq<Step>
    requires CanDo(d, w, a)
  {
    if a.Reads? then Arrivals(|Pending(d, w.left + w.wire[..a.n]).packets|) else [AsStep(a)]
  }

  function AsStep(a: Doing): Step
    requires !a.Reads?
  {
    match a
    case Queues(at, o) => Queue(at, o)
    case Fires(at) => Timer(at)
    case Answers(_) => Answer
    case Drops => Drop
  }

  function Arrivals(n: nat): seq<Step> { if n == 0 then [] else [Arrive] + Arrivals(n - 1) }

  ghost function AllSteps(d: Device, w: Wired, acts: seq<Doing>, default: Timeval): seq<Step>
    requires d.Lge? && Sane(w.host) && CanAll(d, w, acts, default)
    decreases |acts|
  {
    if acts == [] then []
    else AsSteps(d, w, acts[0]) + AllSteps(d, Done(d, w, acts[0], default), acts[1..], default)
  }

  function Stops(n: nat): string { seq(n, _ => 'x') }

  /** Lines that are the next replies under way, in order. */
  ghost predicate Genuine(d: Device, s: Session, lines: seq<string>) {
    && |lines| <= |s.replies|
    && forall i | 0 <= i < |lines| ::
         s.replies[i] < |s.host.writes| && ReplyTo(d, lines[i], s.host.writes[s.replies[i]].out)
  }

  /** `s` is the session at `w`: the bytes buffered and unread are the lines of its replies under way. */
  ghost predicate Shows(d: Device, w: Wired, s: Session, lines: seq<string>, default: Timeval) {
    && Inv(s, default)
    && Genuine(d, s, lines) && |lines| == |s.replies|
    && w.host == s.host && w.clock == s.clock && w.pushed == s.pushed && w.taken == s.taken
    && w.left + w.wire == Join(lines, Stops(|lines|))
  }

  lemma StopsTail(n: nat)
    requires n > 0
    ensures Stops(n)[1..] == Stops(n - 1)
  {}

  /** The bytes are those of whole lines, each ended by the separator. */
  ghost predicate AreLines(d: Device, s: string, lines: seq<string>) {
    && s == Join(lines, Stops(|lines|))
    && forall i | 0 <= i < |lines| :: lines[i] != [] && Clean(lines[i], PacketCut(d))
  }

  /** The first line: either it is not complete in `u`, or `u` goes on behind it. */
  lemma CutOne(d: Device, u: string, v: string, lines: seq<string>) returns (tail: string)
    requires d.Lge? && AreLines(d, u + v, lines)
    ensures lines == [] || |u| <= |lines[0]| ==> Clean(u, PacketCut(d))
    ensures lines != [] && |u| > |lines[0]| ==> u == lines[0] + ['x'] + tail && AreLines(d, tail + v, lines[1..])
  {
    if lines == [] {
      assert Join(lines, Stops(0)) == [];
      tail := [];
    } else {
      var line, later := lines[0], Join(lines[1..], Stops(|lines| - 1));
      StopsTail(|lines|);
      assert u + v == line + ['x'] + later;
      assert forall i | 0 <= i < |u| :: u[i] == (line + ['x'] + later)[i];
      if |u| <= |line| {
        tail := [];
      } else {
        tail := u[|line| + 1..];
        assert u == line + ['x'] + tail;
        assert tail + v == (u + v)[|line| + 1..] == later;
      }
    }
  }

  /** The packets of `u` are the first of `lines`, and with `v` behind them its rest is the others. */
  ghost predicate Cuts(d: Device, u: string, v: string, lines: seq<string>) {
    var f := Pending(d, u);
    && |f.packets| <= |lines| && f.packets == lines[..|f.packets|]
    && AreLines(d, f.rest + v, lines[|f.packets|..])
  }

  lemma CutMore(d: Device, line: string, tail: string, v: string, lines: seq<string>)
    requires d.Lge? && line != [] && Clean(line, PacketCut(d)) && Cuts(d, tail, v, lines)
    ensures Cuts(d, line + ['x'] + tail, v, [line] + lines)
  {
    FrameField(line, 'x', tail, PacketCut(d));
    var packets, all := Pending(d, tail).packets, [line] + lines;
    assert all[..|packets| + 1] == [line] + packets && all[|packets| + 1..] == lines[|packets|..];
  }

  /** A beginning of a stream of whole lines holds the first of them, and the others are still to come. */
  lemma {:induction false} CutLines(d: Device, u: string, v: string, lines: seq<string>)
    requires d.Lge? && AreLines(d, u + v, lines)
    ensures Cuts(d, u, v, lines)
    decreases |lines|
  {
    var tail := CutOne(d, u, v, lines);
    if lines == [] || |u| <= |lines[0]| {
      FrameClean(u, PacketCut(d));
      assert lines[0..] == lines;
    } else {
      CutLines(d, tail, v, lines[1..]);
      CutMore(d, lines[0], tail, v, lines[1..]);
      assert lines == [lines[0]] + lines[1..];
    }
  }

  /** What lines that answer the commands at `replies` say about these. */
  ghost function LineReports(rows: seq<LgeNotify>, ws: seq<Write>, replies: seq<nat>, lines: seq<string>): seq<Report>
    requires |lines| <= |replies| && forall i | 0 <= i < |lines| :: replies[i] < |ws| && |ws[replies[i]].out.data| >= 2
  {
    if lines == [] then []
    else Reports(rows, ws[replies[0]].out.data[..2], lines[0]) + LineReports(rows, ws, replies[1..], lines[1..])
  }

  /** What is reported for a genuine reply is right as far as the match has the answered command's first letter. */
  lemma ReportedFor(s: Session, line: string, rows: seq<LgeNotify>, default: Timeval)
    requires Inv(s, default) && s.replies != [] && line != [] && line[0] == Letter(s.host, s.replies[0])
    ensures Enabled(s, Arrive) && Sane(s.host) && PairedWith(s) < |s.host.writes|
    ensures var answered, matched := s.host.writes[s.replies[0]].out, s.host.writes[PairedWith(s)].out;
            && |matched.data| >= 2
            && LgeReports(s.host, line, rows) == Reports(rows, matched.data[..2], line)
            && (matched.data[0] == answered.data[0] ==>
                  LgeReports(s.host, line, rows) == Reports(rows, answered.data[..2], line))
  {
    MatchNotLater(s, default);
    var answered, matched := s.host.writes[s.replies[0]].out, s.host.writes[PairedWith(s)].out;
    assert matched.data[..2] == [matched.data[0], line[0]];
    assert answered.data[..2] == [answered.data[0], line[0]];
  }

  /** As long as the peer drops nothing, every reply is reported for the command that caused it. */
  lemma NoDropReportsRightly(s: Session, steps: seq<Step>, line: string, rows: seq<LgeNotify>, default: Timeval)
    requires Inv(s, default) && NothingDropped(s) && Legal(s, steps, default)
    requires forall i | 0 <= i < |steps| :: !steps[i].Drop?
    requires var t := Run(s, steps, default);
             t.replies != [] && t.replies[0] < |t.host.writes| && |t.host.writes[t.replies[0]].out.data| >= 2 &&
             line != [] && line[0] == Letter(t.host, t.replies[0])
    ensures var t := Run(s, steps, default);
            && Sane(t.host)
            && LgeReports(t.host, line, rows) == Reports(rows, t.host.writes[t.replies[0]].out.data[..2], line)
  {
    RunKeeps(s, steps, default);
    NoDropPairsRightly(s, steps, default);
    ReportedFor(Run(s, steps, default), line, rows, default);
  }

  /** A genuine line is handled as the arrival of the oldest reply. */
  lemma LineArrives(d: Device, s: Session, lines: seq<string>, default: Timeval)
    requires d.Lge? && Inv(s, default) && Genuine(d, s, lines) && lines != []
    ensures Enabled(s, Arrive) && Inv(Next(s, Arrive, default), default)
    ensures Genuine(d, Next(s, Arrive, default), lines[1..])
    ensures var t := Next(s, Arrive, default);
            && t == s.(host := t.host, replies := s.replies[1..]) && t.host.writes == s.host.writes
            && t.host == Reply(s.host, lines[0][0])
  {
    ArriveKeeps(s, default);
    MatchNotLater(s, default);
    var t := Next(s, Arrive, default);
    assert forall i | 0 <= i < |lines[1..]| :: lines[1..][i] == lines[i + 1] && t.replies[i] == s.replies[i + 1];
  }

  lemma GenuineNonEmpty(d: Device, s: Session, lines: seq<string>)
    requires Genuine(d, s, lines)
    ensures NoneEmpty(lines)
  {}

  /** The first line's share of what a run of lines comes to. */
  lemma FirstLine(d: Device, h: Host, h': Host, lines: seq<string>, now: int, default: Timeval)
    requires d.Lge? && Sane(h) && NoneEmpty(lines) && lines != [] && h' == Reply(h, lines[0][0])
    ensures NoneEmpty(lines[1..])
    ensures UpdateAll(d, Live(h, NO_LAYERS), lines, now, default) ==
            Reporting(LgeReports(h, lines[0], d.notifies),
                           UpdateAll(d, Live(h', NO_LAYERS), lines[1..], now, default))
  {
    NoneEmptyTail(lines);
  }

  lemma ArrivalsStep(s: Session, n: nat, t: Session, default: Timeval)
    requires Enabled(s, Arrive) && t == Next(s, Arrive, default) && Legal(t, Arrivals(n), default)
    ensures Legal(s, Arrivals(n + 1), default) && Run(s, Arrivals(n + 1), default) == Run(t, Arrivals(n), default)
  {
    assert Arrivals(n + 1)[1..] == Arrivals(n);
  }

  /** From `s` to `t` the replies that are `lines` have arrived. */
  ghost predicate Arrived(d: Device, s: Session, t: Session, lines: seq<string>, now: int, default: Timeval)
    requires d.Lge? && NoneEmpty(lines) && Sane(s.host) && |lines| <= |s.replies|
  {
    && Inv(t, default)
    && t == s.(host := t.host, replies := s.replies[|lines|..]) && t.host.writes == s.host.writes
    && UpdateAll(d, Live(s.host, NO_LAYERS), lines, now, default).live == Live(t.host, NO_LAYERS)
  }

  lemma ArrivedStep(d: Device, s: Session, s1: Session, t: Session, lines: seq<string>, now: int, default: Timeval)
    requires d.Lge? && NoneEmpty(lines) && lines != [] && Sane(s.host) && Sane(s1.host) && |lines| <= |s.replies|
    requires s1 == s.(host := s1.host, replies := s.replies[1..]) && s1.host.writes == s.host.writes
    requires s1.host == Reply(s.host, lines[0][0])
    requires NoneEmpty(lines[1..]) && Arrived(d, s1, t, lines[1..], now, default)
    ensures Arrived(d, s, t, lines, now, default)
  {
    FirstLine(d, s.host, s1.host, lines, now, default);
    assert s.replies[1..][|lines| - 1..] == s.replies[|lines|..];
  }

  /** A run of genuine lines is handled as that many arrivals. */
  lemma {:induction false} LinesArrive(d: Device, s: Session, lines: seq<string>, now: int, default: Timeval)
    requires d.Lge? && Inv(s, default) && Genuine(d, s, lines)
    ensures NoneEmpty(lines) && Sane(s.host) && Legal(s, Arrivals(|lines|), default)
    ensures Arrived(d, s, Run(s, Arrivals(|lines|), default), lines, now, default)
    decreases |lines|
  {
    GenuineNonEmpty(d, s, lines);
    if lines != [] {
      var s1, n := Next(s, Arrive, default), |lines| - 1;
      LineArrives(d, s, lines, default);
      LinesArrive(d, s1, lines[1..], now, default);
      ArrivalsStep(s, n, s1, default);
      ArrivedStep(d, s, s1, Run(s1, Arrivals(n), default), lines, now, default);
    }
  }

  /** If the replies find their own commands, each line is reported for the command it answers. */
  lemma {:induction false} LinesReported(d: Device, s: Session, lines: seq<string>, now: int, default: Timeval)
    requires d.Lge? && Inv(s, default) && Genuine(d, s, lines) && FirstApart(s, |lines|)
    ensures NoneEmpty(lines) && Sane(s.host)
    ensures UpdateAll(d, Live(s.host, NO_LAYERS), lines, now, default).reports ==
            LineReports(d.notifies, s.host.writes, s.replies, lines)
    decreases |lines|
  {
    GenuineNonEmpty(d, s, lines);
    if lines != [] {
      var t := Next(s, Arrive, default);
      LineArrives(d, s, lines, default);
      ArrivalPairs(s, |lines| - 1, default);
      ReportedFor(s, lines[0], d.notifies, default);
      LinesReported(d, t, lines[1..], now, default);
      FirstLine(d, s.host, t.host, lines, now, default);
    }
  }

  // ------------------------------------------------------------ every run of the bytes is a run of the session

  lemma OneStep(s: Session, step: Step, default: Timeval)
    requires Enabled(s, step)
    ensures Legal(s, [step], default) && Run(s, [step], default) == Next(s, step, default)
  {
    var t := Next(s, step, default);
    assert [step][1..] == [] && Legal(t, [], default) && Run(t, [], default) == t;
  }

  /** The lines that the next `n` bytes complete. */
  lemma ReadCuts(d: Device, w: Wired, s: Session, lines: seq<string>, n: nat, default: Timeval) returns (k: nat)
    requires d.Lge? && Shows(d, w, s, lines, default) && n <= |w.wire|
    ensures var f := Pending(d, w.left + w.wire[..n]);
            && k == |f.packets| <= |lines| && f.packets == lines[..k]
            && f.rest + w.wire[n..] == Join(lines[k..], Stops(|lines| - k))
    ensures AsSteps(d, w, Reads(n)) == Arrivals(k) && |Arrivals(k)| == k
  {
    var u, v := w.left + w.wire[..n], w.wire[n..];
    assert u + v == w.left + w.wire;
    CutLines(d, u, v, lines);
    k := |Pending(d, u).packets|;
    ArrivalsMany(k);
  }

  lemma LaterGenuine(d: Device, s: Session, t: Session, lines: seq<string>, k: nat)
    requires Genuine(d, s, lines) && k <= |lines| && t.replies == s.replies[k..] && t.host.writes == s.host.writes
    ensures Genuine(d, t, lines[k..])
  {
    assert forall i | 0 <= i < |lines[k..]| :: lines[k..][i] == lines[k + i] && t.replies[i] == s.replies[k + i];
  }

  lemma ReadShows(d: Device, w: Wired, s: Session, lines: seq<string>, n: nat, k: nat, t: Session, default: Timeval)
    requires d.Lge? && Shows(d, w, s, lines, default) && n <= |w.wire| && k <= |lines|
    requires Reading(d, w, n, default).live == Live(t.host, NO_LAYERS)
    requires Pending(d, w.left + w.wire[..n]).rest + w.wire[n..] == Join(lines[k..], Stops(|lines| - k))
    requires Inv(t, default) && t.host.writes == s.host.writes
    requires t == s.(host := t.host, replies := s.replies[k..])
    ensures Shows(d, Done(d, w, Reads(n), default), t, lines[k..], default)
  {
    LaterGenuine(d, s, t, lines, k);
  }

  /** A read completes the first lines of those on their way, and leaves the others. */
  lemma ReadAsSteps(d: Device, w: Wired, s: Session, lines: seq<string>, n: nat, default: Timeval) returns (k: nat)
    requires d.Lge? && Shows(d, w, s, lines, default) && n <= |w.wire|
    ensures AsSteps(d, w, Reads(n)) == Arrivals(k) && k <= |lines| && Legal(s, Arrivals(k), default)
    ensures Shows(d, Done(d, w, Reads(n), default), Run(s, Arrivals(k), default), lines[k..], default)
  {
    k := ReadCuts(d, w, s, lines, n, default);
    LinesArrive(d, s, lines[..k], w.clock, default);
    ReadShows(d, w, s, lines, n, k, Run(s, Arrivals(k), default), default);
  }

  lemma {:induction false} ArrivalsMany(n: nat)
    ensures |Arrivals(n)| == n
  {
    if n > 0 { ArrivalsMany(n - 1); }
  }

  lemma GenuineStays(d: Device, s: Session, t: Session, lines: seq<string>)
    requires Genuine(d, s, lines) && s.host.writes <= t.host.writes && s.replies <= t.replies
    ensures Genuine(d, t, lines)
  {}

  /** An action that leaves the bytes alone is one step of the session. */
  lemma ActIsStep(d: Device, w: Wired, s: Session, lines: seq<string>, a: Doing, default: Timeval)
    requires d.Lge? && Shows(d, w, s, lines, default) && CanDo(d, w, a) && !a.Reads? && !a.Answers?
    ensures Enabled(s, AsStep(a))
    ensures Shows(d, Done(d, w, a, default), Next(s, AsStep(a), default), lines, default)
  {
    WritesGrow(s, AsStep(a), default);
    GenuineStays(d, s, Next(s, AsStep(a), default), lines);
  }

  lemma LinesGrow(left: string, wire: string, lines: seq<string>, line: string)
    requires left + wire == Join(lines, Stops(|lines|))
    ensures left + (wire + (line + ['x'])) == Join(lines + [line], Stops(|lines| + 1))
  {
    JoinSnoc(lines, Stops(|lines|), line, 'x');
    assert Stops(|lines| + 1) == Stops(|lines|) + ['x'];
    Associate(left, wire, line + ['x']);
  }

  /** An answer puts one more line on the wire. */
  lemma AnswerIsStep(d: Device, w: Wired, s: Session, lines: seq<string>, line: string, default: Timeval)
    requires d.Lge? && Shows(d, w, s, lines, default) && CanDo(d, w, Answers(line))
    ensures Enabled(s, Answer)
    ensures Shows(d, Done(d, w, Answers(line), default), Next(s, Answer, default), lines + [line], default)
  {
    WritesGrow(s, Answer, default);
    LinesGrow(w.left, w.wire, lines, line);
  }

  lemma ActAsSteps(d: Device, w: Wired, s: Session, lines: seq<string>, a: Doing, default: Timeval)
    returns (lines': seq<string>)
    requires d.Lge? && Shows(d, w, s, lines, default) && CanDo(d, w, a)
    ensures Legal(s, AsSteps(d, w, a), default)
    ensures Shows(d, Done(d, w, a, default), Run(s, AsSteps(d, w, a), default), lines', default)
  {
    if a.Reads? {
      var k := ReadAsSteps(d, w, s, lines, a.n, default);
      lines' := lines[k..];
    } else {
      if a.Answers? {
        lines' := lines + [a.line];
        AnswerIsStep(d, w, s, lines, a.line, default);
      } else {
        lines' := lines;
        ActIsStep(d, w, s, lines, a, default);
      }
      OneStep(s, AsStep(a), default);
    }
  }

  /**
   * However a host reads an LGE device's replies, whatever it and the peer do between the reads,
   * the run is a run of the session: each read is the arrival of the replies it completes.
   */
  lemma {:induction false} BytesAreSteps(d: Device, w: Wired, s: Session, lines: seq<string>, acts: seq<Doing>,
                                         default: Timeval) returns (lines': seq<string>)
    requires d.Lge? && Shows(d, w, s, lines, default) && CanAll(d, w, acts, default)
    ensures Legal(s, AllSteps(d, w, acts, default), default)
    ensures Shows(d, DoneAll(d, w, acts, default), Run(s, AllSteps(d, w, acts, default), default), lines', default)
    decreases |acts|
  {
    if acts == [] {
      lines' := lines;
    } else {
      var steps, w' := AsSteps(d, w, acts[0]), Done(d, w, acts[0], default);
      var left := ActAsSteps(d, w, s, lines, acts[0], default);
      lines' := BytesAreSteps(d, w', Run(s, steps, default), left, acts[1..], default);
      AllRightAppend(s, steps, AllSteps(d, w', acts[1..], default), default);
    }
  }

  /** The next `n` bytes are reported, line for line, for the commands that the lines answer. */
  ghost predicate ReadsRightly(d: Device, w: Wired, s: Session, lines: seq<string>, n: nat, default: Timeval)
    requires d.Lge? && Shows(d, w, s, lines, default) && n <= |w.wire|
  {
    var k := |AsSteps(d, w, Reads(n))|;
    k <= |lines| && Reading(d, w, n, default).reports == LineReports(d.notifies, s.host.writes, s.replies, lines[..k])
  }

  /** A line just opened. */
  lemma FreshShows(d: Device, s: Session, n: nat, default: Timeval)
    requires Fresh(s)
    ensures Shows(d, Wired(s.host, [], [], s.clock, [], 0), s, [], default)
    ensures FirstApart(s, n) && SinceLast(s) == 0
  {
    FreshApart(s, n, default);
    assert Join([], Stops(0)) == [];
  }

  lemma {:induction false} ArrivalsArrive(n: nat)
    ensures Arriving(Arrivals(n)) == n
  {
    if n > 0 {
      ArrivalsArrive(n - 1);
      HeadTail(Arrive, Arrivals(n - 1));
    }
  }

  lemma ApartReadsRightly(d: Device, w: Wired, s: Session, lines: seq<string>, n: nat, default: Timeval)
    requires d.Lge? && Shows(d, w, s, lines, default) && n <= |w.wire|
    requires FirstApart(s, |AsSteps(d, w, Reads(n))|)
    ensures ReadsRightly(d, w, s, lines, n, default)
  {
    var k := ReadCuts(d, w, s, lines, n, default);
    LinesReported(d, s, lines[..k], w.clock, default);
  }

  /** A read whose arrivals are all paired rightly reports each line for the command it answers. */
  lemma RightReads(d: Device, w: Wired, s: Session, lines: seq<string>, n: nat, default: Timeval)
    requires d.Lge? && Shows(d, w, s, lines, default) && n <= |w.wire|
    ensures Legal(s, AsSteps(d, w, Reads(n)), default)
    ensures AllRight(s, AsSteps(d, w, Reads(n)), default) ==> ReadsRightly(d, w, s, lines, n, default)
  {
    var k := ReadAsSteps(d, w, s, lines, n, default);
    if AllRight(s, Arrivals(k), default) {
      PairsRightlyFrom(s, Arrivals(k), default);
      ArrivalsArrive(k);
      ArrivalsMany(k);
      ApartReadsRightly(d, w, s, lines, n, default);
    }
  }

  /**
   * From the opening of the line, or any other time, whatever is sent and dropped and however the
   * replies are cut into reads: as long as no answered command whose reply has arrived shares its
   * second letter with one dropped since the previous answer, a read reports each line for the
   * command that it answers.
   */
  lemma EveryReadReports(d: Device, w: Wired, s: Session, lines: seq<string>, acts: seq<Doing>, n: nat,
                         default: Timeval) returns (lines': seq<string>)
    requires d.Lge? && Shows(d, w, s, lines, default)
    requires CanAll(d, w, acts, default) && n <= |DoneAll(d, w, acts, default).wire|
    ensures Legal(s, AllSteps(d, w, acts, default), default)
    ensures var w', steps := DoneAll(d, w, acts, default), AllSteps(d, w, acts, default);
            var all := steps + AsSteps(d, w', Reads(n));
            && Shows(d, w', Run(s, steps, default), lines', default)
            && Legal(s, all, default)
            && (FirstApart(s, Arriving(all)) && Separate(s, all, SinceLast(s), default) ==>
                  ReadsRightly(d, w', Run(s, steps, default), lines', n, default))
  {
    lines' := BytesAreSteps(d, w, s, lines, acts, default);
    var w', steps := DoneAll(d, w, acts, default), AllSteps(d, w, acts, default);
    var last := AsSteps(d, w', Reads(n));
    RightReads(d, w', Run(s, steps, default), lines', n, default);
    AllRightAppend(s, steps, last, default);
    PairsRightlyFrom(s, steps + last, default);
  }
}
