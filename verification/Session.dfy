/**
 * One open/close session with a device: the throttled output queue (backend.cc) and the pairing
 * of replies with outstanding commands (lge_status.cc), as a step system with a peer that
 * answers in order but may silently drop commands.
 */
module Sessions {
  import opened Options
  import opened OutputLists
  import opened Sequences

  /** A message written to the device, and when (microseconds). */
  datatype Write = Write(out: Output, at: int)

  /**
   * The host: everything written so far, how many of those messages are no longer
   * outstanding, the messages not yet written, and when the write timer is due, if pending.
   */
  datatype Host = Host(writes: seq<Write>, popped: nat, unsent: seq<Output>, due: Option<int>)

  const FRESH := Host([], 0, [], None)

  function Written(ws: seq<Write>): (os: seq<Output>)
    ensures |os| == |ws| && forall i | 0 <= i < |ws| :: os[i] == ws[i].out
  {
    seq(|ws|, i requires 0 <= i < |ws| => ws[i].out)
  }

  predicate Sane(h: Host) { h.popped <= |h.writes| }

  /** The messages written and still outstanding, oldest first. */
  function Sent(h: Host): seq<Output>
    requires Sane(h)
  {
    Written(h.writes)[h.popped..]
  }

  /** C division truncates toward zero. */
  function TruncDiv(a: int, b: int): int
    requires b > 0
  {
    if a >= 0 then a / b else -(-a / b)
  }

  /** The default pause of a device configured with `ms` milliseconds. */
  function DefaultThrottle(ms: int): (t: Timeval)
    ensures t.Micros() == ms * 1000
  {
    Timeval(TruncDiv(ms, 1000), (ms - TruncDiv(ms, 1000) * 1000) * 1000)
  }

  /** How long the device is left alone after `o`: what `o` asks for, or the device's default. */
  function Pause(o: Output, default: Timeval): int {
    if o.throttle.sec > 0 || o.throttle.usec > 0 then o.throttle.Micros() else default.Micros()
  }

  /** Write the first waiting message, if any, and set the timer to the end of its pause. */
  function WriteNext(h: Host, now: int, default: Timeval): Host {
    if h.unsent == [] then h
    else
      var o := h.unsent[0];
      Host(h.writes + [Write(o, now)], h.popped, h.unsent[1..], Some(now + Pause(o, default)))
  }

  /** A message is queued; it is written at once unless the timer is pending. */
  function Push(h: Host, now: int, o: Output, default: Timeval): Host {
    var h := h.(unsent := h.unsent + [o]);
    if h.due.Some? then h else WriteNext(h, now, default)
  }

  /** The timer fires: it is no longer pending when its callback runs. */
  function Fire(h: Host, now: int, default: Timeval): Host {
    WriteNext(h.(due := None), now, default)
  }

  /** Whether a reply that starts with `letter` may belong to `o`. */
  predicate Answers(o: Output, letter: char) {
    |o.data| >= 2 && o.data[1] == letter
  }

  /** The first write from `i` on that a reply starting with `letter` may belong to. */
  function Match(ws: seq<Write>, i: nat, letter: char): (k: nat)
    requires i <= |ws|
    ensures i <= k <= |ws|
    ensures forall j | i <= j < k :: !Answers(ws[j].out, letter)
    ensures k < |ws| ==> Answers(ws[k].out, letter)
    decreases |ws| - i
  {
    if i == |ws| || Answers(ws[i].out, letter) then i else Match(ws, i + 1, letter)
  }

  /** Outstanding messages are removed up to and with the match; all of them when there is none. */
  function Reply(h: Host, letter: char): Host
    requires Sane(h)
  {
    var k := Match(h.writes, h.popped, letter);
    h.(popped := if k < |h.writes| then k + 1 else k)
  }

  // ------------------------------------------------------------ the step system

  /**
   * The host, the clock, every message ever queued, and the peer: how many of the written
   * commands it has consumed, and the commands (as positions in `writes`) whose replies are
   * under way.
   */
  datatype Session = Session(host: Host, clock: int, pushed: seq<Output>, taken: nat, replies: seq<nat>)

  datatype Step =
    | Queue(at: int, out: Output)      // send
    | Timer(at: int)                   // the write timer fires
    | Answer                           // the peer consumes a command and answers it
    | Drop                             // the peer consumes a command and stays silent
    | Arrive                           // the oldest reply under way reaches the host

  /** The first letter of the reply to the command at position `r`: the command's second letter. */
  function Letter(h: Host, r: nat): char
    requires r < |h.writes| && |h.writes[r].out.data| >= 2
  {
    h.writes[r].out.data[1]
  }

  predicate Enabled(s: Session, step: Step) {
    match step
    case Queue(at, _) => at >= s.clock
    case Timer(at) => at >= s.clock && s.host.due.Some? && at >= s.host.due.value
    case Answer => s.taken < |s.host.writes| && |s.host.writes[s.taken].out.data| >= 2
    case Drop => s.taken < |s.host.writes|
    case Arrive =>
      Sane(s.host) && s.replies != [] && s.replies[0] < |s.host.writes| &&
      |s.host.writes[s.replies[0]].out.data| >= 2
  }

  function Next(s: Session, step: Step, default: Timeval): Session
    requires Enabled(s, step)
  {
    match step
    case Queue(at, o) => s.(host := Push(s.host, at, o, default), clock := at, pushed := s.pushed + [o])
    case Timer(at) => s.(host := Fire(s.host, at, default), clock := at)
    case Answer => s.(taken := s.taken + 1, replies := s.replies + [s.taken])
    case Drop => s.(taken := s.taken + 1)
    case Arrive => s.(host := Reply(s.host, Letter(s.host, s.replies[0])), replies := s.replies[1..])
  }

  ghost predicate Legal(s: Session, steps: seq<Step>, default: Timeval)
    decreases |steps|
  {
    steps == [] || (Enabled(s, steps[0]) && Legal(Next(s, steps[0], default), steps[1..], default))
  }

  ghost function Run(s: Session, steps: seq<Step>, default: Timeval): Session
    requires Legal(s, steps, default)
    decreases |steps|
  {
    if steps == [] then s else Run(Next(s, steps[0], default), steps[1..], default)
  }

  function Opened(now: int): Session { Session(FRESH, now, [], 0, []) }

  // ------------------------------------------------------------ what every step keeps

  /** Nothing is lost, duplicated or reordered: what was queued is what was written, then what waits. */
  ghost predicate Conserved(s: Session) {
    s.pushed == Written(s.host.writes) + s.host.unsent
  }

  /** The earliest time for a write after `w`. */
  function Free(w: Write, default: Timeval): int { w.at + Pause(w.out, default) }

  /** Consecutive writes are at least the earlier one's pause apart. */
  ghost predicate Spaced(ws: seq<Write>, default: Timeval) {
    forall i {:trigger Free(ws[i], default)} | 0 <= i < |ws| - 1 :: ws[i + 1].at >= Free(ws[i], default)
  }

  /** The timer is pending while anything waits, and it guards the pause after the last write. */
  ghost predicate Guarded(h: Host, clock: int, default: Timeval) {
    && (h.unsent != [] ==> h.due.Some?)
    && (h.writes == [] ==> h.due.None?)
    && (h.writes != [] ==>
          var free := Free(h.writes[|h.writes| - 1], default);
          if h.due.Some? then h.due.value == free else clock >= free)
  }

  /** Every command whose reply is under way is still outstanding, and replies come in the order of the commands. */
  ghost predicate Outstanding(replies: seq<nat>, popped: nat, taken: nat, ws: seq<Write>) {
    && popped <= taken <= |ws|
    && (forall i | 0 <= i < |replies| :: popped <= replies[i] < taken && |ws[replies[i]].out.data| >= 2)
    && (forall i, j | 0 <= i < j < |replies| :: replies[i] < replies[j])
  }

  ghost predicate Inv(s: Session, default: Timeval) {
    && Conserved(s)
    && Spaced(s.host.writes, default)
    && Guarded(s.host, s.clock, default)
    && Outstanding(s.replies, s.host.popped, s.taken, s.host.writes)
  }

  lemma WriteNextKeeps(h: Host, now: int, default: Timeval)
    requires Spaced(h.writes, default)
    requires h.writes != [] ==> now >= Free(h.writes[|h.writes| - 1], default)
    requires h.due.None?
    ensures var h' := WriteNext(h, now, default);
            && Written(h'.writes) + h'.unsent == Written(h.writes) + h.unsent
            && Spaced(h'.writes, default) && Guarded(h', now, default)
            && h.writes <= h'.writes && h'.popped == h.popped
  {
    if h.unsent != [] {
      var h' := WriteNext(h, now, default);
      assert h.unsent == [h.unsent[0]] + h.unsent[1..];
      assert Written(h'.writes) == Written(h.writes) + [h.unsent[0]];
    }
  }

  /** A message queued at any time stays behind the ones before it, and is written in time. */
  lemma PushKeeps(h: Host, clock: int, now: int, o: Output, default: Timeval)
    requires Spaced(h.writes, default) && Guarded(h, clock, default) && clock <= now
    ensures var h' := Push(h, now, o, default);
            && Written(h'.writes) + h'.unsent == Written(h.writes) + h.unsent + [o]
            && Spaced(h'.writes, default) && Guarded(h', now, default)
            && h.writes <= h'.writes && h'.popped == h.popped
  {
    var queued := h.(unsent := h.unsent + [o]);
    Associate(Written(h.writes), h.unsent, [o]);
    if h.due.None? {
      WriteNextKeeps(queued, now, default);
      assert Push(h, now, o, default) == WriteNext(queued, now, default);
    } else {
      assert Push(h, now, o, default) == queued;
    }
  }

  /** The timer firing when it is due. */
  lemma FireKeeps(h: Host, clock: int, now: int, default: Timeval)
    requires Spaced(h.writes, default) && Guarded(h, clock, default) && clock <= now
    requires h.due.Some? && now >= h.due.value
    ensures var h' := Fire(h, now, default);
            && Written(h'.writes) + h'.unsent == Written(h.writes) + h.unsent
            && Spaced(h'.writes, default) && Guarded(h', now, default)
            && h.writes <= h'.writes && h'.popped == h.popped
  {
    WriteNextKeeps(h.(due := None), now, default);
  }

  lemma QueueKeeps(s: Session, at: int, o: Output, default: Timeval)
    requires Inv(s, default) && at >= s.clock
    ensures Inv(Next(s, Queue(at, o), default), default)
  {
    PushKeeps(s.host, s.clock, at, o, default);
  }

  lemma TimerKeeps(s: Session, at: int, default: Timeval)
    requires Inv(s, default) && Enabled(s, Timer(at))
    ensures Inv(Next(s, Timer(at), default), default)
  {
    FireKeeps(s.host, s.clock, at, default);
  }

  /** The command the oldest reply under way is taken to answer. */
  function PairedWith(s: Session): (k: nat)
    requires Enabled(s, Arrive)
    ensures s.host.popped <= k <= |s.host.writes|
  {
    Match(s.host.writes, s.host.popped, Letter(s.host, s.replies[0]))
  }

  lemma MatchNotLater(s: Session, default: Timeval)
    requires Inv(s, default) && s.replies != []
    ensures Enabled(s, Arrive)
    ensures var k := PairedWith(s);
            && k <= s.replies[0] && Answers(s.host.writes[k].out, Letter(s.host, s.replies[0]))
            && Next(s, Arrive, default) == s.(host := s.host.(popped := k + 1), replies := s.replies[1..])
  {
    assert Answers(s.host.writes[s.replies[0]].out, Letter(s.host, s.replies[0]));
  }

  /**
   * From `h` to `h'` exactly the outstanding commands up to position `k` have been removed, so
   * that, `k` not being behind `r`, every command after `r` is still outstanding.
   */
  ghost predicate RemovedUpTo(h: Host, h': Host, k: nat, r: nat) {
    && h.popped <= k <= r < |h.writes|
    && h' == h.(popped := k + 1)
    && Sent(h') == Sent(h)[k + 1 - h.popped..]
    && Written(h.writes[r + 1..]) == Sent(h')[r - k..]
  }

  lemma Removes(h: Host, k: nat, r: nat)
    requires h.popped <= k <= r < |h.writes|
    ensures RemovedUpTo(h, h.(popped := k + 1), k, r)
  {}

  /**
   * A genuine reply: it finds a match among the outstanding commands, never later than the
   * command really answered, and removes exactly the commands up to the match.
   */
  lemma ReplyMatches(s: Session, default: Timeval)
    requires Inv(s, default) && s.replies != []
    ensures Enabled(s, Arrive)
    ensures RemovedUpTo(s.host, Next(s, Arrive, default).host, PairedWith(s), s.replies[0])
    ensures Answers(s.host.writes[PairedWith(s)].out, Letter(s.host, s.replies[0]))
  {
    MatchNotLater(s, default);
    Removes(s.host, PairedWith(s), s.replies[0]);
  }

  lemma OldestArrives(replies: seq<nat>, popped: nat, taken: nat, ws: seq<Write>, popped': nat)
    requires Outstanding(replies, popped, taken, ws) && replies != [] && popped' <= replies[0] + 1
    ensures Outstanding(replies[1..], popped', taken, ws)
  {
    assert forall i | 0 <= i < |replies[1..]| :: replies[1..][i] == replies[i + 1] > replies[0];
  }

  lemma ArriveKeeps(s: Session, default: Timeval)
    requires Inv(s, default) && s.replies != []
    ensures Enabled(s, Arrive) && Inv(Next(s, Arrive, default), default)
  {
    MatchNotLater(s, default);
    OldestArrives(s.replies, s.host.popped, s.taken, s.host.writes, Next(s, Arrive, default).host.popped);
  }

  lemma ConsumeKeeps(s: Session, step: Step, default: Timeval)
    requires Inv(s, default) && Enabled(s, step) && (step.Answer? || step.Drop?)
    ensures Inv(Next(s, step, default), default)
  {
    var s' := Next(s, step, default);
    assert s'.host == s.host && s'.clock == s.clock && s'.pushed == s.pushed;
    assert s'.replies == if step.Answer? then s.replies + [s.taken] else s.replies;
    assert Outstanding(s'.replies, s'.host.popped, s'.taken, s'.host.writes);
  }

  lemma StepKeeps(s: Session, step: Step, default: Timeval)
    requires Inv(s, default) && Enabled(s, step)
    ensures Inv(Next(s, step, default), default)
  {
    match step
    case Queue(at, o) => QueueKeeps(s, at, o, default);
    case Timer(at) => TimerKeeps(s, at, default);
    case Answer => ConsumeKeeps(s, step, default);
    case Drop => ConsumeKeeps(s, step, default);
    case Arrive => ArriveKeeps(s, default);
  }

  /**
   * Over every run of a session: conservation and order of messages, spacing of writes, no
   * message stuck without a timer, and every reply's command outstanding until it arrives.
   */
  lemma {:induction false} RunKeeps(s: Session, steps: seq<Step>, default: Timeval)
    requires Inv(s, default) && Legal(s, steps, default)
    ensures Inv(Run(s, steps, default), default)
    decreases |steps|
  {
    if steps != [] {
      StepKeeps(s, steps[0], default);
      RunKeeps(Next(s, steps[0], default), steps[1..], default);
    }
  }

  lemma EverySession(now: int, steps: seq<Step>, default: Timeval)
    requires Legal(Opened(now), steps, default)
    ensures Inv(Run(Opened(now), steps, default), default)
  {
    assert Inv(Opened(now), default);
    RunKeeps(Opened(now), steps, default);
  }

  // ------------------------------------------------------------ how long the device is left alone

  /** A write is followed by the pause its message asks for, or by the configured one, before the timer is due. */
  lemma WriteTimes(h: Host, now: int, ms: int)
    requires h.unsent != []
    ensures var h', o := WriteNext(h, now, DefaultThrottle(ms)), h.unsent[0];
            && h'.writes == h.writes + [Write(o, now)] && h'.unsent == h.unsent[1..] && h'.popped == h.popped
            && h'.due == Some(now + if o.throttle.sec > 0 || o.throttle.usec > 0
                                    then o.throttle.sec * 1_000_000 + o.throttle.usec else ms * 1000)
  {}

  /** What spacing and the timer's guard come to in microseconds. */
  lemma PausesKept(h: Host, clock: int, ms: int)
    requires Spaced(h.writes, DefaultThrottle(ms)) && Guarded(h, clock, DefaultThrottle(ms))
    ensures forall i {:trigger h.writes[i].out} | 0 <= i < |h.writes| - 1 ::
              var t := h.writes[i].out.throttle;
              h.writes[i + 1].at - h.writes[i].at >=
              if t.sec > 0 || t.usec > 0 then t.sec * 1_000_000 + t.usec else ms * 1000
    ensures h.writes != [] && h.due.Some? ==>
              var w := h.writes[|h.writes| - 1];
              var t := w.out.throttle;
              h.due.value - w.at == if t.sec > 0 || t.usec > 0 then t.sec * 1_000_000 + t.usec else ms * 1000
  {
    forall i | 0 <= i < |h.writes| - 1
      ensures var t := h.writes[i].out.throttle;
              h.writes[i + 1].at - h.writes[i].at >=
              if t.sec > 0 || t.usec > 0 then t.sec * 1_000_000 + t.usec else ms * 1000
    {
      assert h.writes[i + 1].at >= Free(h.writes[i], DefaultThrottle(ms));
    }
  }

  /**
   * In every state of every run of a session with a device configured for `ms` milliseconds, from
   * the opening of the line (`FreshApart`) or any state with the invariant, a write comes no sooner
   * after the one before than that one's message asks for, or else than the configured time; and
   * the timer is due exactly then after the last one.
   */
  lemma EveryPause(s: Session, steps: seq<Step>, ms: int)
    requires Inv(s, DefaultThrottle(ms)) && Legal(s, steps, DefaultThrottle(ms))
    ensures var h := Run(s, steps, DefaultThrottle(ms)).host;
            && (forall i {:trigger h.writes[i].out} | 0 <= i < |h.writes| - 1 ::
                  var t := h.writes[i].out.throttle;
                  h.writes[i + 1].at - h.writes[i].at >=
                  if t.sec > 0 || t.usec > 0 then t.sec * 1_000_000 + t.usec else ms * 1000)
            && (h.writes != [] && h.due.Some? ==>
                  var w := h.writes[|h.writes| - 1];
                  var t := w.out.throttle;
                  h.due.value - w.at == if t.sec > 0 || t.usec > 0 then t.sec * 1_000_000 + t.usec else ms * 1000)
  {
    RunKeeps(s, steps, DefaultThrottle(ms));
    var t := Run(s, steps, DefaultThrottle(ms));
    PausesKept(t.host, t.clock, ms);
  }

  // ------------------------------------------------------------ which command a reply is paired with

  /** No command from position `from` up to the answered one at `r` has that one's second letter. */
  ghost predicate Apart(ws: seq<Write>, from: nat, r: nat)
    requires r < |ws| && |ws[r].out.data| >= 2
  {
    forall i | from <= i < r :: !Answers(ws[i].out, ws[r].out.data[1])
  }

  /** Where the commands begin that the `j`-th reply under way could be taken to answer when it arrives. */
  ghost function Since(replies: seq<nat>, popped: nat, j: nat): nat
    requires j <= |replies|
  {
    if j == 0 then popped else replies[j - 1] + 1
  }

  /** Where the commands begin that the peer consumed after its last answer, as far as they are outstanding. */
  ghost function SinceLast(s: Session): nat { Since(s.replies, s.host.popped, |s.replies|) }

  /** The `j`-th reply under way will find its own command first, if those before it do. */
  ghost predicate ApartAt(s: Session, j: nat)
    requires Outstanding(s.replies, s.host.popped, s.taken, s.host.writes) && j < |s.replies|
  {
    Apart(s.host.writes, Since(s.replies, s.host.popped, j), s.replies[j])
  }

  /** The next `n` replies under way will find their own commands. */
  ghost predicate FirstApart(s: Session, n: nat)
    requires Outstanding(s.replies, s.host.popped, s.taken, s.host.writes)
  {
    forall j | 0 <= j < |s.replies| && j < n :: ApartAt(s, j)
  }

  /** How many replies arrive in a run. */
  function Arriving(steps: seq<Step>): nat {
    if steps == [] then 0 else (if steps[0].Arrive? then 1 else 0) + Arriving(steps[1..])
  }

  /**
   * Whenever the peer answers a command during the run and the reply arrives before its end, that
   * command's second letter differs from the second letters of the commands dropped since the
   * previous answer, which begin at `from`. The reply arrives if more arrivals follow than replies
   * are under way.
   */
  ghost predicate Separate(s: Session, steps: seq<Step>, from: nat, default: Timeval)
    requires Legal(s, steps, default)
    decreases |steps|
  {
    steps == [] ||
    (&& (steps[0].Answer? && |s.replies| < Arriving(steps[1..]) ==> Apart(s.host.writes, from, s.taken))
     && Separate(Next(s, steps[0], default), steps[1..], if steps[0].Answer? then s.taken + 1 else from, default))
  }

  /** Every reply that arrives during the run is paired with the command it answers. */
  ghost predicate AllRight(s: Session, steps: seq<Step>, default: Timeval)
    requires Legal(s, steps, default)
    decreases |steps|
  {
    steps == [] ||
    (&& (steps[0].Arrive? ==> PairedWith(s) == s.replies[0])
     && AllRight(Next(s, steps[0], default), steps[1..], default))
  }

  lemma WritesGrow(s: Session, step: Step, default: Timeval)
    requires Inv(s, default) && Enabled(s, step)
    ensures Inv(Next(s, step, default), default)
    ensures s.host.writes <= Next(s, step, default).host.writes
    ensures !step.Arrive? ==> Next(s, step, default).host.popped == s.host.popped
  {
    StepKeeps(s, step, default);
    match step
    case Queue(at, o) => PushKeeps(s.host, s.clock, at, o, default);
    case Timer(at) => FireKeeps(s.host, s.clock, at, default);
    case _ =>
  }

  /** `t` is `s` with its oldest reply paired rightly. */
  ghost predicate PairedOff(s: Session, t: Session) {
    s.replies != [] && t == s.(host := s.host.(popped := s.replies[0] + 1), replies := s.replies[1..])
  }

  lemma NextApart(s: Session, t: Session, j: nat)
    requires Outstanding(s.replies, s.host.popped, s.taken, s.host.writes) && PairedOff(s, t)
    requires Outstanding(t.replies, t.host.popped, t.taken, t.host.writes) && j < |t.replies|
    ensures ApartAt(t, j) <==> ApartAt(s, j + 1)
  {}

  /** After a reply has been paired rightly, the next ones see what they saw before. */
  lemma RestApart(s: Session, t: Session, n: nat)
    requires Outstanding(s.replies, s.host.popped, s.taken, s.host.writes) && PairedOff(s, t)
    requires Outstanding(t.replies, t.host.popped, t.taken, t.host.writes)
    ensures FirstApart(s, n + 1) <==> ApartAt(s, 0) && FirstApart(t, n)
  {
    if FirstApart(s, n + 1) {
      forall j | 0 <= j < |t.replies| && j < n
        ensures ApartAt(t, j)
      {
        assert ApartAt(s, j + 1);
        NextApart(s, t, j);
      }
    }
    if ApartAt(s, 0) && FirstApart(t, n) {
      forall j | 0 <= j < |s.replies| && j < n + 1
        ensures ApartAt(s, j)
      {
        if j > 0 {
          assert ApartAt(t, j - 1);
          NextApart(s, t, j - 1);
        }
      }
    }
  }

  /** A reply is paired rightly exactly if it finds its own command first. */
  lemma ArrivalPairs(s: Session, n: nat, default: Timeval)
    requires Inv(s, default) && s.replies != []
    ensures Enabled(s, Arrive) && Inv(Next(s, Arrive, default), default)
    ensures FirstApart(s, n + 1) <==> PairedWith(s) == s.replies[0] && FirstApart(Next(s, Arrive, default), n)
    ensures PairedWith(s) == s.replies[0] ==> SinceLast(Next(s, Arrive, default)) == SinceLast(s)
  {
    ArriveKeeps(s, default);
    MatchNotLater(s, default);
    assert PairedWith(s) == s.replies[0] <==> ApartAt(s, 0);
    if PairedWith(s) == s.replies[0] {
      RestApart(s, Next(s, Arrive, default), n);
    }
  }

  /** Replies under way find what they found before, whatever is written or consumed. */
  lemma SameReplies(s: Session, t: Session, j: nat)
    requires Outstanding(s.replies, s.host.popped, s.taken, s.host.writes) && j < |s.replies|
    requires Outstanding(t.replies, t.host.popped, t.taken, t.host.writes)
    requires s.host.writes <= t.host.writes && s.host.popped == t.host.popped && s.replies <= t.replies
    ensures ApartAt(t, j) <==> ApartAt(s, j)
  {}

  /** A new answer will find its own command first if that one is apart from those dropped before it. */
  lemma AnswerPairs(s: Session, n: nat, default: Timeval)
    requires Inv(s, default) && Enabled(s, Answer)
    ensures Inv(Next(s, Answer, default), default) && SinceLast(Next(s, Answer, default)) == s.taken + 1
    ensures FirstApart(Next(s, Answer, default), n) <==>
            FirstApart(s, n) && (|s.replies| < n ==> Apart(s.host.writes, SinceLast(s), s.taken))
  {
    WritesGrow(s, Answer, default);
    var t, m := Next(s, Answer, default), |s.replies|;
    forall j | 0 <= j < m
      ensures ApartAt(t, j) <==> ApartAt(s, j)
    {
      SameReplies(s, t, j);
    }
    assert ApartAt(t, m) <==> Apart(s.host.writes, SinceLast(s), s.taken);
  }

  /** Other steps change nothing in that. */
  lemma OtherPairs(s: Session, step: Step, n: nat, default: Timeval)
    requires Inv(s, default) && Enabled(s, step) && !step.Arrive? && !step.Answer?
    ensures Inv(Next(s, step, default), default) && SinceLast(Next(s, step, default)) == SinceLast(s)
    ensures FirstApart(Next(s, step, default), n) <==> FirstApart(s, n)
  {
    WritesGrow(s, step, default);
    var t := Next(s, step, default);
    forall j | 0 <= j < |s.replies|
      ensures ApartAt(t, j) <==> ApartAt(s, j)
    {
      SameReplies(s, t, j);
    }
  }

  /**
   * Which runs pair every reply that arrives with the command it answers: those in which the
   * replies already under way find their own commands, as far as they arrive, and the answers
   * still to come are apart from the drops before them, as far as they arrive.
   */
  lemma {:induction false} PairsRightlyFrom(s: Session, steps: seq<Step>, default: Timeval)
    requires Inv(s, default) && Legal(s, steps, default)
    ensures AllRight(s, steps, default) <==>
            FirstApart(s, Arriving(steps)) && Separate(s, steps, SinceLast(s), default)
    decreases |steps|
  {
    if steps != [] {
      var step, rest := steps[0], steps[1..];
      if step.Arrive? {
        ArrivalPairs(s, Arriving(rest), default);
      } else if step.Answer? {
        AnswerPairs(s, Arriving(rest), default);
      } else {
        OtherPairs(s, step, Arriving(rest), default);
      }
      PairsRightlyFrom(Next(s, step, default), rest, default);
    }
  }

  lemma {:induction false} AllRightAppend(s: Session, a: seq<Step>, b: seq<Step>, default: Timeval)
    requires Legal(s, a, default) && Legal(Run(s, a, default), b, default)
    ensures Legal(s, a + b, default) && Run(s, a + b, default) == Run(Run(s, a, default), b, default)
    ensures AllRight(s, a + b, default) <==> AllRight(s, a, default) && AllRight(Run(s, a, default), b, default)
    decreases |a|
  {
    if a == [] {
      assert a + b == b;
    } else {
      assert (a + b)[1..] == a[1..] + b;
      AllRightAppend(Next(s, a[0], default), a[1..], b, default);
    }
  }

  predicate Fresh(s: Session) { s == Opened(s.clock) }

  lemma FreshApart(s: Session, n: nat, default: Timeval)
    requires Fresh(s)
    ensures Inv(s, default) && FirstApart(s, n) && SinceLast(s) == 0
  {}

  /**
   * From the opening of the line, every reply that arrives is paired with the command that caused
   * it exactly in the runs in which each answered command whose reply arrives differs in its second
   * letter from every command dropped since the previous answer.
   */
  lemma PairsRightly(s: Session, steps: seq<Step>, default: Timeval)
    requires Fresh(s) && Legal(s, steps, default)
    ensures AllRight(s, steps, default) <==> Separate(s, steps, 0, default)
  {
    FreshApart(s, Arriving(steps), default);
    PairsRightlyFrom(s, steps, default);
  }

  /** With a peer that has dropped nothing, the replies under way answer exactly the consumed outstanding commands. */
  ghost predicate NothingDropped(s: Session) {
    && s.host.popped + |s.replies| == s.taken
    && forall i | 0 <= i < |s.replies| :: s.replies[i] == s.host.popped + i
  }

  lemma NoDropKeeps(s: Session, step: Step, default: Timeval)
    requires Inv(s, default) && NothingDropped(s) && Enabled(s, step) && !step.Drop?
    ensures NothingDropped(Next(s, step, default))
  {
    if step.Arrive? {
      MatchNotLater(s, default);
    }
  }

  /** As long as the peer drops nothing, every reply is paired with the command that caused it. */
  lemma {:induction false} NoDropPairsRightly(s: Session, steps: seq<Step>, default: Timeval)
    requires Inv(s, default) && NothingDropped(s) && Legal(s, steps, default)
    requires forall i | 0 <= i < |steps| :: !steps[i].Drop?
    ensures var t := Run(s, steps, default);
            NothingDropped(t) && (t.replies != [] ==> Enabled(t, Arrive) && PairedWith(t) == t.replies[0])
    decreases |steps|
  {
    if steps == [] {
      if s.replies != [] { MatchNotLater(s, default); }
    } else {
      StepKeeps(s, steps[0], default);
      NoDropKeeps(s, steps[0], default);
      NoDropPairsRightly(Next(s, steps[0], default), steps[1..], default);
    }
  }

  /** A run without drops is separate, whatever the commands' letters. */
  lemma {:induction false} NoDropSeparate(s: Session, steps: seq<Step>, default: Timeval)
    requires Legal(s, steps, default) && forall i | 0 <= i < |steps| :: !steps[i].Drop?
    ensures Separate(s, steps, s.taken, default)
    decreases |steps|
  {
    if steps != [] {
      NoDropSeparate(Next(s, steps[0], default), steps[1..], default);
    }
  }

  /**
   * A single dropped command is enough to pair a reply wrongly: if two commands share their
   * second letter and the first is dropped, the reply to the second is taken for the first's.
   */
  lemma DropMispairs(first: Output, second: Output, letter: char, default: Timeval)
    requires Answers(first, letter) && Answers(second, letter) && Pause(first, default) >= 0
    ensures var steps := [Queue(0, first), Queue(0, second), Timer(Pause(first, default)), Drop, Answer];
            && Legal(Opened(0), steps, default)
            && var s := Run(Opened(0), steps, default);
               Enabled(s, Arrive) && s.replies == [1] && PairedWith(s) == 0
  {
    var p := Pause(first, default);
    var s1 := Next(Opened(0), Queue(0, first), default);
    var s2 := Next(s1, Queue(0, second), default);
    var s3 := Next(s2, Timer(p), default);
    var s4 := Next(s3, Drop, default);
    var s5 := Next(s4, Answer, default);
    assert s5.host.writes == [Write(first, 0), Write(second, p)] && s5.host.popped == 0;
    Runs(s4, Answer, [], s5, s5, default);
    Runs(s3, Drop, [Answer], s4, s5, default);
    Runs(s2, Timer(p), [Drop, Answer], s3, s5, default);
    Runs(s1, Queue(0, second), [Timer(p), Drop, Answer], s2, s5, default);
    Runs(Opened(0), Queue(0, first), [Queue(0, second), Timer(p), Drop, Answer], s1, s5, default);
    assert [Queue(0, first)] + [Queue(0, second), Timer(p), Drop, Answer] ==
           [Queue(0, first), Queue(0, second), Timer(p), Drop, Answer];
  }

  lemma Runs(s: Session, step: Step, steps: seq<Step>, t: Session, u: Session, default: Timeval)
    requires Enabled(s, step) && t == Next(s, step, default)
    requires Legal(t, steps, default) && Run(t, steps, default) == u
    ensures Legal(s, [step] + steps, default) && Run(s, [step] + steps, default) == u
  {
    assert ([step] + steps)[1..] == steps;
  }

  // ------------------------------------------------------------ draining by the timer alone

  /** The timer firing at each of `times`. */
  function FireAll(h: Host, times: seq<int>, default: Timeval): Host
    decreases |times|
  {
    if times == [] then h else FireAll(Fire(h, times[0], default), times[1..], default)
  }

  /**
   * With no further messages each firing writes the next one, so exactly as many firings as
   * there are waiting messages empty the queue.
   */
  lemma {:induction false} TimerDrains(h: Host, times: seq<int>, default: Timeval)
    requires |times| <= |h.unsent| && (h.unsent != [] ==> h.due.Some?)
    ensures var h' := FireAll(h, times, default);
            && h'.unsent == h.unsent[|times|..]
            && Written(h'.writes) == Written(h.writes) + h.unsent[..|times|]
            && h'.popped == h.popped
            && (h'.unsent == [] <==> |times| == |h.unsent|)
            && (h'.unsent != [] ==> h'.due.Some?)
    decreases |times|
  {
    if times != [] {
      var f := Fire(h, times[0], default);
      assert Written(f.writes) == Written(h.writes) + [h.unsent[0]];
      TimerDrains(f, times[1..], default);
    }
  }
}
