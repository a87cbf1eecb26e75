/**
 * The client's side of subscriptions (cli_notify.c): a list of what the user watches, a STRT for
 * every entry, a STOP when the last entry for a code goes, and the dispatch of STAT lines; and
 * the agreement of that list with what the server holds.
 */
module NotifyClient {
  import opened Options
  import opened Sequences
  import opened Codec
  import opened Registry
  import opened Subscriptions

  /** An entry of the list; with `once` it goes after the first report. */
  datatype Watch = Watch(name: string, code: string, once: bool)

  /** A call of a watch's callback with the text behind the code. */
  datatype Call = Call(watch: Watch, val: string)

  /** Codes are written and compared by their first four characters. */
  ghost predicate Coded(ws: seq<Watch>) { forall i | 0 <= i < |ws| :: |ws[i].code| >= 4 }

  predicate Watches(ws: seq<Watch>, code: string) { exists i :: 0 <= i < |ws| && ws[i].code == code }

  /** The line, if any, that tells the server that watch `k` goes. */
  function StopLine(ws: seq<Watch>, k: nat): seq<string>
    requires k < |ws| && |ws[k].code| >= 4
  {
    if Watches(Without(ws, k), ws[k].code) then [] else ["STOP" + ws[k].code[..4]]
  }

  function StartLine(w: Watch): string
    requires |w.code| >= 4
  {
    "STRT" + w.code[..4]
  }

  // ------------------------------------------------------------ the dispatch of a report

  predicate IsReport(line: string) { |line| >= 8 && line[..4] == "STAT" }

  /** From position `i`, the first watch with the code that goes after a report; or the end of the list. */
  function LastCalled(ws: seq<Watch>, i: nat, code: string): (k: nat)
    requires Coded(ws) && i <= |ws|
    ensures i <= k <= |ws|
    ensures forall j | i <= j < k :: !(ws[j].code[..4] == code && ws[j].once)
    ensures k < |ws| ==> ws[k].code[..4] == code && ws[k].once
    decreases |ws| - i
  {
    if i == |ws| || (ws[i].code[..4] == code && ws[i].once) then i else LastCalled(ws, i + 1, code)
  }

  /** The calls of the watches with the code among `ws[i..k]`. */
  function CallsOf(ws: seq<Watch>, i: nat, k: nat, code: string, val: string): seq<Call>
    requires Coded(ws) && i <= k <= |ws|
    decreases k - i
  {
    if i == k then []
    else (if ws[i].code[..4] == code then [Call(ws[i], val)] else []) + CallsOf(ws, i + 1, k, code, val)
  }

  class Client {
    var notifies: seq<Watch>
    /** Lines written to the server, without their newlines. */
    var written: seq<string>

    constructor ()
      ensures notifies == [] && written == []
    {
      notifies, written := [], [];
    }

    method StartNotify(w: Watch)
      requires |w.code| >= 4
      modifies this
      ensures notifies == old(notifies) + [w]
      ensures written == old(written) + [StartLine(w)]
    {
      notifies := notifies + [w];
      written := written + ["STRT" + w.code[..4]];
    }

    /** The entry at position `k` goes. */
    method StopNotify(k: nat)
      requires k < |notifies| && |notifies[k].code| >= 4
      modifies this
      ensures notifies == Without(old(notifies), k)
      ensures written == old(written) + StopLine(old(notifies), k)
    {
      var data := notifies[k];
      notifies := notifies[..k] + notifies[k + 1..];
      var d := 0;
      while d < |notifies|
        invariant 0 <= d <= |notifies|
        invariant forall j | 0 <= j < d :: notifies[j].code != data.code
      {
        if notifies[d].code == data.code {
          return;
        }
        d := d + 1;
      }
      written := written + ["STOP" + data.code[..4]];
    }

    /** A line from the server: watches with the reported code are called, up to the first that goes with it. */
    method Dispatch(line: string) returns (calls: seq<Call>)
      requires Coded(notifies)
      modifies this
      ensures Coded(notifies)
      ensures !IsReport(line) ==> calls == [] && notifies == old(notifies) && written == old(written)
      ensures IsReport(line) ==>
                var ws, code := old(notifies), line[4..8];
                var k := LastCalled(ws, 0, code);
                if k < |ws| then
                  && calls == CallsOf(ws, 0, k + 1, code, line[8..])
                  && notifies == Without(ws, k) && written == old(written) + StopLine(ws, k)
                else
                  calls == CallsOf(ws, 0, k, code, line[8..]) && notifies == ws && written == old(written)
    {
      calls := [];
      if !IsReport(line) {
        return;
      }
      var code, val, d := line[4..8], line[8..], 0;
      ghost var ws := notifies;
      while d < |notifies|
        invariant 0 <= d <= |ws| && unchanged(this)
        invariant LastCalled(ws, d, code) == LastCalled(ws, 0, code)
        invariant calls == CallsOf(ws, 0, d, code, val)
      {
        CallsSnoc(ws, 0, d, code, val);
        if notifies[d].code[..4] == code {
          calls := calls + [Call(notifies[d], val)];
          if notifies[d].once {
            StopNotify(d);
            return;
          }
        }
        d := d + 1;
      }
    }
  }

  lemma {:induction false} CallsSnoc(ws: seq<Watch>, i: nat, k: nat, code: string, val: string)
    requires Coded(ws) && i <= k < |ws|
    ensures CallsOf(ws, i, k + 1, code, val) ==
            CallsOf(ws, i, k, code, val) + (if ws[k].code[..4] == code then [Call(ws[k], val)] else [])
    decreases k - i
  {
    if i < k { CallsSnoc(ws, i + 1, k, code, val); }
  }

  lemma {:induction false} NoCalls(ws: seq<Watch>, i: nat, k: nat, code: string, val: string)
    requires Coded(ws) && i <= k <= |ws| && forall j | i <= j < k :: ws[j].code[..4] != code
    ensures CallsOf(ws, i, k, code, val) == []
    decreases k - i
  {
    if i < k { NoCalls(ws, i + 1, k, code, val); }
  }

  /**
   * When every watch goes after one report, as for the status command, a report makes exactly one
   * call: of the first watch with its code.
   */
  lemma OnceCallsOne(ws: seq<Watch>, code: string, val: string)
    requires Coded(ws) && forall i | 0 <= i < |ws| :: ws[i].once
    ensures var k := LastCalled(ws, 0, code);
            if k < |ws| then CallsOf(ws, 0, k + 1, code, val) == [Call(ws[k], val)]
            else CallsOf(ws, 0, k, code, val) == []
  {
    var k := LastCalled(ws, 0, code);
    NoCalls(ws, 0, k, code, val);
    if k < |ws| { CallsSnoc(ws, 0, k, code, val); }
  }

  /** A report is a line STAT with a code of four characters, whatever follows. */
  lemma ReportLines(line: string)
    ensures IsReport(line) <==> exists code, val :: |code| == 4 && line == "STAT" + code + val
  {
    if IsReport(line) {
      assert line == "STAT" + line[4..8] + line[8..];
    }
    forall code: string, val: string | |code| == 4 && line == "STAT" + code + val
      ensures IsReport(line)
    {
      assert line[..4] == "STAT";
    }
  }

  /** Among the watches `ws[i..k]` each one with the code is called, with the value, in the order of the list. */
  lemma {:induction false} CallsInOrder(ws: seq<Watch>, i: nat, k: nat, code: string, val: string)
    returns (js: seq<nat>)
    requires Coded(ws) && i <= k <= |ws|
    ensures forall m | 0 <= m < |js| :: i <= js[m] < k
    ensures forall m, n | 0 <= m < n < |js| :: js[m] < js[n]
    ensures forall j | i <= j < k :: j in js <==> ws[j].code[..4] == code
    ensures |CallsOf(ws, i, k, code, val)| == |js|
    ensures forall m | 0 <= m < |js| :: CallsOf(ws, i, k, code, val)[m] == Call(ws[js[m]], val)
    decreases k - i
  {
    js := [];
    if i < k {
      js := CallsInOrder(ws, i, k - 1, code, val);
      CallsSnoc(ws, i, k - 1, code, val);
      if ws[k - 1].code[..4] == code {
        js := js + [k - 1];
      }
    }
  }

  /**
   * When no watch goes, as for the listen command, a report reaches the end of the list, so that
   * each watch with its code is called once for each place it has in the list, in that order.
   */
  lemma ListeningCallsAll(ws: seq<Watch>, code: string, val: string) returns (js: seq<nat>)
    requires Coded(ws) && forall i | 0 <= i < |ws| :: !ws[i].once
    ensures LastCalled(ws, 0, code) == |ws|
    ensures forall m, n | 0 <= m < n < |js| :: js[m] < js[n]
    ensures forall j | 0 <= j < |ws| :: j in js <==> ws[j].code[..4] == code
    ensures var calls := CallsOf(ws, 0, |ws|, code, val);
            |calls| == |js| && forall m | 0 <= m < |js| :: js[m] < |ws| && calls[m] == Call(ws[js[m]], val)
  {
    js := CallsInOrder(ws, 0, |ws|, code, val);
  }

  // ------------------------------------------------------------ agreement with the server

  /** The codes the user watches, as they go over the wire. */
  ghost function WireCodes(ws: seq<Watch>): (cs: set<string>)
    requires Coded(ws)
    ensures forall c :: c in cs <==> exists i :: 0 <= i < |ws| && ws[i].code[..4] == c
  {
    set i | 0 <= i < |ws| :: ws[i].code[..4]
  }

  /** A subscription message. */
  predicate IsSubscription(line: string) { |line| == 8 && (line[..4] == "STRT" || line[..4] == "STOP") }

  /** The subscribed codes after the server has handled a message. */
  function Heeded(codes: set<string>, line: string): set<string>
    requires IsSubscription(line)
  {
    if line[..4] == "STRT" then codes + {line[4..]} else codes - {line[4..]}
  }

  ghost predicate Subscribing(lines: seq<string>) { forall i | 0 <= i < |lines| :: IsSubscription(lines[i]) }

  function HeededAll(codes: set<string>, lines: seq<string>): set<string>
    requires Subscribing(lines)
    decreases |lines|
  {
    if lines == [] then codes else HeededAll(Heeded(codes, lines[0]), lines[1..])
  }

  /** A client, its messages under way, and the server with the client's connection `fd`. */
  datatype Link = Link(watches: seq<Watch>, wire: seq<string>, server: State, fd: int)

  ghost predicate Sound(l: Link) {
    && Coded(l.watches)
    && Subscribing(l.wire)
    && l.fd in l.server.conns
    && forall c | c in l.server.conns[l.fd].codes :: !l.server.conns[l.fd].codes[c].once
  }

  /** Once the messages under way are handled, the server will hold exactly the codes the user watches. */
  ghost predicate Agrees(l: Link) {
    Sound(l) && HeededAll(l.server.conns[l.fd].codes.Keys, l.wire) == WireCodes(l.watches)
  }

  datatype Move =
    | StartsWatch(w: Watch)
    | StopsWatch(k: nat)
    | ServerTakes                     // the oldest message under way is handled, or answered EDIS
    | Otherwise(h: Happening)         // another connection's line, or a report

  ghost predicate CanMove(l: Link, m: Move) {
    match m
    case StartsWatch(w) => |w.code| >= 4
    case StopsWatch(k) => k < |l.watches|
    case ServerTakes => l.wire != [] && l.fd in l.server.conns
    case Otherwise(h) => h.Line? ==> h.from in l.server.conns && h.from != l.fd
  }

  ghost function Moved(l: Link, m: Move): Link
    requires Sound(l) && CanMove(l, m)
  {
    match m
    case StartsWatch(w) => l.(watches := l.watches + [w], wire := l.wire + [StartLine(w)])
    case StopsWatch(k) => l.(watches := Without(l.watches, k), wire := l.wire + StopLine(l.watches, k))
    case ServerTakes => l.(wire := l.wire[1..], server := Handle(l.server, l.fd, l.wire[0]))
    case Otherwise(h) => l.(server := One(l.server, h))
  }

  lemma {:induction false} HeededAppend(codes: set<string>, lines: seq<string>, more: seq<string>)
    requires Subscribing(lines) && Subscribing(more)
    ensures Subscribing(lines + more)
    ensures HeededAll(codes, lines + more) == HeededAll(HeededAll(codes, lines), more)
    decreases |lines|
  {
    if lines == [] {
      assert lines + more == more;
    } else {
      assert (lines + more)[1..] == lines[1..] + more && (lines + more)[0] == lines[0];
      HeededAppend(Heeded(codes, lines[0]), lines[1..], more);
    }
  }

  lemma HeededOne(codes: set<string>, line: string)
    requires IsSubscription(line)
    ensures Subscribing([line]) && HeededAll(codes, [line]) == Heeded(codes, line)
  {
    assert [line][1..] == [];
  }

  lemma StartCodes(ws: seq<Watch>, w: Watch)
    requires Coded(ws) && |w.code| >= 4
    ensures Coded(ws + [w]) && IsSubscription(StartLine(w))
    ensures WireCodes(ws + [w]) == HeededAll(WireCodes(ws), [StartLine(w)])
  {
    var line, all := StartLine(w), ws + [w];
    assert line[..4] == "STRT" && line[4..] == w.code[..4];
    HeededOne(WireCodes(ws), line);
    forall c
      ensures c in WireCodes(all) <==> c in WireCodes(ws) || c == w.code[..4]
    {
      assert all[|ws|] == w;
      assert forall i | 0 <= i < |ws| :: all[i] == ws[i];
    }
  }

  /** What the server holds for the client. */
  ghost function Held(l: Link): set<string>
    requires Sound(l)
  {
    l.server.conns[l.fd].codes.Keys
  }

  lemma StartAgrees(l: Link, w: Watch)
    requires Agrees(l) && |w.code| >= 4
    ensures Agrees(Moved(l, StartsWatch(w)))
  {
    StartCodes(l.watches, w);
    HeededAppend(Held(l), l.wire, [StartLine(w)]);
  }

  /** Another watch than `k` has the same code on the wire. */
  ghost predicate Shared(ws: seq<Watch>, k: nat)
    requires Coded(ws) && k < |ws|
  {
    exists i :: 0 <= i < |ws| && i != k && ws[i].code[..4] == ws[k].code[..4]
  }

  lemma WithoutAt(ws: seq<Watch>, k: nat, c: string)
    requires Coded(ws) && k < |ws|
    ensures Coded(Without(ws, k))
    ensures c in WireCodes(Without(ws, k)) <==> exists i :: 0 <= i < |ws| && i != k && ws[i].code[..4] == c
    ensures Watches(Without(ws, k), ws[k].code) ==> Shared(ws, k)
  {
    var r := Without(ws, k);
    assert forall i | 0 <= i < |r| :: r[i] == ws[if i < k then i else i + 1];
    forall i | 0 <= i < |ws| && i != k ensures ws[i] in r {
      if i < k { assert r[i] == ws[i]; } else { assert r[i - 1] == ws[i]; }
    }
  }

  lemma WithoutCodes(ws: seq<Watch>, k: nat)
    requires Coded(ws) && k < |ws|
    ensures Coded(Without(ws, k))
    ensures WireCodes(Without(ws, k)) == (if Shared(ws, k) then WireCodes(ws) else WireCodes(ws) - {ws[k].code[..4]})
    ensures Watches(Without(ws, k), ws[k].code) ==> Shared(ws, k)
  {
    WithoutAt(ws, k, ws[k].code[..4]);
    forall c
      ensures c in WireCodes(Without(ws, k)) <==>
              c in WireCodes(ws) && (c == ws[k].code[..4] ==> Shared(ws, k))
    {
      WithoutAt(ws, k, c);
    }
  }

  lemma StopSubscribes(ws: seq<Watch>, k: nat)
    requires Coded(ws) && k < |ws|
    ensures Subscribing(StopLine(ws, k))
  {
    assert ("STOP" + ws[k].code[..4])[..4] == "STOP";
  }

  /**
   * What is said when a watch goes is what the user means exactly unless another watch shares its
   * code on the wire under a different full code.
   */
  lemma StopCodes(ws: seq<Watch>, k: nat)
    requires Coded(ws) && k < |ws|
    ensures Coded(Without(ws, k)) && Subscribing(StopLine(ws, k))
    ensures WireCodes(Without(ws, k)) == HeededAll(WireCodes(ws), StopLine(ws, k)) <==>
            (Shared(ws, k) ==> Watches(Without(ws, k), ws[k].code))
  {
    var line, code := "STOP" + ws[k].code[..4], ws[k].code[..4];
    WithoutCodes(ws, k);
    StopSubscribes(ws, k);
    assert line[..4] == "STOP" && line[4..] == code && "STOP"[2] != "STRT"[2];
    HeededOne(WireCodes(ws), line);
    assert code in WireCodes(ws) by { assert ws[k].code[..4] == code; }
  }

  /**
   * A watch going keeps the agreement exactly unless another watch shares its code on the wire
   * under a different full code: then the STOP it sends cuts that other watch off.
   */
  lemma StopAgrees(l: Link, k: nat)
    requires Agrees(l) && k < |l.watches|
    ensures Sound(Moved(l, StopsWatch(k)))
    ensures Agrees(Moved(l, StopsWatch(k))) <==>
            (Shared(l.watches, k) ==> Watches(Without(l.watches, k), l.watches[k].code))
  {
    StopCodes(l.watches, k);
    HeededAppend(Held(l), l.wire, StopLine(l.watches, k));
  }

  /** What the server makes of a subscription message: what it says, or nothing while disabled. */
  lemma ServerHeeds(s: State, fd: int, line: string)
    requires fd in s.conns && IsSubscription(line)
    ensures Handle(s, fd, line).conns[fd].codes.Keys ==
            if Disabled(s, fd) then s.conns[fd].codes.Keys else Heeded(s.conns[fd].codes.Keys, line)
    ensures Disabled(s, fd) ==> Handle(s, fd, line) == Write(s, fd, "EDIS\n")
  {
    assert "STOP"[2] != "STRT"[2];
    SubscriptionVerbs();
  }

  /** An enabled server handles a subscription message as the client means it. */
  lemma TakesAgrees(l: Link)
    requires Agrees(l) && CanMove(l, ServerTakes) && !Disabled(l.server, l.fd)
    ensures Agrees(Moved(l, ServerTakes))
  {
    ServerHeeds(l.server, l.fd, l.wire[0]);
  }

  /** Whether the last of the messages that name `c` starts it, if there is one. */
  function LastWord(lines: seq<string>, c: string): Option<bool>
    requires forall i | 0 <= i < |lines| :: |lines[i]| == 8
    decreases |lines|
  {
    if lines == [] then None
    else
      var later := LastWord(lines[1..], c);
      if later.Some? then later else if lines[0][4..] == c then Some(lines[0][..4] == "STRT") else None
  }

  /** The last of the messages that name `c` starts it. */
  predicate EndsStarted(lines: seq<string>, c: string)
    requires forall i | 0 <= i < |lines| :: |lines[i]| == 8
  {
    LastWord(lines, c) == Some(true)
  }

  lemma {:induction false} HeededLast(codes: set<string>, lines: seq<string>, c: string)
    requires Subscribing(lines)
    ensures c in HeededAll(codes, lines) <==>
            if LastWord(lines, c).Some? then LastWord(lines, c).value else c in codes
    decreases |lines|
  {
    if lines != [] {
      HeededLast(Heeded(codes, lines[0]), lines[1..], c);
    }
  }

  lemma {:induction false} LastWordAppend(lines: seq<string>, more: seq<string>, c: string)
    requires Subscribing(lines) && Subscribing(more)
    ensures Subscribing(lines + more)
    ensures LastWord(lines + more, c) == if LastWord(more, c).Some? then LastWord(more, c) else LastWord(lines, c)
    decreases |lines|
  {
    if lines == [] {
      assert lines + more == more;
    } else {
      assert (lines + more)[1..] == lines[1..] + more && (lines + more)[0] == lines[0];
      LastWordAppend(lines[1..], more, c);
    }
  }

  /**
   * A disabled server loses the message: the agreement survives that exactly if a later message
   * under way names the same code, or the message would have changed nothing.
   */
  lemma LossAgrees(l: Link)
    requires Agrees(l) && CanMove(l, ServerTakes) && Disabled(l.server, l.fd)
    ensures Agrees(Moved(l, ServerTakes)) <==>
            || LastWord(l.wire[1..], l.wire[0][4..]).Some?
            || (l.wire[0][..4] == "STRT" <==> l.wire[0][4..] in Held(l))
  {
    var line, rest := l.wire[0], l.wire[1..];
    ServerHeeds(l.server, l.fd, line);
    StaysSound(l, ServerTakes);
    forall c
      ensures c in HeededAll(Heeded(Held(l), line), rest) <==>
              if LastWord(rest, c).Some? then LastWord(rest, c).value else c in Heeded(Held(l), line)
      ensures c in HeededAll(Held(l), rest) <==>
              if LastWord(rest, c).Some? then LastWord(rest, c).value else c in Held(l)
    {
      HeededLast(Heeded(Held(l), line), rest, c);
      HeededLast(Held(l), rest, c);
    }
    assert HeededAll(Held(l), l.wire) == HeededAll(Heeded(Held(l), line), rest);
  }

  /** Other connections' lines and reports leave the client's lasting subscriptions alone. */
  lemma OthersHeld(l: Link, h: Happening)
    requires Sound(l) && CanMove(l, Otherwise(h))
    ensures Sound(Moved(l, Otherwise(h))) && Held(Moved(l, Otherwise(h))) == Held(l)
  {
    var s, fd := l.server, l.fd;
    var s' := One(s, h);
    if h.Line? {
      assert s'.conns[fd] == s.conns[fd];
    } else {
      assert s'.conns[fd].codes == s.conns[fd].codes;
    }
  }

  lemma OthersAgree(l: Link, h: Happening)
    requires Agrees(l) && CanMove(l, Otherwise(h))
    ensures Agrees(Moved(l, Otherwise(h)))
  {
    OthersHeld(l, h);
  }

  lemma StaysSound(l: Link, m: Move)
    requires Sound(l) && CanMove(l, m)
    ensures Sound(Moved(l, m))
  {
    match m
    case StartsWatch(w) => assert StartLine(w)[..4] == "STRT";
    case StopsWatch(k) =>
      WithoutCodes(l.watches, k);
      StopSubscribes(l.watches, k);
    case ServerTakes => LastingStays(l.server, l.fd, l.wire[0]);
    case Otherwise(h) =>
      if h.Line? { assert One(l.server, h).conns[l.fd] == l.server.conns[l.fd]; }
  }

  lemma LastingStays(s: State, fd: int, line: string)
    requires fd in s.conns && IsSubscription(line)
    requires forall c | c in s.conns[fd].codes :: !s.conns[fd].codes[c].once
    ensures var t := Handle(s, fd, line); forall c | c in t.conns[fd].codes :: !t.conns[fd].codes[c].once
  {
    SubscriptionVerbs();
  }

  /** Codes as the client's table has them: all of four characters. */
  ghost predicate FourLetters(ws: seq<Watch>) { forall i | 0 <= i < |ws| :: |ws[i].code| == 4 }

  /** A run of moves in which only codes of four characters are watched. */
  ghost predicate Path(l: Link, ms: seq<Move>)
    requires Sound(l)
    decreases |ms|
  {
    ms == [] ||
    (&& CanMove(l, ms[0])
     && (ms[0].StartsWatch? ==> |ms[0].w.code| == 4)
     && (StaysSound(l, ms[0]); Path(Moved(l, ms[0]), ms[1..])))
  }

  ghost function Final(l: Link, ms: seq<Move>): Link
    requires Sound(l) && Path(l, ms)
    decreases |ms|
  {
    if ms == [] then l
    else
      StaysSound(l, ms[0]);
      Final(Moved(l, ms[0]), ms[1..])
  }

  lemma FourLettersStay(l: Link, m: Move)
    requires Sound(l) && FourLetters(l.watches) && CanMove(l, m) && (m.StartsWatch? ==> |m.w.code| == 4)
    ensures FourLetters(Moved(l, m).watches)
  {}

  /** With codes of four characters the client's comparison of whole codes is the server's. */
  lemma FourLettersStop(ws: seq<Watch>, k: nat)
    requires FourLetters(ws) && k < |ws|
    ensures Coded(ws) && (Shared(ws, k) ==> Watches(Without(ws, k), ws[k].code))
  {
    if Shared(ws, k) {
      var i :| 0 <= i < |ws| && i != k && ws[i].code[..4] == ws[k].code[..4];
      assert ws[i].code == ws[k].code;
      assert Without(ws, k)[if i < k then i else i - 1] == ws[i];
    }
  }

  /** In the run no message reaches the server while it is disabled. */
  ghost predicate AllHeard(l: Link, ms: seq<Move>)
    requires Sound(l) && Path(l, ms)
    decreases |ms|
  {
    ms == [] ||
    (&& (ms[0].ServerTakes? ==> !Disabled(l.server, l.fd))
     && (StaysSound(l, ms[0]); AllHeard(Moved(l, ms[0]), ms[1..])))
  }

  /**
   * In every run of a connection that only starts and stops, with duplicate codes, and with
   * whatever other connections and the device do in between, client and server agree as long as
   * the server hears every message: what it will hold once the messages under way are handled is
   * what the user watches.
   */
  lemma {:induction false} AlwaysAgrees(l: Link, ms: seq<Move>)
    requires Agrees(l) && FourLetters(l.watches) && Path(l, ms) && AllHeard(l, ms)
    ensures Agrees(Final(l, ms)) && FourLetters(Final(l, ms).watches)
    decreases |ms|
  {
    if ms != [] {
      match ms[0] {
        case StartsWatch(w) => StartAgrees(l, w);
        case StopsWatch(k) =>
          FourLettersStop(l.watches, k);
          StopAgrees(l, k);
        case ServerTakes => TakesAgrees(l);
        case Otherwise(h) => OthersAgree(l, h);
      }
      FourLettersStay(l, ms[0]);
      AlwaysAgrees(Moved(l, ms[0]), ms[1..]);
    }
  }

  // ------------------------------------------------------------ when messages are lost

  ghost function SentBy(l: Link, m: Move): seq<string>
    requires Sound(l) && CanMove(l, m)
  {
    match m
    case StartsWatch(w) => [StartLine(w)]
    case StopsWatch(k) => StopLine(l.watches, k)
    case _ => []
  }

  /** The messages the client sends during a run. */
  ghost function SentIn(l: Link, ms: seq<Move>): seq<string>
    requires Sound(l) && Path(l, ms)
    decreases |ms|
  {
    if ms == [] then []
    else
      StaysSound(l, ms[0]);
      SentBy(l, ms[0]) + SentIn(Moved(l, ms[0]), ms[1..])
  }

  ghost function HeardBy(l: Link, m: Move): seq<string>
    requires Sound(l) && CanMove(l, m)
  {
    if m.ServerTakes? && !Disabled(l.server, l.fd) then [l.wire[0]] else []
  }

  /** The messages the server takes during a run while it is enabled. */
  ghost function HeardIn(l: Link, ms: seq<Move>): seq<string>
    requires Sound(l) && Path(l, ms)
    decreases |ms|
  {
    if ms == [] then []
    else
      StaysSound(l, ms[0]);
      HeardBy(l, ms[0]) + HeardIn(Moved(l, ms[0]), ms[1..])
  }

  function Taken(m: Move): nat { if m.ServerTakes? then 1 else 0 }

  /** One move: the user's codes follow what is sent, the server's what is heard, and messages wait in order. */
  lemma MoveHistory(l: Link, m: Move)
    requires Sound(l) && FourLetters(l.watches) && CanMove(l, m)
    ensures Sound(Moved(l, m)) && Subscribing(SentBy(l, m)) && Subscribing(HeardBy(l, m))
    ensures WireCodes(Moved(l, m).watches) == HeededAll(WireCodes(l.watches), SentBy(l, m))
    ensures Held(Moved(l, m)) == HeededAll(Held(l), HeardBy(l, m))
    ensures Taken(m) <= |l.wire| && Moved(l, m).wire == (l.wire + SentBy(l, m))[Taken(m)..]
  {
    StaysSound(l, m);
    match m
    case StartsWatch(w) => StartCodes(l.watches, w);
    case StopsWatch(k) =>
      FourLettersStop(l.watches, k);
      StopCodes(l.watches, k);
    case ServerTakes =>
      ServerHeeds(l.server, l.fd, l.wire[0]);
      HeededOne(Held(l), l.wire[0]);
    case Otherwise(h) => OthersHeld(l, h);
  }

  /** Messages queued and taken in two stages. */
  lemma Queueing(wire: seq<string>, first: seq<string>, more: seq<string>, k: nat, taken: nat)
    requires k <= |wire| && taken <= |(wire + first)[k..] + more|
    ensures ((wire + first)[k..] + more)[taken..] == (wire + (first + more))[k + taken..]
    ensures wire[..k] + ((wire + first)[k..] + more)[..taken] == (wire + (first + more))[..k + taken]
  {
    assert (wire + first)[k..] == wire[k..] + first;
    assert wire + (first + more) == wire[..k] + ((wire + first)[k..] + more);
  }

  /** What a run has sent and heard, and how many messages the server took. */
  ghost predicate History(l: Link, sent: seq<string>, heard: seq<string>, taken: nat, f: Link) {
    && Sound(l) && Sound(f) && Subscribing(sent) && Subscribing(heard)
    && WireCodes(f.watches) == HeededAll(WireCodes(l.watches), sent)
    && Held(f) == HeededAll(Held(l), heard)
    && taken <= |l.wire + sent| && f.wire == (l.wire + sent)[taken..]
  }

  lemma HistoryStep(l: Link, m: Move, sent: seq<string>, heard: seq<string>, taken: nat, f: Link)
    requires Sound(l) && FourLetters(l.watches) && CanMove(l, m) && History(Moved(l, m), sent, heard, taken, f)
    ensures History(l, SentBy(l, m) + sent, HeardBy(l, m) + heard, Taken(m) + taken, f)
    ensures heard == (Moved(l, m).wire + sent)[..taken] && (m.ServerTakes? ==> !Disabled(l.server, l.fd)) ==>
              HeardBy(l, m) + heard == (l.wire + (SentBy(l, m) + sent))[..Taken(m) + taken]
  {
    MoveHistory(l, m);
    HeededAppend(WireCodes(l.watches), SentBy(l, m), sent);
    HeededAppend(Held(l), HeardBy(l, m), heard);
    Queueing(l.wire, SentBy(l, m), sent, Taken(m), taken);
  }

  /** The same for a run, of which `taken` messages have been taken. */
  lemma {:induction false} RunHistory(l: Link, ms: seq<Move>) returns (taken: nat)
    requires Sound(l) && FourLetters(l.watches) && Path(l, ms)
    ensures History(l, SentIn(l, ms), HeardIn(l, ms), taken, Final(l, ms)) && FourLetters(Final(l, ms).watches)
    ensures AllHeard(l, ms) ==> HeardIn(l, ms) == (l.wire + SentIn(l, ms))[..taken]
    decreases |ms|
  {
    taken := 0;
    if ms != [] {
      var m := ms[0];
      var l' := Moved(l, m);
      StaysSound(l, m);
      FourLettersStay(l, m);
      var later := RunHistory(l', ms[1..]);
      HistoryStep(l, m, SentIn(l', ms[1..]), HeardIn(l', ms[1..]), later, Final(l', ms[1..]));
      taken := Taken(m) + later;
    }
  }

  /** A connection just made. */
  ghost predicate New(l: Link) {
    l.watches == [] && l.wire == [] && l.fd in l.server.conns && l.server.conns[l.fd].codes == map[]
  }

  /** From a new connection on: what the user watches, and what the server holds, by the last word on each code. */
  lemma LastWords(l: Link, ms: seq<Move>, c: string)
    requires New(l) && Path(l, ms)
    ensures Sound(Final(l, ms)) && Subscribing(SentIn(l, ms)) && Subscribing(HeardIn(l, ms))
    ensures var f := Final(l, ms);
            && (c in WireCodes(f.watches) <==> EndsStarted(SentIn(l, ms), c))
            && (c in Held(f) <==> EndsStarted(HeardIn(l, ms), c))
            && (LastWord(f.wire, c).Some? ==> LastWord(f.wire, c) == LastWord(SentIn(l, ms), c))
            && (f.wire == [] && AllHeard(l, ms) ==> HeardIn(l, ms) == SentIn(l, ms))
  {
    var taken := RunHistory(l, ms);
    NewWords(l, SentIn(l, ms), HeardIn(l, ms), taken, Final(l, ms), c);
  }

  lemma NewWords(l: Link, sent: seq<string>, heard: seq<string>, taken: nat, f: Link, c: string)
    requires New(l) && History(l, sent, heard, taken, f)
    ensures c in WireCodes(f.watches) <==> EndsStarted(sent, c)
    ensures c in Held(f) <==> EndsStarted(heard, c)
    ensures LastWord(f.wire, c).Some? ==> LastWord(f.wire, c) == LastWord(sent, c)
    ensures f.wire == [] ==> (l.wire + sent)[..taken] == sent
  {
    assert WireCodes(l.watches) == {} && Held(l) == {};
    HeededLast({}, sent, c);
    HeededLast({}, heard, c);
    assert l.wire + sent == sent && f.wire == sent[taken..];
    assert sent == sent[..taken] + sent[taken..];
    LastWordAppend(sent[..taken], sent[taken..], c);
  }

  /**
   * Over every run of a connection, with a server that may be disabled and enabled again: client
   * and server agree exactly if, for each code no message under way names, the last message sent
   * and the last one heard both start it, or neither does.
   */
  lemma RunAgrees(l: Link, ms: seq<Move>)
    requires New(l) && Path(l, ms)
    ensures Subscribing(SentIn(l, ms)) && Subscribing(HeardIn(l, ms)) && Sound(Final(l, ms))
    ensures Agrees(Final(l, ms)) <==>
            forall c :: LastWord(Final(l, ms).wire, c).Some? ||
                        (EndsStarted(SentIn(l, ms), c) <==> EndsStarted(HeardIn(l, ms), c))
  {
    var f := Final(l, ms);
    LastWords(l, ms, "");
    forall c
      ensures (c in HeededAll(Held(f), f.wire) <==> c in WireCodes(f.watches)) <==>
              || LastWord(f.wire, c).Some?
              || (EndsStarted(SentIn(l, ms), c) <==> EndsStarted(HeardIn(l, ms), c))
    {
      LastWords(l, ms, c);
      HeededLast(Held(f), f.wire, c);
    }
  }

  /**
   * From a connection just made on, and at any time when no message is under way: the user watches
   * a code exactly if the last message sent about it starts it, and the server holds it exactly if
   * the last one heard does. So it holds exactly the watched codes if every message was heard.
   */
  lemma ConnectionAgrees(l: Link, ms: seq<Move>, c: string)
    requires New(l) && Path(l, ms) && Final(l, ms).wire == []
    ensures Subscribing(SentIn(l, ms)) && Subscribing(HeardIn(l, ms))
    ensures var f := Final(l, ms);
            && f.fd in f.server.conns
            && (Watches(f.watches, c) <==> EndsStarted(SentIn(l, ms), c))
            && (c in f.server.conns[f.fd].codes <==> EndsStarted(HeardIn(l, ms), c))
            && (AllHeard(l, ms) ==> (c in f.server.conns[f.fd].codes <==> Watches(f.watches, c)))
  {
    var f := Final(l, ms);
    LastWords(l, ms, c);
    var taken := RunHistory(l, ms);
    assert forall i | 0 <= i < |f.watches| :: f.watches[i].code[..4] == f.watches[i].code;
  }

  /** A disabled server loses the start of the only watch. */
  lemma StartLost(l: Link, w: Watch)
    requires Sound(l) && |w.code| == 4 && l.watches == [w] && l.wire == [StartLine(w)] && Held(l) == {}
    requires Disabled(l.server, l.fd)
    ensures CanMove(l, ServerTakes)
    ensures var f := Moved(l, ServerTakes);
            Sound(f) && f.watches == [w] && f.wire == [] && Held(f) == {} && w.code in WireCodes(f.watches)
  {
    ServerHeeds(l.server, l.fd, StartLine(w));
    StaysSound(l, ServerTakes);
    assert w.code[..4] == w.code && l.watches[0] == w;
  }

  /**
   * An input on which they disagree: a watch is started, another client disables the server, and
   * only then does the message reach it. The EDIS it answers is no report to the client.
   */
  lemma DisabledDisagrees(l: Link, w: Watch, other: int)
    requires New(l) && |w.code| == 4 && other in l.server.conns && other != l.fd
    requires l.server.conns[l.fd].side < |l.server.sides| && !Disabled(l.server, other)
    ensures var name := l.server.sides[l.server.conns[l.fd].side].name;
            var ms := [StartsWatch(w), Otherwise(Line(other, "SDIS" + name)), ServerTakes];
            && Sound(l) && Path(l, ms)
            && var f := Final(l, ms);
               && f.watches == [w] && f.wire == []
               && f.fd in f.server.conns && w.code !in f.server.conns[f.fd].codes
               && !Agrees(f) && !IsReport("EDIS")
  {
    var name := l.server.sides[l.server.conns[l.fd].side].name;
    var m1, m2 := StartsWatch(w), Otherwise(Line(other, "SDIS" + name));
    var l1 := Moved(l, m1);
    StaysSound(l, m1);
    Switches(l.server, other, name, true, l.fd);
    var l2 := Moved(l1, m2);
    OthersHeld(l1, Line(other, "SDIS" + name));
    StartLost(l2, w);
    var l3 := Moved(l2, ServerTakes);
    PathStep(l2, ServerTakes, [], l3);
    PathStep(l1, m2, [ServerTakes], l2);
    PathStep(l, m1, [m2, ServerTakes], l1);
    Associate([m1], [m2], [ServerTakes]);
    assert HeededAll(Held(l3), []) == {};
  }

  lemma PathStep(l: Link, m: Move, ms: seq<Move>, l': Link)
    requires Sound(l) && CanMove(l, m) && (m.StartsWatch? ==> |m.w.code| == 4)
    requires l' == Moved(l, m) && Sound(l') && Path(l', ms)
    ensures Path(l, [m] + ms) && Final(l, [m] + ms) == Final(l', ms)
  {
    HeadTail(m, ms);
  }

  // ------------------------------------------------------------ a reported number

  /** A number reported by the daemon reaches the watch's callback, reduced to sign and 23 low bits. */
  lemma NumberArrives(code: string, v: int)
    requires |code| == 4
    ensures var line := "STAT" + code + Encode(v);
            && StatLine(code, Encode(v)) == line + "\n"
            && IsReport(line) && line[4..8] == code && |line[8..]| == 4
            && Decode(line[8..]) == Fold23(v) && (Decode(line[8..]) == v <==> IsInt24(v))
  {
    var line := "STAT" + code + Encode(v);
    assert line[..4] == "STAT" && line[8..] == Encode(v);
    DecodeEncode(v);
  }
}
