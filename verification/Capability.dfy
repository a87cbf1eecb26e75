/**
 * Capability filtering: the client asks every server which of its candidates' codes it knows
 * (cli.c, cli_notify.c) and merges the replies in one pass over the candidates; the server's
 * side is `Registry.Obey` (api_serverside.cc).
 */
module Capability {
  import opened Options
  import opened Sequences
  import opened Candidates
  import opened Registry

  /** A code as it goes over the wire: its first four characters. */
  function Wire(code: string): string
    requires |code| >= 4
  {
    code[..4]
  }

  /** Candidates' codes have at least four characters. */
  ghost predicate Coded(es: seq<Entry>) {
    forall i | 0 <= i < |es| :: es[i].node.code.Some? ==> |es[i].node.code.value| >= 4
  }

  /** The codes asked for, in the order of the candidates. */
  function Asked(es: seq<Entry>): (cs: seq<string>)
    requires Coded(es)
    ensures forall i | 0 <= i < |cs| :: |cs[i]| == 4
  {
    if es == [] then []
    else (if es[0].node.code.Some? then [Wire(es[0].node.code.value)] else []) + Asked(es[1..])
  }

  function Concat(cs: seq<string>): string {
    if cs == [] then [] else cs[0] + Concat(cs[1..])
  }

  /** The server cuts the query back into the codes asked for. */
  lemma {:induction false} PiecesOfCodes(cs: seq<string>)
    requires forall i | 0 <= i < |cs| :: |cs[i]| == 4
    ensures Pieces(Concat(cs)) == cs
  {
    if cs != [] {
      PiecesOfCodes(cs[1..]);
      var s := Concat(cs);
      assert s[..4] == cs[0] && s[4..] == Concat(cs[1..]);
      if |s| == 4 {
        assert s == cs[0] && Pieces(s) == [s];
        assert Pieces([]) == [];
      }
    }
  }

  // ------------------------------------------------------------ the merge

  /** `strncmp(code, l, 4) == 0` for a code of four characters. */
  predicate StartsWith(l: string, code: string)
    requires |code| == 4
  {
    |l| >= 4 && l[..4] == code
  }

  function Past(l: string, code: string): string
    requires |code| == 4
  {
    if StartsWith(l, code) then l[4..] else l
  }

  /** Every line that has come to `code` moves past it. */
  function MovePast(ls: seq<string>, code: string): (r: seq<string>)
    requires |code| == 4
    ensures |r| == |ls| && forall i | 0 <= i < |ls| :: r[i] == Past(ls[i], code)
  {
    seq(|ls|, i requires 0 <= i < |ls| => Past(ls[i], code))
  }

  predicate SomeAt(ls: seq<string>, code: string)
    requires |code| == 4
  {
    exists i :: 0 <= i < |ls| && StartsWith(ls[i], code)
  }

  /** The candidates kept by the single pass: those without a code, and those some line has come to. */
  function Merge(es: seq<Entry>, ls: seq<string>): seq<Entry>
    requires Coded(es)
    decreases |es|
  {
    if es == [] then []
    else if es[0].node.code.None? then [es[0]] + Merge(es[1..], ls)
    else
      var code := Wire(es[0].node.code.value);
      (if SomeAt(ls, code) then [es[0]] else []) + Merge(es[1..], MovePast(ls, code))
  }

  /** The candidates without a code, and those whose code is in one of `tables`. */
  function Supported(es: seq<Entry>, tables: seq<set<string>>): seq<Entry>
    requires Coded(es)
  {
    if es == [] then []
    else (if es[0].node.code.None? || KnownToSome(Wire(es[0].node.code.value), tables) then [es[0]] else []) +
         Supported(es[1..], tables)
  }

  predicate KnownToSome(code: string, tables: seq<set<string>>) {
    exists i :: 0 <= i < |tables| && code in tables[i]
  }

  /** These are some of the candidates, in their order. */
  lemma {:induction false} SupportedInOrder(es: seq<Entry>, tables: seq<set<string>>)
    requires Coded(es)
    ensures Sublist(Supported(es, tables), es)
  {
    if es != [] {
      SupportedInOrder(es[1..], tables);
      SublistCons(es[0], Supported(es[1..], tables), es[1..]);
      assert es == [es[0]] + es[1..];
      Associate(Supported(es[1..], tables), [], []);
    }
  }

  /** Namely each one without a code, and each of whose code the first four characters are in some table. */
  lemma {:induction false} SupportedMeans(es: seq<Entry>, tables: seq<set<string>>, e: Entry)
    requires Coded(es) && (e.node.code.Some? ==> |e.node.code.value| >= 4)
    ensures multiset(Supported(es, tables))[e] ==
            if e.node.code.None? || exists i :: 0 <= i < |tables| && e.node.code.value[..4] in tables[i]
            then multiset(es)[e] else 0
  {
    if es != [] {
      var rest := Supported(es[1..], tables);
      SupportedMeans(es[1..], tables, e);
      OneMore(es[0], es[1..], e);
      OneMore(es[0], rest, e);
      assert es == [es[0]] + es[1..];
      if !(es[0].node.code.None? || KnownToSome(Wire(es[0].node.code.value), tables)) {
        Associate(rest, [], []);
      }
    }
  }

  lemma OneMore(x: Entry, s: seq<Entry>, e: Entry)
    ensures multiset([x] + s)[e] == multiset(s)[e] + if e == x then 1 else 0
  {}

  /** The replies of the servers to a query for `cs`, behind their first four characters. */
  function KnownBy(cs: seq<string>, tables: seq<set<string>>): (ls: seq<string>)
    ensures |ls| == |tables| && forall i | 0 <= i < |tables| :: ls[i] == Known(cs, tables[i])
  {
    seq(|tables|, i requires 0 <= i < |tables| => Known(cs, tables[i]))
  }

  /** A reply to a query that goes on with unknown `code` does not start with it. */
  lemma {:induction false} UnknownNotNext(cs: seq<string>, codes: set<string>, code: string)
    requires |code| == 4 && code !in codes && forall i | 0 <= i < |cs| :: |cs[i]| == 4
    ensures !StartsWith(Known(cs, codes), code)
  {
    if cs != [] {
      if cs[0] in codes {
        assert Known(cs, codes)[..4] == cs[0];
      } else {
        UnknownNotNext(cs[1..], codes, code);
        assert Known(cs, codes) == Known(cs[1..], codes);
      }
    }
  }

  lemma MergeCodeAt(code: string, cs: seq<string>, table: set<string>)
    requires |code| == 4 && forall i | 0 <= i < |cs| :: |cs[i]| == 4
    ensures StartsWith(Known([code] + cs, table), code) <==> code in table
    ensures Past(Known([code] + cs, table), code) == Known(cs, table)
  {
    var reply, rest := Known([code] + cs, table), Known(cs, table);
    assert ([code] + cs)[1..] == cs;
    if code in table {
      assert reply[..4] == code && reply[4..] == rest;
    } else {
      UnknownNotNext(cs, table, code);
      assert reply == rest;
    }
  }

  /** One code of the query: the lines that have come to it are those of the servers that know it. */
  lemma MergeCode(code: string, cs: seq<string>, tables: seq<set<string>>)
    requires |code| == 4 && forall i | 0 <= i < |cs| :: |cs[i]| == 4
    ensures SomeAt(KnownBy([code] + cs, tables), code) <==> KnownToSome(code, tables)
    ensures MovePast(KnownBy([code] + cs, tables), code) == KnownBy(cs, tables)
  {
    var ls := KnownBy([code] + cs, tables);
    forall i | 0 <= i < |tables|
      ensures StartsWith(ls[i], code) <==> code in tables[i]
      ensures Past(ls[i], code) == Known(cs, tables[i])
    {
      MergeCodeAt(code, cs, tables[i]);
    }
  }

  /**
   * Merging the servers' replies keeps, in order, exactly the candidates without a code and
   * those whose code some server knows, also when codes are repeated.
   */
  lemma {:induction false} MergeIsSupported(es: seq<Entry>, tables: seq<set<string>>)
    requires Coded(es)
    ensures Merge(es, KnownBy(Asked(es), tables)) == Supported(es, tables)
  {
    if es != [] {
      MergeIsSupported(es[1..], tables);
      if es[0].node.code.Some? {
        MergeCode(Wire(es[0].node.code.value), Asked(es[1..]), tables);
      } else {
        assert Asked(es) == Asked(es[1..]);
      }
    }
  }

  // ------------------------------------------------------------ end to end

  /** The two queries: for commands, and for statuses. */
  datatype Kind = Commands | Statuses

  function Verb4(k: Kind): string { if k.Commands? then "QCMD" else "QSTS" }

  function Table(t: Tables, k: Kind): set<string> { if k.Commands? then t.commands else t.statuses }

  /** What a server knows for a client: nothing while it is disabled. */
  function Serves(s: State, fd: int, k: Kind): set<string>
    requires fd in s.conns
  {
    if Disabled(s, fd) then {} else Table(s.tables, k)
  }

  /** The line a server answers with, without its newline. */
  function ReplyLine(s: State, fd: int, k: Kind, query: string): (line: string)
    requires fd in s.conns
    ensures |line| >= 4
  {
    if Disabled(s, fd) then "EDIS" else Verb4(k) + Known(Pieces(query), Table(s.tables, k))
  }

  lemma ServerReplies(s: State, fd: int, k: Kind, query: string)
    requires fd in s.conns
    ensures Handle(s, fd, Verb4(k) + query) == Write(s, fd, ReplyLine(s, fd, k, query) + "\n")
  {
    var line := Verb4(k) + query;
    assert line[..4] == Verb4(k) && line[4..] == query;
    assert "QCMD"[0] != "SENA"[0] && "QSTS"[0] != "SENA"[0] && "QSTS"[1] != "QCMD"[1];
    assert "EDIS" + "\n" == "EDIS\n";
  }

  lemma {:induction false} NothingKnown(cs: seq<string>)
    ensures Known(cs, {}) == []
  {
    if cs != [] { NothingKnown(cs[1..]); }
  }

  /** A server a client is connected to, with the connection the server has for it. */
  datatype Peer = Peer(server: State, fd: int)

  ghost predicate Connected(peers: seq<Peer>) {
    forall i | 0 <= i < |peers| :: peers[i].fd in peers[i].server.conns
  }

  /** What the server writes to the client when it handles `query` is the line `reply`. */
  ghost predicate Replies(p: Peer, query: string, reply: string)
    requires p.fd in p.server.conns
  {
    Handle(p.server, p.fd, query).conns[p.fd].out == p.server.conns[p.fd].out + (reply + "\n")
  }

  /** Every peer replies to the query with the line in its place. */
  ghost predicate AllReply(peers: seq<Peer>, query: string, lines: seq<string>)
    requires Connected(peers)
  {
    |lines| == |peers| && forall i | 0 <= i < |peers| :: Replies(peers[i], query, lines[i])
  }

  lemma SameEnd(out: string, a: string, b: string)
    requires out + (a + "\n") == out + (b + "\n")
    ensures a == b
  {
    var s, t := out + (a + "\n"), out + (b + "\n");
    assert s[|out|..] == a + "\n" && t[|out|..] == b + "\n";
    assert (a + "\n")[..|a|] == a && (b + "\n")[..|a|] == b;
  }

  /** A reply to a capability query: EDIS from a disabled server, and else what is known of the codes asked for. */
  lemma ReplyIsKnown(p: Peer, k: Kind, cs: seq<string>, reply: string)
    requires p.fd in p.server.conns && forall i | 0 <= i < |cs| :: |cs[i]| == 4
    requires Replies(p, Verb4(k) + Concat(cs), reply)
    ensures |reply| >= 4 && reply[4..] == Known(cs, Serves(p.server, p.fd, k))
    ensures reply[..4] == if Disabled(p.server, p.fd) then "EDIS" else Verb4(k)
  {
    ServerReplies(p.server, p.fd, k, Concat(cs));
    SameEnd(p.server.conns[p.fd].out, reply, ReplyLine(p.server, p.fd, k, Concat(cs)));
    PiecesOfCodes(cs);
    if Disabled(p.server, p.fd) {
      NothingKnown(cs);
      assert "EDIS"[..4] == "EDIS" && "EDIS"[4..] == [];
    } else {
      var known := Known(cs, Table(p.server.tables, k));
      assert (Verb4(k) + known)[..4] == Verb4(k) && (Verb4(k) + known)[4..] == known;
    }
  }

  function TablesOf(peers: seq<Peer>, k: Kind): (ts: seq<set<string>>)
    requires Connected(peers)
    ensures |ts| == |peers| && forall i | 0 <= i < |peers| :: ts[i] == Serves(peers[i].server, peers[i].fd, k)
  {
    seq(|peers|, i requires 0 <= i < |peers| => Serves(peers[i].server, peers[i].fd, k))
  }

  /** What the lines say behind their first four characters. */
  function Bodies(lines: seq<string>): (ls: seq<string>)
    requires forall i | 0 <= i < |lines| :: |lines[i]| >= 4
    ensures |ls| == |lines| && forall i | 0 <= i < |lines| :: ls[i] == lines[i][4..]
  {
    seq(|lines|, i requires 0 <= i < |lines| => lines[i][4..])
  }

  /** The line that asks about the candidates. */
  function QueryFor(es: seq<Entry>, k: Kind): string
    requires Coded(es)
  {
    Verb4(k) + Concat(Asked(es))
  }

  lemma RepliesAreKnown(es: seq<Entry>, peers: seq<Peer>, k: Kind, lines: seq<string>)
    requires Coded(es) && Connected(peers) && AllReply(peers, QueryFor(es, k), lines)
    ensures forall i | 0 <= i < |lines| ::
              |lines[i]| >= 4 &&
              lines[i][..4] == if Disabled(peers[i].server, peers[i].fd) then "EDIS" else Verb4(k)
    ensures Bodies(lines) == KnownBy(Asked(es), TablesOf(peers, k))
  {
    forall i | 0 <= i < |lines|
      ensures |lines[i]| >= 4 && lines[i][4..] == Known(Asked(es), TablesOf(peers, k)[i])
      ensures lines[i][..4] == if Disabled(peers[i].server, peers[i].fd) then "EDIS" else Verb4(k)
    {
      ReplyIsKnown(peers[i], k, Asked(es), lines[i]);
    }
  }

  /**
   * Commands, from the query to the candidates left, with any servers, the lines being what they
   * write to the client: none of them is unexpected, and their merge keeps exactly the built-in
   * candidates and those some enabled server knows.
   */
  lemma FilteringIsExact(es: seq<Entry>, peers: seq<Peer>, lines: seq<string>)
    requires Coded(es) && Connected(peers) && AllReply(peers, QueryFor(es, Commands), lines)
    ensures forall i | 0 <= i < |lines| :: |lines[i]| >= 4 && (lines[i][..4] == "QCMD" || lines[i][..4] == "EDIS")
    ensures Merge(es, Bodies(lines)) == Supported(es, TablesOf(peers, Commands))
    ensures forall i | 0 <= i < |peers| ::
              TablesOf(peers, Commands)[i] ==
              if Disabled(peers[i].server, peers[i].fd) then {} else peers[i].server.tables.commands
  {
    RepliesAreKnown(es, peers, Commands, lines);
    MergeIsSupported(es, TablesOf(peers, Commands));
  }

  /**
   * Statuses, which are asked of one server: its line is EDIS exactly if it is disabled, and
   * otherwise a reply whose merge keeps exactly the candidates the server knows.
   */
  lemma StatusFilteringIsExact(es: seq<Entry>, p: Peer, line: string)
    requires Coded(es) && p.fd in p.server.conns && Replies(p, QueryFor(es, Statuses), line)
    ensures |line| >= 4 && (line[..4] == "QSTS" || line[..4] == "EDIS")
    ensures line[..4] == "EDIS" <==> Disabled(p.server, p.fd)
    ensures !Disabled(p.server, p.fd) ==> Merge(es, Bodies([line])) == Supported(es, [p.server.tables.statuses])
  {
    RepliesAreKnown(es, [p], Statuses, [line]);
    MergeIsSupported(es, TablesOf([p], Statuses));
    assert "QSTS"[0] != "EDIS"[0] && |[line][0]| >= 4;
    assert !Disabled(p.server, p.fd) ==> TablesOf([p], Statuses) == [p.server.tables.statuses];
  }

  /** When no candidate has a code, nothing is asked and all of them stay. */
  lemma {:induction false} NothingAsked(es: seq<Entry>, ls: seq<string>, tables: seq<set<string>>)
    requires Coded(es) && Asked(es) == []
    ensures Merge(es, ls) == es && Supported(es, tables) == es
  {
    if es != [] {
      assert es[0].node.code.None?;
      NothingAsked(es[1..], ls, tables);
      assert es == [es[0]] + es[1..];
    }
  }

  // ------------------------------------------------------------ in place

  /** What the pass will have kept, from the place it has reached. */
  ghost function MergeEnd(done: seq<Entry>, todo: seq<Entry>, ls: seq<string>): seq<Entry>
    requires Coded(todo)
  {
    done + Merge(todo, ls)
  }

  lemma MergeOne(done: seq<Entry>, todo: seq<Entry>, ls: seq<string>)
    requires todo != [] && Coded(todo)
    ensures Coded(todo[1..])
    ensures var e := todo[0];
            if e.node.code.None? then MergeEnd(done, todo, ls) == MergeEnd(done + [e], todo[1..], ls)
            else
              var code := Wire(e.node.code.value);
              MergeEnd(done, todo, ls) ==
              MergeEnd(if SomeAt(ls, code) then done + [e] else done, todo[1..], MovePast(ls, code))
  {
    var e := todo[0];
    if e.node.code.None? {
      Associate(done, [e], Merge(todo[1..], ls));
    } else {
      var code := Wire(e.node.code.value);
      Associate(done, if SomeAt(ls, code) then [e] else [], Merge(todo[1..], MovePast(ls, code)));
    }
  }

  /** The lines that have come to a code move past it. */
  method Compare(ls0: seq<string>, code: string) returns (found: bool, ls: seq<string>)
    requires |code| == 4
    ensures found == SomeAt(ls0, code) && ls == MovePast(ls0, code)
  {
    found, ls := false, ls0;
    for i := 0 to |ls0|
      invariant |ls| == |ls0|
      invariant forall j | 0 <= j < |ls0| :: ls[j] == if j < i then Past(ls0[j], code) else ls0[j]
      invariant found <==> exists j :: 0 <= j < i && StartsWith(ls0[j], code)
    {
      if StartsWith(ls[i], code) {
        found := true;
        ls := ls[i := ls[i][4..]];
      }
    }
  }

  /** One turn of the pass: a candidate stays if it has no code or some line has come to its code. */
  method FilterOne(cands: CandidateList, pcand: Candidate?, c: Candidate, l0: seq<string>)
      returns (found: bool, next: Candidate?, l: seq<string>)
    requires cands.Valid() && cands.At(pcand, c) && Coded(cands.todo)
    modifies cands`head, cands`nodes, cands`done, cands`todo, cands.repr
    ensures cands.Valid() && cands.At(if found then c else pcand, next) && Coded(cands.todo)
    ensures |cands.todo| < |old(cands.todo)|
    ensures MergeEnd(cands.done, cands.todo, l) == MergeEnd(old(cands.done), old(cands.todo), l0)
  {
    assert cands.todo[0] == EntryOf(c);
    MergeOne(cands.done, cands.todo, l0);
    found, l := true, l0;
    if c.code.Some? {
      found, l := Compare(l, Wire(c.code.value));
    }
    if found {
      next := cands.Keep(pcand, c, c.nameOff, c.isExact);
    } else {
      next := cands.Unlink(pcand, c);
    }
  }

  /** The pass over the candidates: those no line has come to are taken out of the list. */
  method MergeLines(cands: CandidateList, lines: seq<string>)
    requires cands.Valid() && Coded(cands.Entries())
    requires forall i | 0 <= i < |lines| :: |lines[i]| >= 4
    modifies cands`head, cands`nodes, cands`done, cands`todo, cands.repr
    ensures cands.Valid() && cands.Entries() == Merge(old(cands.Entries()), Bodies(lines))
  {
    var l := Bodies(lines);
    ghost var all := Merge(cands.Entries(), l);
    var pcand: Candidate? := null;
    var cand := cands.First();
    Associate([], [], all);
    while cand != null
      invariant cands.Valid() && cands.At(pcand, cand) && Coded(cands.todo)
      invariant MergeEnd(cands.done, cands.todo, l) == all
      decreases |cands.todo|
    {
      var c: Candidate := cand;
      var found;
      found, cand, l := FilterOne(cands, pcand, c, l);
      if found {
        pcand := c;
      }
    }
  }

  ghost function AskedEnd(query: string, todo: seq<Entry>): string
    requires Coded(todo)
  {
    query + Concat(Asked(todo))
  }

  lemma AskOne(query: string, todo: seq<Entry>)
    requires todo != [] && Coded(todo)
    ensures Coded(todo[1..])
    ensures var code := todo[0].node.code;
            AskedEnd(query, todo) == AskedEnd(if code.Some? then query + Wire(code.value) else query, todo[1..])
  {
    var code, rest := todo[0].node.code, Asked(todo[1..]);
    if code.Some? {
      HeadTail(Wire(code.value), rest);
      assert Concat([Wire(code.value)] + rest) == Wire(code.value) + Concat(rest);
      Associate(query, Wire(code.value), Concat(rest));
    } else {
      Associate(rest, [], []);
    }
  }

  /** One turn of building the query: a candidate's code, if it has one, joins it. */
  method AskAbout(cands: CandidateList, ghost pcand: Candidate?, c: Candidate, query0: string)
      returns (next: Candidate?, query: string)
    requires cands.Valid() && cands.At(pcand, c) && Coded(cands.todo)
    modifies cands`done, cands`todo
    ensures cands.Valid() && cands.At(c, next) && cands.Entries() == old(cands.Entries())
    ensures Coded(cands.todo) && |cands.todo| < |old(cands.todo)|
    ensures AskedEnd(query, cands.todo) == AskedEnd(query0, old(cands.todo))
  {
    AskOne(query0, cands.todo);
    next := cands.Pass(pcand, c);
    query := if c.code.Some? then query0 + Wire(c.code.value) else query0;
  }

  /** The query, put together in a loop over the candidates, which it leaves alone. */
  method BuildQuery(cands: CandidateList, k: Kind) returns (query: string)
    requires cands.Valid() && Coded(cands.Entries())
    modifies cands`done, cands`todo
    ensures cands.Valid() && cands.Entries() == old(cands.Entries())
    ensures query == QueryFor(old(cands.Entries()), k)
  {
    query := Verb4(k);
    ghost var es, all := cands.Entries(), QueryFor(cands.Entries(), k);
    ghost var pcand: Candidate? := null;
    var cand := cands.First();
    while cand != null
      invariant cands.Valid() && cands.At(pcand, cand) && cands.Entries() == es
      invariant Coded(cands.todo) && AskedEnd(query, cands.todo) == all
      decreases |cands.todo|
    {
      var c: Candidate := cand;
      cand, query := AskAbout(cands, pcand, c, query);
      pcand := c;
    }
  }

  /**
   * The candidates no server knows are taken out of the list. `query` is the line written to every
   * server, if any; `lines` are what is read then, and `peers` the servers that wrote them.
   */
  method FilterCandidates(cands: CandidateList, lines: seq<string>, ghost peers: seq<Peer>)
      returns (query: Option<string>)
    requires cands.Valid() && Coded(cands.Entries()) && Connected(peers)
    requires forall i | 0 <= i < |lines| :: |lines[i]| >= 4
    modifies cands`head, cands`nodes, cands`done, cands`todo, cands.repr
    ensures cands.Valid() && cands.Entries() == Merge(old(cands.Entries()), Bodies(lines))
    ensures query == if Asked(old(cands.Entries())) == [] then None else Some(QueryFor(old(cands.Entries()), Commands))
    ensures query.None? || AllReply(peers, query.value, lines) ==>
              cands.Entries() == Supported(old(cands.Entries()), TablesOf(peers, Commands))
  {
    ghost var es := cands.Entries();
    var line := BuildQuery(cands, Commands);
    if |line| <= 4 {
      NothingAsked(es, Bodies(lines), TablesOf(peers, Commands));
      return None;
    }
    query := Some(line);
    if AllReply(peers, line, lines) {
      FilteringIsExact(es, peers, lines);
    }
    MergeLines(cands, lines);
  }

  /** The same for statuses, which are asked of one server only: a disabled one leaves the list alone. */
  method FilterNotifies(cands: CandidateList, line: string, ghost p: Peer) returns (disabled: bool, query: string)
    requires cands.Valid() && Coded(cands.Entries()) && |line| >= 4 && p.fd in p.server.conns
    modifies cands`head, cands`nodes, cands`done, cands`todo, cands.repr
    ensures cands.Valid() && disabled == (line[..4] == "EDIS")
    ensures cands.Entries() == if disabled then old(cands.Entries()) else Merge(old(cands.Entries()), Bodies([line]))
    ensures query == QueryFor(old(cands.Entries()), Statuses)
    ensures Replies(p, query, line) ==>
              && disabled == Disabled(p.server, p.fd)
              && cands.Entries() == if disabled then old(cands.Entries())
                                    else Supported(old(cands.Entries()), [p.server.tables.statuses])
  {
    ghost var es := cands.Entries();
    query := BuildQuery(cands, Statuses);
    if Replies(p, query, line) {
      StatusFilteringIsExact(es, p, line);
    }
    if line[..4] == "EDIS" {
      return true, query;
    }
    MergeLines(cands, [line]);
    disabled := false;
  }
}
