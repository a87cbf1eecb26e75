/**
 * What a client's bytes come to at the server, however they are cut into reads, and the command
 * line in particular: written by `send_int_command` (cli.c), parsed by `send_command`
 * (api_serverside.cc).
 */
module ClientBytes {
  import opened Sequences
  import opened Codec
  import opened Framing
  import opened Registry
  import opened Daemons

  // ------------------------------------------------------------ any way of reading

  /** A run of reads from one client. */
  ghost function ReadMany(s: State, fd: int, chunks: seq<string>): (t: State)
    requires fd in s.conns
    ensures t.conns.Keys == s.conns.Keys
    decreases |chunks|
  {
    if chunks == [] then s else ReadMany(Read(s, fd, chunks[0]), fd, chunks[1..])
  }

  lemma {:induction false} HandleAllIgnoresInput(s: State, fd: int, input: string, lines: seq<string>)
    requires fd in s.conns
    ensures HandleAll(SetInput(s, fd, input), fd, lines) == SetInput(HandleAll(s, fd, lines), fd, input)
    decreases |lines|
  {
    if lines != [] {
      HandleIgnoresInput(s, fd, input, CString(lines[0]));
      HandleAllIgnoresInput(Handle(s, fd, CString(lines[0])), fd, input, lines[1..]);
      HandleAllStep(SetInput(s, fd, input), fd, lines, SetInput(Handle(s, fd, CString(lines[0])), fd, input));
    }
  }

  lemma {:induction false} HandleAllAppend(s: State, fd: int, ls: seq<string>, ms: seq<string>)
    requires fd in s.conns
    ensures HandleAll(s, fd, ls + ms) == HandleAll(HandleAll(s, fd, ls), fd, ms)
    decreases |ls|
  {
    if ls == [] {
      assert ls + ms == ms;
    } else {
      var t := Handle(s, fd, CString(ls[0]));
      assert (ls + ms)[1..] == ls[1..] + ms;
      HandleAllAppend(t, fd, ls[1..], ms);
      HandleAllStep(s, fd, ls + ms, t);
      HandleAllStep(s, fd, ls, t);
    }
  }

  lemma ReadIs(s: State, fd: int, input: string, chunk: string)
    requires fd in s.conns
    ensures var f := Frame(input + chunk, LINE_CUT);
            Read(SetInput(s, fd, input), fd, chunk) == SetInput(HandleAll(s, fd, f.packets), fd, f.rest)
  {
    var f := Frame(input + chunk, LINE_CUT);
    SetInputTwice(s, fd, input, f.rest);
    HandleAllIgnoresInput(s, fd, f.rest, f.packets);
  }

  /** However a client's stream is cut into reads, the server handles the lines of the whole stream. */
  lemma {:induction false} ReadsAreOneRead(s: State, fd: int, input: string, chunks: seq<string>)
    requires fd in s.conns
    ensures var f := Feed(input, chunks, LINE_CUT);
            ReadMany(SetInput(s, fd, input), fd, chunks) == SetInput(HandleAll(s, fd, f.packets), fd, f.rest)
    decreases |chunks|
  {
    if chunks != [] {
      var f := Frame(input + chunks[0], LINE_CUT);
      var g := Feed(f.rest, chunks[1..], LINE_CUT);
      ReadIs(s, fd, input, chunks[0]);
      var t := HandleAll(s, fd, f.packets);
      ReadsAreOneRead(t, fd, f.rest, chunks[1..]);
      HandleAllAppend(s, fd, f.packets, g.packets);
    }
  }

  /** Lines each ended by a newline are handled one by one, however they are cut into reads. */
  lemma LinesHandled(s: State, fd: int, lines: seq<string>, chunks: seq<string>)
    requires fd in s.conns && s.conns[fd].input == []
    requires forall i | 0 <= i < |lines| :: Clean(lines[i], LINE_CUT)
    requires Flatten(chunks) == Join(lines, seq(|lines|, _ => '\n'))
    ensures ReadMany(s, fd, chunks) == HandleAll(s, fd, lines)
  {
    var stops := seq(|lines|, _ => '\n');
    assert Flatten(chunks) == Join(lines, stops) + [];
    DeliveredFields(chunks, lines, stops, [], LINE_CUT);
    HandedOverKept(lines, LINE_CUT);
    SetInputSame(s, fd);
    ReadsAreOneRead(s, fd, [], chunks);
    HandleAllIgnoresInput(s, fd, [], lines);
  }

  /** A client's connection from its first byte to its end. */
  ghost function Session(s: State, fd: int, chunks: seq<string>): State
    requires fd in s.conns
  {
    Eof(ReadMany(s, fd, chunks), fd)
  }

  predicate Plain(s: string) { forall i | 0 <= i < |s| :: s[i] != '\n' && s[i] != '\0' }

  lemma {:induction false} PlainCString(s: string)
    requires Plain(s)
    ensures CString(s) == s
  {
    if s != [] {
      PlainCString(s[1..]);
      assert s == [s[0]] + s[1..];
    }
  }

  /** At the end of file what is left over is a line, with any NULs in it. */
  lemma EofOfLine(s: State, fd: int, line: string)
    requires fd in s.conns && forall i | 0 <= i < |line| :: line[i] != '\n'
    ensures Eof(SetInput(s, fd, line), fd) == Hangup(if line == [] then s else Handle(s, fd, line), fd)
  {
    assert line + [] == line;
    FrameClean(line, LINE_CUT);
    ReadIs(s, fd, line, []);
    HandleIgnoresInput(s, fd, line, line);
    assert s.conns[fd := s.conns[fd].(input := line)] - {fd} == s.conns - {fd};
    var t := Handle(s, fd, line);
    assert t.conns[fd := t.conns[fd].(input := line)] - {fd} == t.conns - {fd};
  }

  /**
   * A client that sends one line and closes is understood alike whether it ends the line with a
   * newline or only by closing, and however its bytes arrive.
   */
  lemma OneLineSession(s: State, fd: int, line: string, chunks: seq<string>)
    requires fd in s.conns && s.conns[fd].input == [] && Plain(line) && line != []
    requires Flatten(chunks) == line || Flatten(chunks) == line + "\n"
    ensures Session(s, fd, chunks) == Hangup(Handle(s, fd, line), fd)
  {
    SetInputSame(s, fd);
    ReadsAreOneRead(s, fd, [], chunks);
    ChunksDoNotMatter([], chunks, LINE_CUT);
    assert [] + Flatten(chunks) == Flatten(chunks);
    if Flatten(chunks) == line {
      FrameClean(line, LINE_CUT);
      EofOfLine(s, fd, line);
    } else {
      assert line + ['\n'] + [] == line + "\n";
      FrameField(line, '\n', [], LINE_CUT);
      FrameClean([], LINE_CUT);
      PlainCString(line);
      HandleAllStep(s, fd, [line], Handle(s, fd, line));
      EofOfLine(Handle(s, fd, line), fd, []);
    }
  }

  // ------------------------------------------------------------ the command line

  function EncodeAll(args: seq<int>): string {
    if args == [] then [] else Encode(args[0]) + EncodeAll(args[1..])
  }

  function Fold23All(args: seq<int>): seq<int> {
    if args == [] then [] else [Fold23(args[0])] + Fold23All(args[1..])
  }

  /**
   * What the client writes for a command: no newline, since the count given to `writev` leaves
   * the last, newline, part out.
   */
  function SendBytes(code: string, args: seq<int>): string
    requires |code| >= 4
  {
    "SEND" + code[..4] + EncodeAll(args)
  }

  /** The bytes are SEND, the code's first four characters, and four for each argument: no newline. */
  lemma SentShape(code: string, args: seq<int>)
    requires |code| >= 4
    ensures var bytes := SendBytes(code, args);
            && |bytes| == 8 + 4 * |args| && bytes[..4] == "SEND" && bytes[4..8] == code[..4]
            && forall i | 0 <= i < |args| :: bytes[8 + 4 * i..12 + 4 * i] == Encode(args[i])
  {
    var bytes, rest := SendBytes(code, args), EncodeAll(args);
    assert bytes[..4] == "SEND" && bytes[4..8] == code[..4] && bytes[8..] == rest;
    EncodedSize(args);
    forall i | 0 <= i < |args|
      ensures bytes[8 + 4 * i..12 + 4 * i] == Encode(args[i])
    {
      EncodedAt(args, i);
      GroupAt(rest, i);
      assert bytes[8 + 4 * i..12 + 4 * i] == rest[4 * i..4 * i + 4];
    }
  }

  lemma {:induction false} EncodedSize(args: seq<int>)
    ensures |EncodeAll(args)| == 4 * |args|
  {
    if args != [] { EncodedSize(args[1..]); }
  }

  /** The four characters of `s` that begin at `4 * i`. */
  function Group(s: string, i: nat): string {
    if |s| < 4 then [] else if i == 0 then s[..4] else Group(s[4..], i - 1)
  }

  lemma {:induction false} GroupAt(s: string, i: nat)
    requires 4 * i + 4 <= |s|
    ensures Group(s, i) == s[4 * i..4 * i + 4]
    decreases i
  {
    if i > 0 {
      GroupAt(s[4..], i - 1);
      assert s[4..][4 * (i - 1)..4 * (i - 1) + 4] == s[4 * i..4 * i + 4];
    }
  }

  lemma {:induction false} EncodedAt(args: seq<int>, i: nat)
    requires i < |args|
    ensures Group(EncodeAll(args), i) == Encode(args[i])
  {
    var e, rest := Encode(args[0]), EncodeAll(args[1..]);
    assert (e + rest)[..4] == e && (e + rest)[4..] == rest;
    if i > 0 { EncodedAt(args[1..], i - 1); }
  }

  /** What will have been gathered, with the arguments `rest` still to come. */
  ghost function SendEnd(vecs: seq<string>, rest: seq<int>): string { Flatten(vecs) + EncodeAll(rest) }

  lemma SendStart(code: string, args: seq<int>)
    requires |code| >= 4
    ensures SendEnd(["SEND", code[..4]], args) == SendBytes(code, args)
  {
    assert ["SEND", code[..4]][1..] == [code[..4]] && [code[..4]][1..] == [];
    assert Flatten([code[..4]]) == code[..4] + [] == code[..4];
  }

  lemma SendStep(vecs: seq<string>, args: seq<int>, i: nat)
    requires i < |args|
    ensures SendEnd(vecs, args[i..]) == SendEnd(vecs + [Encode(args[i])], args[i + 1..])
  {
    var e, rest := Encode(args[i]), EncodeAll(args[i + 1..]);
    FlattenSnoc(vecs, e);
    assert EncodeAll(args[i..]) == e + rest by {
      assert args[i..][1..] == args[i + 1..];
    }
    Associate(Flatten(vecs), e, rest);
  }

  /** The client's loop over the arguments, and the count it passes on. */
  method SendIntCommand(code: string, args: seq<int>) returns (bytes: string)
    requires |code| >= 4 && forall i | 0 <= i < |args| :: -0x8000_0000 <= args[i] < 0x8000_0000
    ensures bytes == SendBytes(code, args)
  {
    var vecs, i := ["SEND", code[..4]], 0;
    SendStart(code, args);
    assert args[0..] == args;
    while i < |args|
      invariant 0 <= i <= |args| && |vecs| == i + 2
      invariant SendEnd(vecs, args[i..]) == SendBytes(code, args)
    {
      var parg := new char[4];
      Base64Int24(parg, args[i]);
      SendStep(vecs, args, i);
      vecs := vecs + [parg[..]];
      i := i + 1;
    }
    ghost var written := vecs;
    vecs := vecs + ["\n"];
    assert vecs[..i + 2] == written;
    bytes := Flatten(vecs[..i + 2]);
    assert EncodeAll([]) == [] && args[i..] == [];
  }

  lemma {:induction false} FlattenSnoc(ss: seq<string>, t: string)
    ensures Flatten(ss + [t]) == Flatten(ss) + t
  {
    if ss == [] {
      assert ss + [t] == [t] && [t][1..] == [];
    } else {
      assert (ss + [t])[1..] == ss[1..] + [t];
      FlattenSnoc(ss[1..], t);
    }
  }

  lemma PiecesCons(e: string, rest: string)
    requires |e| == 4
    ensures Pieces(e + rest) == [e] + Pieces(rest)
  {
    var s := e + rest;
    assert s[..4] == e && s[4..] == rest;
    if rest == [] {
      assert s == e;
    }
  }

  lemma {:induction false} PiecesOfArgs(args: seq<int>)
    ensures DecodeAll(Pieces(EncodeAll(args))) == Fold23All(args)
  {
    if args != [] {
      PiecesOfArgs(args[1..]);
      DecodeEncode(args[0]);
      var e, rest := Encode(args[0]), Pieces(EncodeAll(args[1..]));
      PiecesCons(e, EncodeAll(args[1..]));
      HeadTail(e, rest);
    }
  }

  lemma PlainJoin(a: string, b: string)
    requires Plain(a) && Plain(b)
    ensures Plain(a + b)
  {}

  lemma {:induction false} PlainArgs(args: seq<int>)
    ensures Plain(EncodeAll(args))
  {
    if args != [] {
      PlainArgs(args[1..]);
      assert forall i | 0 <= i < 4 :: Value(Encode(args[0])[i]) >= 0;
      assert Plain(Encode(args[0]));
      PlainJoin(Encode(args[0]), EncodeAll(args[1..]));
    }
  }

  lemma PlainCommand(code: string, args: seq<int>)
    requires |code| >= 4 && Plain(code[..4])
    ensures Plain(SendBytes(code, args)) && SendBytes(code, args) != []
  {
    PlainArgs(args);
    PlainJoin("SEND", code[..4]);
    PlainJoin("SEND" + code[..4], EncodeAll(args));
  }

  lemma CommandHandled(s: State, fd: int, code: string, args: seq<int>)
    requires fd in s.conns && !Disabled(s, fd) && |code| >= 4
    ensures Handle(s, fd, SendBytes(code, args)) == s.(commands := s.commands + [Sent(code[..4], Fold23All(args))])
  {
    var line, arg := SendBytes(code, args), code[..4] + EncodeAll(args);
    assert line == "SEND" + arg && line[..4] == "SEND" && line[4..] == arg;
    assert arg[..4] == code[..4] && arg[4..] == EncodeAll(args);
    assert Lookup("SEND") == Send by {
      assert "SEND"[0] != "QCMD"[0] && "SEND"[0] != "QSTS"[0];
    }
    PiecesOfArgs(args);
  }

  /** Exactly the arguments of 24 bits arrive as they were given. */
  lemma {:induction false} ArgumentsKept(args: seq<int>)
    ensures Fold23All(args) == args <==> forall i | 0 <= i < |args| :: IsInt24(args[i])
  {
    if args != [] {
      ArgumentsKept(args[1..]);
      assert args == [args[0]] + args[1..];
      assert Fold23All(args)[0] == Fold23(args[0]) && Fold23All(args)[1..] == Fold23All(args[1..]);
      assert (forall i | 0 <= i < |args| :: IsInt24(args[i])) <==>
             IsInt24(args[0]) && forall i | 0 <= i < |args[1..]| :: IsInt24(args[1..][i]) by {
        assert forall i | 0 <= i < |args[1..]| :: args[1..][i] == args[i + 1];
        assert forall i | 0 < i < |args| :: args[i] == args[1..][i - 1];
      }
    }
  }

  /**
   * The round trip of a command: the bytes the client writes before it closes, with a newline or
   * without, cut into reads in whatever way, make an enabled server pass on exactly one command,
   * with the first four characters of the code and the arguments reduced to their sign and 23
   * low bits - which is the very same arguments exactly if they all are 24-bit values.
   */
  lemma CommandRoundTrip(s: State, fd: int, code: string, args: seq<int>, chunks: seq<string>)
    requires fd in s.conns && s.conns[fd].input == [] && !Disabled(s, fd)
    requires |code| >= 4 && Plain(code[..4])
    requires var bytes := SendBytes(code, args); Flatten(chunks) == bytes || Flatten(chunks) == bytes + "\n"
    ensures Session(s, fd, chunks) ==
            Hangup(s.(commands := s.commands + [Sent(code[..4], Fold23All(args))]), fd)
    ensures Fold23All(args) == args <==> forall i | 0 <= i < |args| :: IsInt24(args[i])
  {
    PlainCommand(code, args);
    OneLineSession(s, fd, SendBytes(code, args), chunks);
    CommandHandled(s, fd, code, args);
    ArgumentsKept(args);
  }
}
