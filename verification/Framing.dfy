/**
 * Cutting a byte stream, read in arbitrary chunks, into terminated fields: the device side
 * (backend.cc, `readcb`) drops empty fields, the client side (api_serverside.cc, `readcb`,
 * over `evbuffer_readline`) hands over every line.
 */
module Framing {
  import opened Sequences

  /** How a stream is cut: the characters that end a field, and whether empty fields are handed over. */
  datatype Cut = Cut(stops: set<char>, keepEmpty: bool)

  /** What a buffer yields: the fields handed over, and the bytes that stay buffered. */
  datatype Framed = Framed(packets: seq<string>, rest: string)

  predicate Clean(s: string, c: Cut) { forall i | 0 <= i < |s| :: s[i] !in c.stops }

  /** The position of the first stop in `s`, or `|s|`. */
  function FirstStop(s: string, c: Cut): (i: nat)
    ensures i <= |s| && forall k | 0 <= k < i :: s[k] !in c.stops
    ensures i < |s| ==> s[i] in c.stops
  {
    if s == [] || s[0] in c.stops then 0 else 1 + FirstStop(s[1..], c)
  }

  function Handed(field: string, c: Cut): seq<string> {
    if field == [] && !c.keepEmpty then [] else [field]
  }

  /** One call of a draining loop on buffer `s`. */
  function Frame(s: string, c: Cut): (f: Framed)
    ensures Clean(f.rest, c)
    decreases |s|
  {
    var i := FirstStop(s, c);
    if i == |s| then Framed([], s)
    else
      var f := Frame(s[i + 1..], c);
      Framed(Handed(s[..i], c) + f.packets, f.rest)
  }

  /** A run of reads: each chunk is appended to what the previous read left, and the buffer drained. */
  function Feed(left: string, chunks: seq<string>, c: Cut): Framed
    decreases |chunks|
  {
    if chunks == [] then Framed([], left)
    else
      var f := Frame(left + chunks[0], c);
      var g := Feed(f.rest, chunks[1..], c);
      Framed(f.packets + g.packets, g.rest)
  }

  function Flatten(ss: seq<string>): string {
    if ss == [] then [] else ss[0] + Flatten(ss[1..])
  }

  lemma FirstStopUnique(s: string, i: nat, c: Cut)
    requires i <= |s| && (forall k | 0 <= k < i :: s[k] !in c.stops) && (i < |s| ==> s[i] in c.stops)
    ensures FirstStop(s, c) == i
  {
  }

  lemma FrameClean(s: string, c: Cut)
    requires Clean(s, c)
    ensures Frame(s, c) == Framed([], s)
  {
    FirstStopUnique(s, |s|, c);
  }

  /** A buffer that starts with a whole field yields that field, then what follows it. */
  lemma FrameField(field: string, stop: char, tail: string, c: Cut)
    requires Clean(field, c) && stop in c.stops
    ensures Frame(field + [stop] + tail, c) ==
            Framed(Handed(field, c) + Frame(tail, c).packets, Frame(tail, c).rest)
  {
    var s := field + [stop] + tail;
    assert s[..|field|] == field && s[|field| + 1..] == tail;
    FirstStopUnique(s, |field|, c);
  }

  /** More packets before those of `f`. */
  function Joined(packets: seq<string>, f: Framed): Framed { Framed(packets + f.packets, f.rest) }

  /** A buffer that holds a stop: its first field, then what follows it. */
  lemma FrameFirst(s: string, c: Cut)
    requires FirstStop(s, c) < |s|
    ensures var i := FirstStop(s, c);
            Frame(s, c) == Joined(Handed(s[..i], c), Frame(s[i + 1..], c))
  {}

  // ------------------------------------------------ the stream as fields and stops

  /** The stream that consists of `fields`, each followed by its stop. */
  function Join(fields: seq<string>, stops: string): string
    requires |fields| == |stops|
  {
    if fields == [] then [] else fields[0] + [stops[0]] + Join(fields[1..], stops[1..])
  }

  lemma {:induction false} JoinSnoc(fields: seq<string>, stops: string, field: string, stop: char)
    requires |fields| == |stops|
    ensures Join(fields + [field], stops + [stop]) == Join(fields, stops) + (field + [stop])
    decreases |fields|
  {
    if fields == [] {
      assert [field][1..] == [] && [stop][1..] == [] && Join([], []) == [];
    } else {
      assert (fields + [field])[1..] == fields[1..] + [field] && (stops + [stop])[1..] == stops[1..] + [stop];
      JoinSnoc(fields[1..], stops[1..], field, stop);
      Associate(fields[0] + [stops[0]], Join(fields[1..], stops[1..]), field + [stop]);
    }
  }

  /** The fields a reader is handed. */
  function HandedOver(fields: seq<string>, c: Cut): seq<string> {
    if fields == [] then [] else Handed(fields[0], c) + HandedOver(fields[1..], c)
  }

  ghost predicate Fields(s: string, fields: seq<string>, stops: string, rest: string, c: Cut) {
    && |fields| == |stops|
    && s == Join(fields, stops) + rest
    && (forall i | 0 <= i < |fields| :: Clean(fields[i], c) && stops[i] in c.stops)
    && Clean(rest, c)
  }

  /** A buffer that starts with whole fields yields them, then what follows them. */
  lemma {:induction false} FrameFields(fields: seq<string>, stops: string, tail: string, c: Cut)
    requires |fields| == |stops| && forall i | 0 <= i < |fields| :: Clean(fields[i], c) && stops[i] in c.stops
    ensures Frame(Join(fields, stops) + tail, c) == Joined(HandedOver(fields, c), Frame(tail, c))
    decreases |fields|
  {
    if fields == [] {
      assert Join(fields, stops) + tail == tail;
      Associate([], Frame(tail, c).packets, []);
    } else {
      var after := Join(fields[1..], stops[1..]) + tail;
      assert Join(fields, stops) + tail == fields[0] + [stops[0]] + after;
      FrameField(fields[0], stops[0], after, c);
      FrameFields(fields[1..], stops[1..], tail, c);
      Associate(Handed(fields[0], c), HandedOver(fields[1..], c), Frame(tail, c).packets);
    }
  }

  /** In whatever way a stream is written as stopped fields and a rest, these are what a drain yields. */
  lemma FrameIsFields(s: string, fields: seq<string>, stops: string, rest: string, c: Cut)
    requires Fields(s, fields, stops, rest, c)
    ensures Frame(s, c) == Framed(HandedOver(fields, c), rest)
  {
    FrameFields(fields, stops, rest, c);
    FrameClean(rest, c);
  }

  /** Every stream can be written that way. */
  lemma {:induction false} StreamHasFields(s: string, c: Cut) returns (fields: seq<string>, stops: string, rest: string)
    ensures Fields(s, fields, stops, rest, c)
    decreases |s|
  {
    var i := FirstStop(s, c);
    if i == |s| {
      fields, stops, rest := [], [], s;
      assert s[..i] == s;
      assert Join(fields, stops) + rest == s;
    } else {
      var fs, ts, r := StreamHasFields(s[i + 1..], c);
      fields, stops, rest := [s[..i]] + fs, [s[i]] + ts, r;
      assert fields[1..] == fs && stops[1..] == ts;
      assert s == s[..i] + [s[i]] + s[i + 1..];
      assert Join(fields, stops) + rest == s[..i] + [s[i]] + (Join(fs, ts) + r);
    }
  }

  /** Draining `s` yields `packets` and leaves `rest`. */
  ghost predicate Yields(s: string, c: Cut, packets: seq<string>, rest: string) {
    exists fields, stops :: Fields(s, fields, stops, rest, c) && packets == HandedOver(fields, c)
  }

  lemma YieldsFrame(s: string, c: Cut)
    ensures Yields(s, c, Frame(s, c).packets, Frame(s, c).rest)
  {
    var fields, stops, rest := StreamHasFields(s, c);
    FrameIsFields(s, fields, stops, rest, c);
  }

  lemma FrameYields(s: string, c: Cut, packets: seq<string>, rest: string)
    requires Yields(s, c, packets, rest)
    ensures Frame(s, c) == Framed(packets, rest)
  {
    var fields, stops :| Fields(s, fields, stops, rest, c) && packets == HandedOver(fields, c);
    FrameIsFields(s, fields, stops, rest, c);
  }

  /** The first packet, and what the rest yields. */
  lemma YieldsFirst(s: string, c: Cut, packets: seq<string>, rest: string)
    requires Yields(s, c, packets, rest) && FirstStop(s, c) < |s| && (FirstStop(s, c) > 0 || c.keepEmpty)
    ensures packets != [] && packets[0] == s[..FirstStop(s, c)]
    ensures Yields(s[FirstStop(s, c) + 1..], c, packets[1..], rest)
  {
    var i := FirstStop(s, c);
    FrameYields(s, c, packets, rest);
    FrameFirst(s, c);
    YieldsFrame(s[i + 1..], c);
    HeadTail(s[..i], Frame(s[i + 1..], c).packets);
  }

  /** An empty first field that is dropped. */
  lemma YieldsLater(s: string, c: Cut, packets: seq<string>, rest: string)
    requires Yields(s, c, packets, rest) && s != [] && FirstStop(s, c) == 0 && !c.keepEmpty
    ensures Yields(s[1..], c, packets, rest)
  {
    FrameYields(s, c, packets, rest);
    FrameFirst(s, c);
    YieldsFrame(s[1..], c);
    Associate([], Frame(s[1..], c).packets, []);
  }

  lemma YieldsNone(s: string, c: Cut, packets: seq<string>, rest: string)
    requires Yields(s, c, packets, rest) && FirstStop(s, c) == |s|
    ensures packets == [] && rest == s
  {
    FrameYields(s, c, packets, rest);
  }

  // ------------------------------------------------ the stream in reads

  /** Draining early changes nothing: what a first drain leaves, joined by what follows, yields the rest. */
  lemma FrameAppend(s: string, t: string, c: Cut)
    ensures Frame(s + t, c) == Joined(Frame(s, c).packets, Frame(Frame(s, c).rest + t, c))
  {
    var fields, stops, rest := StreamHasFields(s, c);
    FrameIsFields(s, fields, stops, rest, c);
    assert s + t == Join(fields, stops) + (rest + t);
    FrameFields(fields, stops, rest + t, c);
  }

  /** However the stream is cut into reads, the fields handed over and the leftover are those of the whole stream. */
  lemma {:induction false} ChunksDoNotMatter(left: string, chunks: seq<string>, c: Cut)
    requires Clean(left, c)
    ensures Feed(left, chunks, c) == Frame(left + Flatten(chunks), c)
    decreases |chunks|
  {
    if chunks == [] {
      Associate(left, [], []);
      FrameClean(left, c);
    } else {
      Associate(left, chunks[0], Flatten(chunks[1..]));
      var f := Frame(left + chunks[0], c);
      ChunksDoNotMatter(f.rest, chunks[1..], c);
      FrameAppend(left + chunks[0], Flatten(chunks[1..]), c);
    }
  }

  /** Packets delivered over any run of reads: the handed-over fields of the whole stream; none holds a stop. */
  lemma DeliveredFields(chunks: seq<string>, fields: seq<string>, stops: string, rest: string, c: Cut)
    requires Fields(Flatten(chunks), fields, stops, rest, c)
    ensures Feed([], chunks, c) == Framed(HandedOver(fields, c), rest)
    ensures forall p | p in Feed([], chunks, c).packets :: Clean(p, c) && (p != [] || c.keepEmpty)
  {
    ChunksDoNotMatter([], chunks, c);
    assert [] + Flatten(chunks) == Flatten(chunks);
    FrameIsFields(Flatten(chunks), fields, stops, rest, c);
    HandedOverKept(fields, c);
  }

  lemma {:induction false} HandedOverKept(fields: seq<string>, c: Cut)
    ensures forall p | p in HandedOver(fields, c) :: p in fields && (p != [] || c.keepEmpty)
    ensures c.keepEmpty || (forall f | f in fields :: f != []) ==> HandedOver(fields, c) == fields
  {
    if fields != [] {
      HandedOverKept(fields[1..], c);
      assert fields == [fields[0]] + fields[1..];
      assert fields[0] in fields && forall f | f in fields[1..] :: f in fields;
    }
  }
}
