/**
 * A report walks the notification chain and calls each matching entry back, which may take that
 * entry out of the chain (status.cc, api_serverside.cc). The successor is taken before the call.
 */
module Notifying {
  import opened Sequences
  import opened Registry
  import opened Subscriptions

  /** The callback of one entry: its connection is told, and a one-shot entry's subscription stops. */
  function Callback(s: State, n: Info, val: string): State
    requires n.fd in s.conns
  {
    var s1 := Write(s, n.fd, StatLine(n.code, val));
    if n.once then StopNotify(s1, n.fd, n.code) else s1
  }

  /** The walk over the entries `todo`. */
  ghost function Walk(s: State, todo: seq<Info>, code: string, val: string): State
    requires forall n | n in todo :: n.fd in s.conns
    decreases |todo|
  {
    if todo == [] then s
    else
      assert todo[0] in todo;
      Walk(if todo[0].code == code then Callback(s, todo[0], val) else s, todo[1..], code, val)
  }

  /** A connection's state when the entries `done` have been called. */
  function Told(c: Conn, done: seq<Info>, code: string, val: string): Conn {
    if code in c.codes && c.codes[code] in done then Receive(c, code, val) else c
  }

  /** The state when the entries `done` of the chain have been called, and `todo` not. */
  ghost function Partway(s: State, done: seq<Info>, todo: seq<Info>, code: string, val: string): State {
    s.(chain := Delivered(done, code) + todo, conns := map fd | fd in s.conns :: Told(s.conns[fd], done, code, val))
  }

  lemma {:induction false} DeliveredSnoc(done: seq<Info>, n: Info, code: string)
    ensures Delivered(done + [n], code) == Delivered(done, code) + (if n.code == code && n.once then [] else [n])
  {
    var last := if n.code == code && n.once then [] else [n];
    if done == [] {
      Associate([n], [], []);
      Associate(last, [], []);
      assert [n][1..] == [];
    } else {
      var head := if done[0].code == code && done[0].once then [] else [done[0]];
      assert (done + [n])[1..] == done[1..] + [n];
      DeliveredSnoc(done[1..], n, code);
      Associate(head, Delivered(done[1..], code), last);
    }
  }

  lemma {:induction false} UnlinkNone(chain: seq<Info>, addr: nat)
    requires forall n | n in chain :: n.addr != addr
    ensures Unlink(chain, addr) == chain
  {
    if chain != [] {
      assert chain[0] in chain && forall n | n in chain[1..] :: n in chain;
      UnlinkNone(chain[1..], addr);
      assert chain == [chain[0]] + chain[1..];
    }
  }

  lemma {:induction false} UnlinkMiddle(pre: seq<Info>, n: Info, post: seq<Info>)
    requires forall m | m in pre || m in post :: m.addr != n.addr
    ensures Unlink(pre + [n] + post, n.addr) == pre + post
  {
    var all := pre + [n] + post;
    if pre == [] {
      assert all[1..] == post;
      UnlinkNone(post, n.addr);
    } else {
      assert all[0] == pre[0] && pre[0] in pre && all[1..] == pre[1..] + [n] + post;
      assert forall m | m in pre[1..] :: m in pre;
      UnlinkMiddle(pre[1..], n, post);
      assert pre + post == [pre[0]] + (pre[1..] + post);
    }
  }

  /** Only the connection of the entry called next is told next. */
  lemma ToldNext(s: State, done: seq<Info>, n: Info, fd: int, code: string, val: string)
    requires Inv(s) && n in s.chain && n !in done && fd in s.conns
    ensures Told(s.conns[fd], done + [n], code, val) ==
            if n.code == code && n.fd == fd then Receive(s.conns[fd], code, val) else Told(s.conns[fd], done, code, val)
    ensures n.code == code && n.fd == fd ==> Told(s.conns[fd], done, code, val) == s.conns[fd]
  {
    assert forall m :: m in done + [n] <==> m in done || m == n;
  }

  lemma CallbackConns(s: State, n: Info, val: string)
    requires n.fd in s.conns && n.code in s.conns[n.fd].codes && s.conns[n.fd].codes[n.code] == n
    ensures var t := Callback(s, n, val);
            && t.conns == s.conns[n.fd := Receive(s.conns[n.fd], n.code, val)]
            && t.chain == (if n.once then Unlink(s.chain, n.addr) else s.chain)
            && t == s.(conns := t.conns, chain := t.chain)
  {
    var c := s.conns[n.fd];
    PutTwice(s.conns, n.fd, c.(out := c.out + StatLine(n.code, val)), Receive(c, n.code, val));
  }

  lemma Apart(done: seq<Info>, n: Info, todo: seq<Info>)
    requires Distinct(done + [n] + todo)
    ensures forall m | m in done || m in todo :: m.addr != n.addr
  {
    var all, i := done + [n] + todo, |done|;
    assert all[i] == n;
    assert forall j | 0 <= j < |done| :: all[j] == done[j];
    assert forall j | 0 <= j < |todo| :: all[i + 1 + j] == todo[j];
  }

  lemma ChainStep(done: seq<Info>, n: Info, todo: seq<Info>, code: string)
    requires Distinct(done + [n] + todo) && n.code == code
    ensures (if n.once then Unlink(Delivered(done, code) + ([n] + todo), n.addr)
             else Delivered(done, code) + ([n] + todo)) == Delivered(done + [n], code) + todo
  {
    var pre := Delivered(done, code);
    DeliveredSnoc(done, n, code);
    Associate(pre, [n], todo);
    Associate(pre, [], todo);
    Apart(done, n, todo);
    if n.once {
      DeliveredHas(done, code);
      UnlinkMiddle(pre, n, todo);
    }
  }

  lemma ConnsStep(s: State, done: seq<Info>, n: Info, todo: seq<Info>, code: string, val: string)
    requires Inv(s) && n in s.chain && n !in done && n.fd in s.conns
    ensures var p, q := Partway(s, done, [n] + todo, code, val), Partway(s, done + [n], todo, code, val);
            && q.conns == (if n.code == code then p.conns[n.fd := Receive(p.conns[n.fd], code, val)] else p.conns)
            && (n.code == code ==> p.conns[n.fd] == s.conns[n.fd])
  {
    var p, q := Partway(s, done, [n] + todo, code, val), Partway(s, done + [n], todo, code, val);
    forall fd | fd in s.conns
      ensures q.conns[fd] == if n.code == code && n.fd == fd then Receive(s.conns[fd], code, val) else p.conns[fd]
    {
      ToldNext(s, done, n, fd, code, val);
    }
    ToldNext(s, done, n, n.fd, code, val);
  }

  lemma PartwayStep(s: State, done: seq<Info>, n: Info, todo: seq<Info>, code: string, val: string)
    requires Inv(s) && s.chain == done + [n] + todo
    ensures n.fd in s.conns
    ensures var p := Partway(s, done, [n] + todo, code, val);
            (if n.code == code then Callback(p, n, val) else p) == Partway(s, done + [n], todo, code, val)
  {
    assert n == s.chain[|done|] && n in s.chain;
    Apart(done, n, todo);
    var p := Partway(s, done, [n] + todo, code, val);
    ConnsStep(s, done, n, todo, code, val);
    if n.code == code {
      CallbackConns(p, n, val);
      ChainStep(done, n, todo, code);
    } else {
      DeliveredSnoc(done, n, code);
      Associate(Delivered(done, code), [n], todo);
    }
  }

  lemma PartwayEnds(s: State, code: string, val: string)
    requires Inv(s)
    ensures Partway(s, [], s.chain, code, val) == s
    ensures Partway(s, s.chain, [], code, val) == Notify(s, code, val)
  {
    assert Delivered([], code) + s.chain == s.chain;
    assert (map fd | fd in s.conns :: Told(s.conns[fd], [], code, val)) == s.conns;
    forall fd | fd in s.conns
      ensures Told(s.conns[fd], s.chain, code, val) == Receive(s.conns[fd], code, val)
    {
      assert code in s.conns[fd].codes ==> s.conns[fd].codes[code] in s.chain;
    }
    assert Delivered(s.chain, code) + [] == Delivered(s.chain, code);
  }

  lemma {:induction false} WalkFrom(s: State, done: seq<Info>, todo: seq<Info>, code: string, val: string)
    requires Inv(s) && s.chain == done + todo
    ensures forall n | n in todo :: n.fd in s.conns
    ensures Walk(Partway(s, done, todo, code, val), todo, code, val) == Notify(s, code, val)
    decreases |todo|
  {
    assert forall n | n in todo :: n in s.chain;
    if todo == [] {
      assert done == s.chain;
      PartwayEnds(s, code, val);
    } else {
      var n := todo[0];
      assert todo == [n] + todo[1..] && s.chain == done + [n] + todo[1..];
      PartwayStep(s, done, n, todo[1..], code, val);
      WalkFrom(s, done + [n], todo[1..], code, val);
    }
  }

  /**
   * Walking the chain, whatever its order and whatever entries drop out on the way, tells every
   * connection subscribed to the code exactly once and no other, and ends exactly the one-shots.
   */
  lemma WalkIsNotify(s: State, code: string, val: string)
    requires Inv(s)
    ensures forall n | n in s.chain :: n.fd in s.conns
    ensures Walk(s, s.chain, code, val) == Notify(s, code, val)
  {
    PartwayEnds(s, code, val);
    assert s.chain == [] + s.chain;
    WalkFrom(s, [], s.chain, code, val);
  }
}
