/** Completion of command names, word by word (complete.c). */
module Completion {
  import opened Sequences
  import opened Candidates

  // ------------------------------------------------------------ words

  const SEPARATORS: string := "_- "

  /** The position of the first separator in `s`, or `|s|`. */
  function WordEnd(s: string): (e: nat)
    ensures e <= |s| && forall i | 0 <= i < e :: s[i] !in SEPARATORS
    ensures e < |s| ==> s[e] in SEPARATORS
  {
    if s == [] || s[0] in SEPARATORS then 0 else 1 + WordEnd(s[1..])
  }

  function FirstWord(s: string): string { s[..WordEnd(s)] }

  /** What follows the first word and its separator. */
  function AfterWord(s: string): (t: string)
    ensures s != [] ==> |t| < |s|
  {
    if WordEnd(s) < |s| then s[WordEnd(s) + 1..] else []
  }

  /** The words of `s`: always at least one, possibly empty ones. */
  function Words(s: string): (ws: seq<string>)
    ensures ws != []
    decreases |s|
  {
    if WordEnd(s) == |s| then [s] else [FirstWord(s)] + Words(AfterWord(s))
  }

  function ArgWords(args: seq<string>): seq<string> {
    if args == [] then [] else Words(args[0]) + ArgWords(args[1..])
  }

  // ------------------------------------------------------------ one word

  /** Inside the name: at its start, just behind a separator, or at its end. */
  ghost predicate AtWord(e: Entry) {
    e.off <= |e.node.name| && (e.off == 0 || e.off == |e.node.name| || e.node.name[e.off - 1] in SEPARATORS)
  }

  ghost predicate Placed(es: seq<Entry>) {
    forall i | 0 <= i < |es| :: AtWord(es[i])
  }

  /** The part of the name still to be matched. */
  function Suffix(e: Entry): string
    requires e.off <= |e.node.name|
  {
    e.node.name[e.off..]
  }

  /** The candidate after its next word has been matched by `w`. */
  function Advance(e: Entry, w: string): (e': Entry)
    requires e.off <= |e.node.name|
    ensures e'.node == e.node && AtWord(e')
    ensures w <= Suffix(e) ==> (e'.exact <==> FirstWord(Suffix(e)) == w)
    ensures Suffix(e') == AfterWord(Suffix(e))
  {
    var s := Suffix(e);
    Entry(e.node, if WordEnd(s) < |s| then e.off + WordEnd(s) + 1 else |e.node.name|, WordEnd(s) == |w|)
  }

  /** The candidates whose next word starts with `w`, moved past that word. */
  function Matching(es: seq<Entry>, w: string): (ms: seq<Entry>)
    requires Placed(es)
    ensures Placed(ms) && |ms| <= |es|
  {
    if es == [] then []
    else (if w <= Suffix(es[0]) then [Advance(es[0], w)] else []) + Matching(es[1..], w)
  }

  /** The candidates whose next word does not start with `w`. */
  function Mismatching(es: seq<Entry>, w: string): seq<Candidate>
    requires Placed(es)
  {
    if es == [] then [] else (if w <= Suffix(es[0]) then [] else [es[0].node]) + Mismatching(es[1..], w)
  }

  function Exact(es: seq<Entry>): (xs: seq<Entry>)
    ensures |xs| <= |es| && (Placed(es) ==> Placed(xs))
  {
    if es == [] then [] else (if es[0].exact then [es[0]] else []) + Exact(es[1..])
  }

  /** The candidates that are not exact. */
  function Inexact(es: seq<Entry>): seq<Candidate> {
    if es == [] then [] else (if es[0].exact then [] else [es[0].node]) + Inexact(es[1..])
  }

  predicate HaveExact(es: seq<Entry>) { es != [] && (es[0].exact || HaveExact(es[1..])) }

  function Nodes(es: seq<Entry>): seq<Candidate> {
    if es == [] then [] else [es[0].node] + Nodes(es[1..])
  }

  /** One word of the arguments: prefix matches stay, and only exact ones if there are any. */
  function Narrow(es: seq<Entry>, w: string): (ns: seq<Entry>)
    requires Placed(es)
    ensures Placed(ns) && |ns| <= |es|
  {
    var ms := Matching(es, w);
    if HaveExact(ms) then Exact(ms) else ms
  }

  /** The candidates one word of the arguments takes out. */
  function NarrowedOut(es: seq<Entry>, w: string): seq<Candidate>
    requires Placed(es)
  {
    var ms := Matching(es, w);
    Mismatching(es, w) + (if HaveExact(ms) then Inexact(ms) else [])
  }

  /** With `exact` telling which names are used up. */
  function MarkUsedUp(es: seq<Entry>): (ms: seq<Entry>)
    ensures |ms| == |es| && (Placed(es) ==> Placed(ms))
  {
    if es == [] then [] else [es[0].(exact := es[0].off == |es[0].node.name|)] + MarkUsedUp(es[1..])
  }

  /** At the end of the arguments, names that are used up win over names that go on. */
  function Finish(es: seq<Entry>): (fs: seq<Entry>)
    requires Placed(es)
    ensures Placed(fs) && |fs| <= |es|
  {
    if |es| < 2 then es
    else
      var ms := MarkUsedUp(es);
      if HaveExact(ms) then Exact(ms) else ms
  }

  /** The candidates the end of the arguments takes out. */
  function FinishedOut(es: seq<Entry>): seq<Candidate> {
    if |es| < 2 || !HaveExact(MarkUsedUp(es)) then [] else Inexact(MarkUsedUp(es))
  }

  // ------------------------------------------------------------ all the arguments

  /** What completion comes to: the candidates left, how many arguments were used, and the candidates taken out. */
  datatype Completed = Completed(entries: seq<Entry>, used: nat, out: seq<Candidate>)

  function TakingOut(out: seq<Candidate>, c: Completed): Completed { c.(out := out + c.out) }

  /** The place in the arguments: argument `i`, character `o`, or their end. */
  predicate InArgs(args: seq<string>, i: nat, o: nat) {
    i <= |args| && (if i < |args| then o <= |args[i]| else o == 0)
  }

  /** The word at a place in the arguments, and the place behind it. */
  function NextWord(args: seq<string>, i: nat, o: nat): string
    requires InArgs(args, i, o) && i < |args|
  {
    FirstWord(args[i][o..])
  }

  function NextArg(args: seq<string>, i: nat, o: nat): nat
    requires InArgs(args, i, o) && i < |args|
  {
    if WordEnd(args[i][o..]) < |args[i]| - o then i else i + 1
  }

  function NextOffset(args: seq<string>, i: nat, o: nat): (o': nat)
    requires InArgs(args, i, o) && i < |args|
    ensures InArgs(args, NextArg(args, i, o), o')
    ensures NextArg(args, i, o) == i ==> o < o'
  {
    if WordEnd(args[i][o..]) < |args[i]| - o then o + WordEnd(args[i][o..]) + 1 else 0
  }

  /** No candidate is left, or a single one at the end of an argument. */
  predicate Settled(ns: seq<Entry>, o: nat) { ns == [] || (|ns| == 1 && o == 0) }

  /** Completion from a place in the arguments on. */
  function From(es: seq<Entry>, args: seq<string>, i: nat, o: nat): (c: Completed)
    requires Placed(es) && InArgs(args, i, o)
    ensures Placed(c.entries) && c.used <= |args|
    decreases |args| - i, if i < |args| then |args[i]| - o else 0
  {
    if i == |args| then Completed(Finish(es), i, FinishedOut(es))
    else
      var w, i', o' := NextWord(args, i, o), NextArg(args, i, o), NextOffset(args, i, o);
      var ns := Narrow(es, w);
      if Settled(ns, o') then Completed(ns, i', NarrowedOut(es, w))
      else TakingOut(NarrowedOut(es, w), From(ns, args, i', o'))
  }

  // ------------------------------------------------------------ in place

  /** What a loop that keeps exact candidates ends with, from the place it has reached. */
  ghost function ExactEnd(done: seq<Entry>, todo: seq<Entry>): seq<Entry> { done + Exact(todo) }
  ghost function InexactEnd(elim: seq<Candidate>, todo: seq<Entry>): seq<Candidate> { elim + Inexact(todo) }

  lemma PruneOne(done: seq<Entry>, todo: seq<Entry>, elim: seq<Candidate>)
    requires todo != []
    ensures ExactEnd(done, todo) == ExactEnd(if todo[0].exact then done + [todo[0]] else done, todo[1..])
    ensures InexactEnd(elim, todo) == InexactEnd(if todo[0].exact then elim else elim + [todo[0].node], todo[1..])
  {
    Associate(done, if todo[0].exact then [todo[0]] else [], Exact(todo[1..]));
    Associate(elim, if todo[0].exact then [] else [todo[0].node], Inexact(todo[1..]));
  }

  /** Candidates that are not exact are taken out and handed to the callback, here collected in `elim`. */
  method PruneInexact(cands: CandidateList) returns (elim: seq<Candidate>)
    requires cands.Valid()
    modifies cands`head, cands`nodes, cands`done, cands`todo, cands.repr
    ensures cands.Valid()
    ensures cands.Entries() == Exact(old(cands.Entries()))
    ensures elim == Inexact(old(cands.Entries()))
  {
    ghost var kept, out := Exact(cands.Entries()), Inexact(cands.Entries());
    elim := [];
    var pcand: Candidate? := null;
    var cand := cands.First();
    while cand != null
      invariant cands.Valid() && cands.At(pcand, cand)
      invariant ExactEnd(cands.done, cands.todo) == kept && InexactEnd(elim, cands.todo) == out
      decreases |cands.todo|
    {
      var c: Candidate := cand;
      assert cands.todo[0] == EntryOf(c);
      PruneOne(cands.done, cands.todo, elim);
      if !c.isExact {
        cand := cands.Unlink(pcand, c);
        elim := elim + [c];
      } else {
        cand := cands.Keep(pcand, c, c.nameOff, c.isExact);
        pcand := c;
      }
    }
  }

  ghost function MatchingEnd(done: seq<Entry>, todo: seq<Entry>, w: string): seq<Entry>
    requires Placed(todo)
  {
    done + Matching(todo, w)
  }

  ghost function MismatchingEnd(elim: seq<Candidate>, todo: seq<Entry>, w: string): seq<Candidate>
    requires Placed(todo)
  {
    elim + Mismatching(todo, w)
  }

  ghost function HaveEnd(have: bool, todo: seq<Entry>, w: string): bool
    requires Placed(todo)
  {
    have || HaveExact(Matching(todo, w))
  }

  lemma MatchOne(done: seq<Entry>, todo: seq<Entry>, elim: seq<Candidate>, have: bool, w: string)
    requires todo != [] && Placed(todo)
    ensures Placed(todo[1..])
    ensures var e, keep := todo[0], w <= Suffix(todo[0]);
            && MatchingEnd(done, todo, w) == MatchingEnd(if keep then done + [Advance(e, w)] else done, todo[1..], w)
            && MismatchingEnd(elim, todo, w) == MismatchingEnd(if keep then elim else elim + [e.node], todo[1..], w)
            && HaveEnd(have, todo, w) == HaveEnd(have || (keep && Advance(e, w).exact), todo[1..], w)
  {
    var e, keep := todo[0], w <= Suffix(todo[0]);
    var rest := Matching(todo[1..], w);
    Associate(done, if keep then [Advance(e, w)] else [], rest);
    Associate(elim, if keep then [] else [e.node], Mismatching(todo[1..], w));
    if keep {
      assert ([Advance(e, w)] + rest)[1..] == rest;
    } else {
      assert [] + rest == rest;
    }
  }

  /** One candidate is matched against a word: it is taken out if it does not fit, and moves on if it does. */
  method MatchCandidate(cands: CandidateList, pcand: Candidate?, c: Candidate, w: string)
      returns (next: Candidate?, fits: bool, exact: bool)
    requires cands.Valid() && cands.At(pcand, c) && Placed(cands.todo)
    modifies cands`head, cands`nodes, cands`done, cands`todo, cands.repr
    ensures cands.Valid() && cands.At(if fits then c else pcand, next)
    ensures old(cands.todo) != [] && cands.todo == old(cands.todo)[1..]
    ensures var e := old(cands.todo)[0];
            && e.node == c && (fits <==> w <= Suffix(e))
            && cands.done == (if fits then old(cands.done) + [Advance(e, w)] else old(cands.done))
            && exact == (fits && Advance(e, w).exact)
  {
    assert cands.todo[0] == EntryOf(c);
    var suffix := c.name[c.nameOff..];
    ghost var e := Advance(EntryOf(c), w);
    fits, exact := w <= suffix, false;
    if !fits {
      next := cands.Unlink(pcand, c);
    } else {
      var ea := WordEnd(suffix);
      exact := ea == |w|;
      var off := if ea < |suffix| then c.nameOff + ea + 1 else |c.name|;
      assert e == Entry(c, off, exact);
      next := cands.Keep(pcand, c, off, exact);
    }
  }

  /** The candidates are matched against one word; those that do not fit are taken out, the others move on. */
  method MatchWord(cands: CandidateList, w: string) returns (haveExact: bool, elim: seq<Candidate>)
    requires cands.Valid() && Placed(cands.Entries())
    modifies cands`head, cands`nodes, cands`done, cands`todo, cands.repr
    ensures cands.Valid()
    ensures cands.Entries() == Matching(old(cands.Entries()), w)
    ensures elim == Mismatching(old(cands.Entries()), w)
    ensures haveExact == HaveExact(cands.Entries())
  {
    ghost var kept, out := Matching(cands.Entries(), w), Mismatching(cands.Entries(), w);
    ghost var have := HaveExact(kept);
    haveExact, elim := false, [];
    var pcand: Candidate? := null;
    var cand := cands.First();
    while cand != null
      invariant cands.Valid() && cands.At(pcand, cand) && Placed(cands.todo)
      invariant HaveEnd(haveExact, cands.todo, w) == have
      invariant MatchingEnd(cands.done, cands.todo, w) == kept && MismatchingEnd(elim, cands.todo, w) == out
      decreases |cands.todo|
    {
      var c: Candidate := cand;
      MatchOne(cands.done, cands.todo, elim, haveExact, w);
      var fits, exact;
      cand, fits, exact := MatchCandidate(cands, pcand, c, w);
      if fits {
        pcand := c;
      } else {
        elim := elim + [c];
      }
      haveExact := haveExact || exact;
    }
  }

  ghost function MarkedEnd(done: seq<Entry>, todo: seq<Entry>): seq<Entry> { done + MarkUsedUp(todo) }

  lemma MarkOne(done: seq<Entry>, todo: seq<Entry>)
    requires todo != []
    ensures var m := todo[0].(exact := todo[0].off == |todo[0].node.name|);
            && MarkedEnd(done, todo) == MarkedEnd(done + [m], todo[1..])
            && HaveExact(MarkUsedUp(todo)) == (m.exact || HaveExact(MarkUsedUp(todo[1..])))
  {
    var m := todo[0].(exact := todo[0].off == |todo[0].node.name|);
    Associate(done, [m], MarkUsedUp(todo[1..]));
    assert ([m] + MarkUsedUp(todo[1..]))[1..] == MarkUsedUp(todo[1..]);
  }

  /** Marks the candidates whose names are used up. */
  method MarkComplete(cands: CandidateList) returns (haveComplete: bool)
    requires cands.Valid()
    modifies cands`head, cands`nodes, cands`done, cands`todo, cands.repr
    ensures cands.Valid()
    ensures cands.Entries() == MarkUsedUp(old(cands.Entries()))
    ensures haveComplete == HaveExact(cands.Entries())
  {
    ghost var marked := MarkUsedUp(cands.Entries());
    haveComplete := false;
    ghost var pcand: Candidate? := null;
    var cand := cands.First();
    while cand != null
      invariant cands.Valid() && cands.At(pcand, cand)
      invariant (haveComplete || HaveExact(MarkUsedUp(cands.todo))) == HaveExact(marked)
      invariant MarkedEnd(cands.done, cands.todo) == marked
      decreases |cands.todo|
    {
      var c: Candidate := cand;
      assert cands.todo[0] == EntryOf(c);
      MarkOne(cands.done, cands.todo);
      var exact := c.nameOff == |c.name|;
      cand := cands.Keep(pcand, c, c.nameOff, exact);
      pcand := c;
      haveComplete := haveComplete || exact;
    }
  }

  /** `out` and `left` together are `all`, each element as often. */
  ghost predicate Splits(out: seq<Candidate>, left: seq<Candidate>, all: seq<Candidate>) {
    multiset(out) + multiset(left) == multiset(all)
  }

  lemma SplitsOne(n: Candidate, out: seq<Candidate>, left: seq<Candidate>, all: seq<Candidate>)
    requires Splits(out, left, all)
    ensures Splits([n] + out, left, [n] + all) && Splits(out, [n] + left, [n] + all)
  {}

  lemma SplitsTwice(out: seq<Candidate>, mid: seq<Candidate>, all: seq<Candidate>,
                    more: seq<Candidate>, left: seq<Candidate>)
    requires Splits(out, mid, all) && Splits(more, left, mid)
    ensures Splits(out + more, left, all)
  {}

  lemma NodesOne(e: Entry, es: seq<Entry>)
    ensures Nodes([e] + es) == [e.node] + Nodes(es)
  {
    assert ([e] + es)[1..] == es;
  }

  lemma {:induction false} MatchingSplits(es: seq<Entry>, w: string)
    requires Placed(es)
    ensures Splits(Mismatching(es, w), Nodes(Matching(es, w)), Nodes(es))
  {
    if es != [] {
      MatchingSplits(es[1..], w);
      SplitsOne(es[0].node, Mismatching(es[1..], w), Nodes(Matching(es[1..], w)), Nodes(es[1..]));
      NodesOne(Advance(es[0], w), Matching(es[1..], w));
      if w <= Suffix(es[0]) {
        assert Mismatching(es, w) == Mismatching(es[1..], w);
      } else {
        assert Matching(es, w) == Matching(es[1..], w);
      }
    }
  }

  lemma {:induction false} ExactSplits(es: seq<Entry>)
    ensures Splits(Inexact(es), Nodes(Exact(es)), Nodes(es))
  {
    if es != [] {
      ExactSplits(es[1..]);
      SplitsOne(es[0].node, Inexact(es[1..]), Nodes(Exact(es[1..])), Nodes(es[1..]));
      NodesOne(es[0], Exact(es[1..]));
      if es[0].exact {
        assert Inexact(es) == Inexact(es[1..]);
      } else {
        assert Exact(es) == Exact(es[1..]);
      }
    }
  }

  lemma {:induction false} MarkingKeeps(es: seq<Entry>)
    ensures Nodes(MarkUsedUp(es)) == Nodes(es)
  {
    if es != [] {
      MarkingKeeps(es[1..]);
      assert MarkUsedUp(es)[1..] == MarkUsedUp(es[1..]);
    }
  }

  lemma NarrowSplits(es: seq<Entry>, w: string)
    requires Placed(es)
    ensures Splits(NarrowedOut(es, w), Nodes(Narrow(es, w)), Nodes(es))
  {
    var ms := Matching(es, w);
    MatchingSplits(es, w);
    ExactSplits(ms);
    if HaveExact(ms) {
      SplitsTwice(Mismatching(es, w), Nodes(ms), Nodes(es), Inexact(ms), Nodes(Exact(ms)));
    } else {
      Associate(Mismatching(es, w), [], []);
    }
  }

  lemma FinishSplits(es: seq<Entry>)
    requires Placed(es)
    ensures Splits(FinishedOut(es), Nodes(Finish(es)), Nodes(es))
  {
    MarkingKeeps(es);
    ExactSplits(MarkUsedUp(es));
  }

  /** Candidates left and candidates handed to the callback together are the candidates there were, each once. */
  lemma {:induction false} CompletionSplits(es: seq<Entry>, args: seq<string>, i: nat, o: nat)
    requires Placed(es) && InArgs(args, i, o)
    ensures Splits(From(es, args, i, o).out, Nodes(From(es, args, i, o).entries), Nodes(es))
    decreases |args| - i, if i < |args| then |args[i]| - o else 0
  {
    if i == |args| {
      FinishSplits(es);
    } else {
      var w, i', o' := NextWord(args, i, o), NextArg(args, i, o), NextOffset(args, i, o);
      var ns := Narrow(es, w);
      NarrowSplits(es, w);
      if !Settled(ns, o') {
        CompletionSplits(ns, args, i', o');
        var c := From(ns, args, i', o');
        SplitsTwice(NarrowedOut(es, w), Nodes(ns), Nodes(es), c.out, Nodes(c.entries));
      }
    }
  }

  lemma {:induction false} MatchingSublist(es: seq<Entry>, w: string)
    requires Placed(es)
    ensures Sublist(Nodes(Matching(es, w)), Nodes(es))
  {
    if es != [] {
      MatchingSublist(es[1..], w);
      SublistCons(es[0].node, Nodes(Matching(es[1..], w)), Nodes(es[1..]));
      NodesOne(Advance(es[0], w), Matching(es[1..], w));
      if !(w <= Suffix(es[0])) {
        assert Matching(es, w) == Matching(es[1..], w);
      }
    }
  }

  lemma {:induction false} ExactSublist(es: seq<Entry>)
    ensures Sublist(Nodes(Exact(es)), Nodes(es))
  {
    if es != [] {
      ExactSublist(es[1..]);
      SublistCons(es[0].node, Nodes(Exact(es[1..])), Nodes(es[1..]));
      NodesOne(es[0], Exact(es[1..]));
      if !es[0].exact {
        assert Exact(es) == Exact(es[1..]);
      }
    }
  }

  lemma NarrowSublist(es: seq<Entry>, w: string)
    requires Placed(es)
    ensures Sublist(Nodes(Narrow(es, w)), Nodes(es))
  {
    var ms := Matching(es, w);
    MatchingSublist(es, w);
    if HaveExact(ms) {
      ExactSublist(ms);
      SublistTrans(Nodes(Exact(ms)), Nodes(ms), Nodes(es));
    }
  }

  lemma FinishSublist(es: seq<Entry>)
    requires Placed(es)
    ensures Sublist(Nodes(Finish(es)), Nodes(es))
  {
    MarkingKeeps(es);
    ExactSublist(MarkUsedUp(es));
    SublistSelf(Nodes(es));
  }

  /** The candidates left are in the order in which they were in the list. */
  lemma {:induction false} SurvivorsInOrder(es: seq<Entry>, args: seq<string>, i: nat, o: nat)
    requires Placed(es) && InArgs(args, i, o)
    ensures Sublist(Nodes(From(es, args, i, o).entries), Nodes(es))
    decreases |args| - i, if i < |args| then |args[i]| - o else 0
  {
    if i == |args| {
      FinishSublist(es);
    } else {
      var w, i', o' := NextWord(args, i, o), NextArg(args, i, o), NextOffset(args, i, o);
      var ns := Narrow(es, w);
      NarrowSublist(es, w);
      if !Settled(ns, o') {
        SurvivorsInOrder(ns, args, i', o');
        SublistTrans(Nodes(From(ns, args, i', o').entries), Nodes(ns), Nodes(es));
      }
    }
  }

  /** One word of the arguments narrows the list down. */
  method NarrowBy(cands: CandidateList, w: string) returns (elim: seq<Candidate>)
    requires cands.Valid() && Placed(cands.Entries())
    modifies cands`head, cands`nodes, cands`done, cands`todo, cands.repr
    ensures cands.Valid() && cands.Entries() == Narrow(old(cands.Entries()), w)
    ensures elim == NarrowedOut(old(cands.Entries()), w)
  {
    var haveExact;
    haveExact, elim := MatchWord(cands, w);
    if haveExact {
      var more := PruneInexact(cands);
      elim := elim + more;
    }
  }

  /** The end of the arguments: used-up names win. */
  method FinishUp(cands: CandidateList) returns (elim: seq<Candidate>)
    requires cands.Valid() && Placed(cands.Entries())
    modifies cands`head, cands`nodes, cands`done, cands`todo, cands.repr
    ensures cands.Valid() && cands.Entries() == Finish(old(cands.Entries()))
    ensures elim == FinishedOut(old(cands.Entries()))
  {
    elim := [];
    cands.Ends();
    if cands.head == null {
      return;
    }
    if cands.head.next != null {
      var haveComplete := MarkComplete(cands);
      if haveComplete {
        elim := PruneInexact(cands);
      }
    }
  }

  lemma TakingOutTwice(out: seq<Candidate>, more: seq<Candidate>, c: Completed)
    ensures TakingOut(out, TakingOut(more, c)) == TakingOut(out + more, c)
    ensures TakingOut([], c) == c
  {
    Associate(out, more, c.out);
  }

  /** One turn of the outer loop: the next word of the arguments narrows the list down. */
  method TakeWord(cands: CandidateList, args: seq<string>, argi0: nat, argo0: nat, elim0: seq<Candidate>)
      returns (argi: nat, argo: nat, settled: bool, elim: seq<Candidate>)
    requires cands.Valid() && Placed(cands.Entries()) && InArgs(args, argi0, argo0) && argi0 < |args|
    modifies cands`head, cands`nodes, cands`done, cands`todo, cands.repr
    ensures cands.Valid() && Placed(cands.Entries())
    ensures InArgs(args, argi, argo) && (argi0 < argi || (argi == argi0 && argo0 < argo))
    ensures settled == Settled(cands.Entries(), argo)
    ensures Ahead(false, old(cands.Entries()), args, argi0, argo0, elim0) ==
            Ahead(settled, cands.Entries(), args, argi, argo, elim)
  {
    FromStep(cands.Entries(), args, argi0, argo0, elim0);
    var arg := args[argi0][argo0..];
    var al := WordEnd(arg);
    if al < |arg| {
      argi, argo := argi0, argo0 + al + 1;
    } else {
      argi, argo := argi0 + 1, 0;
    }
    assert argi == NextArg(args, argi0, argo0) && argo == NextOffset(args, argi0, argo0);
    assert arg[..al] == NextWord(args, argi0, argo0);
    var out := NarrowBy(cands, arg[..al]);
    elim := elim0 + out;
    cands.Ends();
    settled := cands.head == null || (cands.head.next == null && argo == 0);
    assert settled == Settled(cands.Entries(), argo);
  }

  /** What completion will come to, from the place it has reached and the candidates taken out so far. */
  ghost function Ahead(settled: bool, es: seq<Entry>, args: seq<string>, i: nat, o: nat,
                       elim: seq<Candidate>): Completed
    requires Placed(es) && InArgs(args, i, o)
  {
    if settled then Completed(es, i, elim) else TakingOut(elim, From(es, args, i, o))
  }

  lemma FromStep(es: seq<Entry>, args: seq<string>, i: nat, o: nat, elim: seq<Candidate>)
    requires Placed(es) && InArgs(args, i, o) && i < |args|
    ensures var ns, out := Narrow(es, NextWord(args, i, o)), NarrowedOut(es, NextWord(args, i, o));
            var i', o' := NextArg(args, i, o), NextOffset(args, i, o);
            TakingOut(elim, From(es, args, i, o)) ==
            if Settled(ns, o') then Completed(ns, i', elim + out) else TakingOut(elim + out, From(ns, args, i', o'))
  {
    var w, i', o' := NextWord(args, i, o), NextArg(args, i, o), NextOffset(args, i, o);
    var ns := Narrow(es, w);
    if !Settled(ns, o') {
      TakingOutTwice(elim, NarrowedOut(es, w), From(ns, args, i', o'));
    }
  }

  /**
   * The outer loop: words are taken until the arguments are used up, or no candidate is left, or a
   * single one at the end of an argument, that is with nothing of argument `argi` taken.
   */
  method TakeWords(cands: CandidateList, args: seq<string>)
      returns (argi: nat, argo: nat, settled: bool, elim: seq<Candidate>)
    requires cands.Valid() && Placed(cands.Entries())
    modifies cands`head, cands`nodes, cands`done, cands`todo, cands.repr
    ensures cands.Valid() && Placed(cands.Entries()) && InArgs(args, argi, argo)
    ensures if settled then Settled(cands.Entries(), argo) else argi == |args|
    ensures Ahead(settled, cands.Entries(), args, argi, argo, elim) == From(old(cands.Entries()), args, 0, 0)
  {
    argi, argo, settled, elim := 0, 0, false, [];
    ghost var all := From(cands.Entries(), args, 0, 0);
    TakingOutTwice([], [], all);
    while argi < |args| && !settled
      invariant cands.Valid() && Placed(cands.Entries()) && InArgs(args, argi, argo)
      invariant settled ==> Settled(cands.Entries(), argo)
      invariant Ahead(settled, cands.Entries(), args, argi, argo, elim) == all
      decreases |args| - argi, if argi < |args| then |args[argi]| - argo else 0
    {
      argi, argo, settled, elim := TakeWord(cands, args, argi, argo, elim);
    }
  }

  /**
   * Completion of `args` against the candidates: the list is pruned in place and the number of
   * arguments used is returned. `elim` is what the callback was called with.
   */
  method Complete(cands: CandidateList, args: seq<string>) returns (argi: nat, elim: seq<Candidate>)
    requires cands.Valid() && Placed(cands.Entries())
    modifies cands`head, cands`nodes, cands`done, cands`todo, cands.repr
    ensures cands.Valid()
    ensures Completed(cands.Entries(), argi, elim) == From(old(cands.Entries()), args, 0, 0)
  {
    var argo, settled;
    argi, argo, settled, elim := TakeWords(cands, args);
    if !settled {
      var out := FinishUp(cands);
      elim := elim + out;
    }
  }
}
