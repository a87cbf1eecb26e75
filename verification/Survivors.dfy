/**
 * Which candidates completion leaves, for all arguments: stated by the candidates' own words, and
 * proved of the list-pruning function (complete.c).
 */
module Survivors {
  import opened Sequences
  import opened Candidates
  import opened Completion
  import opened Spelling

  /**
   * A name gets through the words `ws`: each begins the name's next word, and where `exact` tells
   * so is that word. With `whole` the name is used up then.
   */
  predicate Passes(s: string, ws: seq<string>, exact: seq<bool>, whole: bool)
    requires |exact| == |ws|
    decreases |ws|
  {
    if ws == [] then whole ==> s == []
    else
      && (if exact[0] then FirstWord(s) == ws[0] else ws[0] <= FirstWord(s))
      && Passes(AfterWord(s), ws[1..], exact[1..], whole)
  }

  /** The candidates whose remaining names get through, in order. */
  function Passing(es: seq<Entry>, ws: seq<string>, exact: seq<bool>, whole: bool): seq<Candidate>
    requires Placed(es) && |exact| == |ws|
  {
    if es == [] then []
    else (if Passes(Suffix(es[0]), ws, exact, whole) then [es[0].node] else []) + Passing(es[1..], ws, exact, whole)
  }

  /** Those that get through the words before the `m`-th and have the very `m`-th word next. */
  ghost function Having(es: seq<Entry>, ws: seq<string>, exact: seq<bool>, m: nat): seq<Candidate>
    requires Placed(es) && m < |ws| && |exact| == |ws|
  {
    Passing(es, ws[..m + 1], exact[..m] + [true], false)
  }

  /** `exact` tells at which words some candidate that got through the words before has the very word next. */
  ghost predicate Tells(es: seq<Entry>, ws: seq<string>, exact: seq<bool>)
    requires Placed(es)
  {
    |exact| == |ws| && forall m | 0 <= m < |ws| :: exact[m] <==> Having(es, ws, exact, m) != []
  }

  /** Those that get through, and of them the used-up ones if there are any. */
  function Winners(es: seq<Entry>, ws: seq<string>, exact: seq<bool>): seq<Candidate>
    requires Placed(es) && |exact| == |ws|
  {
    var usedUp := Passing(es, ws, exact, true);
    if usedUp != [] then usedUp else Passing(es, ws, exact, false)
  }

  // ------------------------------------------------------------ one word

  lemma WordBegins(w: string, s: string)
    requires OneWord(w)
    ensures w <= s <==> w <= FirstWord(s)
  {
    if w <= s { PrefixOfWord(w, s); }
  }

  lemma NextIsWord(args: seq<string>, i: nat, o: nat)
    requires InArgs(args, i, o) && i < |args|
    ensures OneWord(NextWord(args, i, o))
  {}

  lemma PassingCons(e: Entry, es: seq<Entry>, ws: seq<string>, exact: seq<bool>, whole: bool)
    requires Placed([e] + es) && Placed(es) && |exact| == |ws| && e.off <= |e.node.name|
    ensures Passing([e] + es, ws, exact, whole) ==
            (if Passes(Suffix(e), ws, exact, whole) then [e.node] else []) + Passing(es, ws, exact, whole)
  {
    HeadTail(e, es);
  }

  lemma PassesCons(s: string, w: string, ws: seq<string>, x: bool, exact: seq<bool>, whole: bool)
    requires |exact| == |ws|
    ensures Passes(s, [w] + ws, [x] + exact, whole) <==>
            (if x then FirstWord(s) == w else w <= FirstWord(s)) && Passes(AfterWord(s), ws, exact, whole)
  {
    HeadTail(w, ws);
    HeadTail(x, exact);
  }

  /** With a word some candidate has next, those that have it go on. */
  lemma {:induction false} PassingExact(es: seq<Entry>, w: string, ws: seq<string>, exact: seq<bool>, whole: bool)
    requires Placed(es) && |exact| == |ws|
    ensures Passing(NextWordIs(es, w), ws, exact, whole) == Passing(es, [w] + ws, [true] + exact, whole)
  {
    if es != [] {
      PassingExact(es[1..], w, ws, exact, whole);
      PassesCons(Suffix(es[0]), w, ws, true, exact, whole);
      var rest := NextWordIs(es[1..], w);
      if FirstWord(Suffix(es[0])) == w {
        PassingCons(Advance(es[0], w), rest, ws, exact, whole);
      } else {
        assert NextWordIs(es, w) == rest;
      }
    }
  }

  /** With a word no candidate has next, those whose next word it begins go on. */
  lemma {:induction false} PassingPrefix(es: seq<Entry>, w: string, ws: seq<string>, exact: seq<bool>, whole: bool)
    requires Placed(es) && |exact| == |ws| && OneWord(w)
    ensures Passing(Matching(es, w), ws, exact, whole) == Passing(es, [w] + ws, [false] + exact, whole)
  {
    if es != [] {
      PassingPrefix(es[1..], w, ws, exact, whole);
      PassesCons(Suffix(es[0]), w, ws, false, exact, whole);
      WordBegins(w, Suffix(es[0]));
      var rest := Matching(es[1..], w);
      if w <= Suffix(es[0]) {
        PassingCons(Advance(es[0], w), rest, ws, exact, whole);
      } else {
        assert Matching(es, w) == rest;
      }
    }
  }

  /** Whether some candidate has `w` next. */
  predicate SomeHas(es: seq<Entry>, w: string)
    requires Placed(es)
  {
    NextWordIs(es, w) != []
  }

  /**
   * One word of the arguments: if no candidate has it next, those left are exactly the ones whose
   * next word it begins, and else exactly the ones that have it.
   */
  lemma PassingStep(es: seq<Entry>, w: string, ws: seq<string>, exact: seq<bool>, whole: bool)
    requires Placed(es) && |exact| == |ws| && OneWord(w)
    ensures Passing(Narrow(es, w), ws, exact, whole) == Passing(es, [w] + ws, [SomeHas(es, w)] + exact, whole)
  {
    ExactMatches(es, w);
    PassingExact(es, w, ws, exact, whole);
    PassingPrefix(es, w, ws, exact, whole);
  }

  lemma {:induction false} AllPass(es: seq<Entry>)
    requires Placed(es)
    ensures Passing(es, [], [], false) == Nodes(es)
    ensures Passing(es, [], [], true) == Spelled(es, [], true)
  {
    if es != [] { AllPass(es[1..]); }
  }

  lemma OneExact(es: seq<Entry>, w: string)
    requires Placed(es)
    ensures SomeHas(es, w) <==> Passing(es, [w], [true], false) != []
  {
    PassingExact(es, w, [], [], false);
    Associate([w], [], []);
    Associate([true], [], []);
    AllPass(NextWordIs(es, w));
    AllSpelled(NextWordIs(es, w));
  }

  lemma HavingStep(es: seq<Entry>, w: string, ws: seq<string>, exact: seq<bool>, m: nat)
    requires Placed(es) && OneWord(w) && m < |ws| && |exact| == |ws|
    ensures Having(es, [w] + ws, [SomeHas(es, w)] + exact, m + 1) == Having(Narrow(es, w), ws, exact, m)
  {
    var all, told := [w] + ws, [SomeHas(es, w)] + exact;
    PassingStep(es, w, ws[..m + 1], exact[..m] + [true], false);
    assert all[..m + 2] == [w] + ws[..m + 1];
    assert told[..m + 1] + [true] == [SomeHas(es, w)] + (exact[..m] + [true]);
  }

  lemma HavingFirst(es: seq<Entry>, w: string, ws: seq<string>, x: bool, exact: seq<bool>)
    requires Placed(es) && |exact| == |ws|
    ensures Having(es, [w] + ws, [x] + exact, 0) != [] <==> SomeHas(es, w)
  {
    OneExact(es, w);
    assert ([w] + ws)[..1] == [w] && ([x] + exact)[..0] + [true] == [true];
  }

  /** What the words tell after a first one, and with it. */
  lemma TellsStep(es: seq<Entry>, w: string, ws: seq<string>, x: bool, exact: seq<bool>)
    requires Placed(es) && OneWord(w) && |exact| == |ws|
    ensures Tells(es, [w] + ws, [x] + exact) <==> x == SomeHas(es, w) && Tells(Narrow(es, w), ws, exact)
  {
    var all, told := [w] + ws, [x] + exact;
    HavingFirst(es, w, ws, x, exact);
    HeadTail(x, exact);
    if x == SomeHas(es, w) {
      forall m | 0 <= m < |ws|
        ensures (told[m + 1] <==> Having(es, all, told, m + 1) != []) <==>
                (exact[m] <==> Having(Narrow(es, w), ws, exact, m) != [])
      {
        HavingStep(es, w, ws, exact, m);
      }
      if Tells(Narrow(es, w), ws, exact) {
        forall m | 0 <= m < |all|
          ensures told[m] <==> Having(es, all, told, m) != []
        {
          if m > 0 { assert exact[m - 1] <==> Having(Narrow(es, w), ws, exact, m - 1) != []; }
        }
      }
      if Tells(es, all, told) {
        forall m | 0 <= m < |ws|
          ensures exact[m] <==> Having(Narrow(es, w), ws, exact, m) != []
        {
          assert told[m + 1] <==> Having(es, all, told, m + 1) != [];
        }
      }
    }
  }

  // ------------------------------------------------------------ all the arguments

  lemma FinishWinners(es: seq<Entry>)
    requires Placed(es)
    ensures Nodes(Finish(es)) == Winners(es, [], [])
  {
    AllPass(es);
    UsedUpSpelled(es);
    MarkingKeeps(es);
    if |es| == 1 && Spelled(es, [], true) != [] {
      OneSpelled(es, [], true);
    }
  }

  /** One candidate at most is its own winner. */
  lemma FewWinners(es: seq<Entry>)
    requires Placed(es) && |es| <= 1
    ensures Winners(es, [], []) == Nodes(es) == Passing(es, [], [], false)
  {
    AllPass(es);
    if es != [] && Spelled(es, [], true) != [] {
      OneSpelled(es, [], true);
    }
  }

  lemma WinnersStep(es: seq<Entry>, w: string, ws: seq<string>, exact: seq<bool>)
    requires Placed(es) && |exact| == |ws| && OneWord(w)
    ensures Winners(Narrow(es, w), ws, exact) == Winners(es, [w] + ws, [SomeHas(es, w)] + exact)
  {
    PassingStep(es, w, ws, exact, true);
    PassingStep(es, w, ws, exact, false);
  }

  lemma UsedGrows(es: seq<Entry>, args: seq<string>, i: nat, o: nat)
    requires Placed(es) && InArgs(args, i, o) && From(es, args, i, o).entries != []
    ensures i <= From(es, args, i, o).used <= |args|
    ensures i < |args| ==> i < From(es, args, i, o).used
  {
    LeftAreAbbreviated(es, args, i, o, 0);
  }

  /**
   * Of the words `all` the words `ws` have been taken, and the winners among the candidates that
   * get through them are `left`; all words are taken unless, before, one candidate at most has got
   * through.
   */
  ghost predicate Explains(es: seq<Entry>, all: seq<string>, ws: seq<string>, exact: seq<bool>, left: seq<Candidate>)
    requires Placed(es)
  {
    && ws <= all && Tells(es, ws, exact)
    && left == Winners(es, ws, exact)
    && (ws != all ==> |left| <= 1 && left == Passing(es, ws, exact, false))
  }

  lemma ExplainsStep(es: seq<Entry>, w: string, all: seq<string>, ws: seq<string>, exact: seq<bool>,
                     left: seq<Candidate>)
    requires Placed(es) && OneWord(w) && Explains(Narrow(es, w), all, ws, exact, left)
    ensures Explains(es, [w] + all, [w] + ws, [SomeHas(es, w)] + exact, left)
  {
    WinnersStep(es, w, ws, exact);
    PassingStep(es, w, ws, exact, false);
    TellsStep(es, w, ws, SomeHas(es, w), exact);
    HeadTail(w, all);
    HeadTail(w, ws);
  }

  lemma UsedStep(es: seq<Entry>, args: seq<string>, i: nat, o: nat)
    requires Placed(es) && InArgs(args, i, o) && i < |args|
    ensures var w, i', o' := NextWord(args, i, o), NextArg(args, i, o), NextOffset(args, i, o);
            var ns, c := Narrow(es, w), From(es, args, i, o);
            && c.entries == (if Settled(ns, o') then ns else From(ns, args, i', o').entries)
            && (c.entries != [] ==>
                  i' <= c.used <= |args| && i < c.used &&
                  Upto(args, i, o, c.used) == [w] + Upto(args, i', o', c.used) &&
                  (if Settled(ns, o') then c.used == i' && Upto(args, i', o', i') == []
                   else c.used == From(ns, args, i', o').used))
  {
    var w, i', o' := NextWord(args, i, o), NextArg(args, i, o), NextOffset(args, i, o);
    var c := From(es, args, i, o);
    if c.entries != [] {
      UsedGrows(es, args, i, o);
      if !Settled(Narrow(es, w), o') { UsedGrows(Narrow(es, w), args, i', o'); }
      UptoStep(args, i, o, c.used);
    }
  }

  /** How many words completion takes. */
  function Taken(es: seq<Entry>, args: seq<string>, i: nat, o: nat): nat
    requires Placed(es) && InArgs(args, i, o)
    decreases |args| - i, if i < |args| then |args[i]| - o else 0
  {
    if i == |args| then 0
    else
      var ns := Narrow(es, NextWord(args, i, o));
      var i', o' := NextArg(args, i, o), NextOffset(args, i, o);
      if Settled(ns, o') then 1 else 1 + Taken(ns, args, i', o')
  }

  /** How many words there are before the `j`-th argument. */
  function WordsBefore(args: seq<string>, i: nat, o: nat, j: nat): nat
    requires InArgs(args, i, o) && j <= |args|
    decreases |args| - i, if i < |args| then |args[i]| - o else 0
  {
    if i >= j then 0 else 1 + WordsBefore(args, NextArg(args, i, o), NextOffset(args, i, o), j)
  }

  /** They are the words of the arguments, from the place on. */
  lemma {:induction false} WordsBeforeAre(args: seq<string>, i: nat, o: nat, j: nat)
    requires InArgs(args, i, o) && j <= |args|
    ensures WordsBefore(args, i, o, j) == |Upto(args, i, o, j)|
    decreases |args| - i, if i < |args| then |args[i]| - o else 0
  {
    if i < j {
      UptoStep(args, i, o, j);
      WordsBeforeAre(args, NextArg(args, i, o), NextOffset(args, i, o), j);
    }
  }

  lemma BeforeNext(args: seq<string>, i: nat, o: nat, j: nat)
    requires InArgs(args, i, o) && i < |args| && j <= |args|
    ensures var n := WordsBefore(args, NextArg(args, i, o), NextOffset(args, i, o), j);
            if j <= i then WordsBefore(args, i, o, j) == 0 else WordsBefore(args, i, o, j) == 1 + n
    ensures NextArg(args, i, o) < j ==> WordsBefore(args, NextArg(args, i, o), NextOffset(args, i, o), j) >= 1
  {}

  lemma TakenStep(es: seq<Entry>, args: seq<string>, i: nat, o: nat)
    requires Placed(es) && InArgs(args, i, o) && i < |args|
    ensures var ns, i', o' := Narrow(es, NextWord(args, i, o)), NextArg(args, i, o), NextOffset(args, i, o);
            if Settled(ns, o') then
              && From(es, args, i, o).used == i' && From(es, args, i, o).entries == ns
              && Taken(es, args, i, o) == 1
            else
              && From(es, args, i, o).used == From(ns, args, i', o').used
              && From(es, args, i, o).entries == From(ns, args, i', o').entries
              && Taken(es, args, i, o) == 1 + Taken(ns, args, i', o')
  {}

  /** The arguments used are those that lie wholly within the words taken. */
  lemma {:induction false} UsedCounts(es: seq<Entry>, args: seq<string>, i: nat, o: nat, used: nat, n: nat)
    requires Placed(es) && InArgs(args, i, o) && used == From(es, args, i, o).used && n == Taken(es, args, i, o)
    ensures i <= used <= |args| && WordsBefore(args, i, o, used) <= n
    ensures used < |args| ==> n < WordsBefore(args, i, o, used + 1)
    decreases |args| - i, if i < |args| then |args[i]| - o else 0
  {
    if i < |args| {
      var ns, i', o' := Narrow(es, NextWord(args, i, o)), NextArg(args, i, o), NextOffset(args, i, o);
      TakenStep(es, args, i, o);
      if !Settled(ns, o') {
        UsedCounts(ns, args, i', o', used, n - 1);
      }
      BeforeNext(args, i, o, used);
      if used < |args| { BeforeNext(args, i, o, used + 1); }
    }
  }

  lemma LeftStep(es: seq<Entry>, args: seq<string>, i: nat, o: nat, ws: seq<string>, exact: seq<bool>)
    requires Placed(es) && InArgs(args, i, o) && i < |args|
    requires var i', o', c := NextArg(args, i, o), NextOffset(args, i, o), From(es, args, i, o);
             && Explains(Narrow(es, NextWord(args, i, o)), Upto(args, i', o', |args|), ws, exact, Nodes(c.entries))
             && (c.entries != [] ==> ws == Upto(args, i', o', c.used))
    ensures var w, c := NextWord(args, i, o), From(es, args, i, o);
            && Explains(es, Upto(args, i, o, |args|), [w] + ws, [SomeHas(es, w)] + exact, Nodes(c.entries))
            && (c.entries != [] ==> [w] + ws == Upto(args, i, o, c.used))
  {
    var w, i', o' := NextWord(args, i, o), NextArg(args, i, o), NextOffset(args, i, o);
    NextIsWord(args, i, o);
    UptoStep(args, i, o, |args|);
    UsedStep(es, args, i, o);
    ExplainsStep(es, w, Upto(args, i', o', |args|), ws, exact, Nodes(From(es, args, i, o).entries));
  }

  /**
   * Which candidates are left, for any candidates and arguments, and, if any is left, that the
   * words taken are those of the arguments used.
   */
  lemma {:induction false} LeftExactly(es: seq<Entry>, args: seq<string>, i: nat, o: nat)
    returns (ws: seq<string>, exact: seq<bool>)
    requires Placed(es) && InArgs(args, i, o)
    ensures Explains(es, Upto(args, i, o, |args|), ws, exact, Nodes(From(es, args, i, o).entries))
    ensures var c := From(es, args, i, o);
            |ws| == Taken(es, args, i, o) && (c.entries != [] ==> ws == Upto(args, i, o, c.used))
    decreases |args| - i, if i < |args| then |args[i]| - o else 0
  {
    ws, exact := [], [];
    if i == |args| {
      FinishWinners(es);
    } else {
      var w, i', o' := NextWord(args, i, o), NextArg(args, i, o), NextOffset(args, i, o);
      var ns := Narrow(es, w);
      TakenStep(es, args, i, o);
      if Settled(ns, o') {
        FewWinners(ns);
        AllSpelled(ns);
        UsedStep(es, args, i, o);
      } else {
        ws, exact := LeftExactly(ns, args, i', o');
      }
      LeftStep(es, args, i, o, ws, exact);
      ws, exact := [w] + ws, [SomeHas(es, w)] + exact;
    }
  }

  // ------------------------------------------------------------ when completion stops

  lemma TellsRest(es: seq<Entry>, w: string, ws: seq<string>, exact: seq<bool>)
    requires Placed(es) && OneWord(w) && Tells(es, [w] + ws, exact)
    ensures Tells(Narrow(es, w), ws, exact[1..])
    ensures Passing(es, [w] + ws, exact, false) == Passing(Narrow(es, w), ws, exact[1..], false)
  {
    assert exact == [exact[0]] + exact[1..];
    TellsStep(es, w, ws, exact[0], exact[1..]);
    PassingStep(es, w, ws, exact[1..], false);
  }

  /**
   * It stops before the last argument only when a single candidate is left, and at the first such
   * argument: at the end of each one before, several had got through.
   */
  lemma {:induction false} StopsWhenAlone(es: seq<Entry>, args: seq<string>, i: nat, o: nat, j: nat, exact: seq<bool>)
    requires Placed(es) && InArgs(args, i, o) && From(es, args, i, o).entries != []
    requires i < j < From(es, args, i, o).used <= |args| && Tells(es, Upto(args, i, o, j), exact)
    ensures |Passing(es, Upto(args, i, o, j), exact, false)| >= 2
    decreases |args| - i, if i < |args| then |args[i]| - o else 0
  {
    var w, i', o' := NextWord(args, i, o), NextArg(args, i, o), NextOffset(args, i, o);
    var ns := Narrow(es, w);
    NextIsWord(args, i, o);
    UsedStep(es, args, i, o);
    UptoStep(args, i, o, j);
    TellsRest(es, w, Upto(args, i', o', j), exact);
    if i' < j {
      StopsWhenAlone(ns, args, i', o', j, exact[1..]);
    } else {
      assert Upto(args, i', o', j) == [] && exact[1..] == [];
      AllPass(ns);
      AllSpelled(ns);
    }
  }

  /** And when it stops before the last argument with candidates left, there is just one. */
  lemma AloneAtStop(es: seq<Entry>, args: seq<string>, i: nat, o: nat)
    requires Placed(es) && InArgs(args, i, o)
    ensures var c := From(es, args, i, o); c.used < |args| ==> |c.entries| <= 1
    decreases |args| - i, if i < |args| then |args[i]| - o else 0
  {
    if i < |args| {
      var w, i', o' := NextWord(args, i, o), NextArg(args, i, o), NextOffset(args, i, o);
      if !Settled(Narrow(es, w), o') { AloneAtStop(Narrow(es, w), args, i', o'); }
    }
  }

  // ------------------------------------------------------------ what a user sees

  /** The `m`-th word of a name. */
  function WordAt(s: string, m: nat): string { FirstWord(Later(s, m)) }

  function Later(s: string, m: nat): string
    decreases m
  {
    if m == 0 then s else Later(AfterWord(s), m - 1)
  }

  /** To get through is to be abbreviated, and to have the very word wherever some other candidate has. */
  lemma {:induction false} PassesMeans(s: string, ws: seq<string>, exact: seq<bool>)
    requires |exact| == |ws|
    ensures Passes(s, ws, exact, false) <==>
            Abbreviates(ws, s) && forall m | 0 <= m < |ws| :: exact[m] ==> WordAt(s, m) == ws[m]
    decreases |ws|
  {
    if ws != [] {
      PassesMeans(AfterWord(s), ws[1..], exact[1..]);
      assert forall m | 0 <= m < |ws| - 1 ::
          ws[1..][m] == ws[m + 1] && exact[1..][m] == exact[m + 1] && WordAt(AfterWord(s), m) == WordAt(s, m + 1);
      assert WordAt(s, 0) == FirstWord(s);
      if Abbreviates(ws, s) && forall m | 0 <= m < |ws| :: exact[m] ==> WordAt(s, m) == ws[m] {
        assert exact[0] ==> WordAt(s, 0) == ws[0];
        forall m | 0 <= m < |ws| - 1
          ensures exact[1..][m] ==> WordAt(AfterWord(s), m) == ws[1..][m]
        {
          assert exact[m + 1] ==> WordAt(s, m + 1) == ws[m + 1];
        }
      }
      if Passes(s, ws, exact, false) {
        forall m | 0 <= m < |ws|
          ensures exact[m] ==> WordAt(s, m) == ws[m]
        {
          if m > 0 { assert exact[1..][m - 1] ==> WordAt(AfterWord(s), m - 1) == ws[1..][m - 1]; }
        }
      }
    }
  }

  lemma {:induction false} PassingWho(es: seq<Entry>, ws: seq<string>, exact: seq<bool>, whole: bool, n: Candidate)
    requires Placed(es) && |exact| == |ws|
    ensures n in Passing(es, ws, exact, whole) <==>
            exists k :: 0 <= k < |es| && es[k].node == n && Passes(Suffix(es[k]), ws, exact, whole)
  {
    if es != [] {
      PassingWho(es[1..], ws, exact, whole, n);
      assert forall k | 0 <= k < |es| - 1 :: es[1..][k] == es[k + 1];
      if n in Passing(es[1..], ws, exact, whole) {
        var k :| 0 <= k < |es[1..]| && es[1..][k].node == n && Passes(Suffix(es[1..][k]), ws, exact, whole);
        assert es[k + 1].node == n && Passes(Suffix(es[k + 1]), ws, exact, whole);
      }
      if k :| 0 <= k < |es| && es[k].node == n && Passes(Suffix(es[k]), ws, exact, whole) {
        if k > 0 { assert es[1..][k - 1] == es[k]; }
      }
    }
  }

  lemma PassingIn(es: seq<Entry>, ws: seq<string>, exact: seq<bool>, whole: bool, k: nat)
    requires Placed(es) && |exact| == |ws| && k < |es| && Passes(Suffix(es[k]), ws, exact, whole)
    ensures es[k].node in Passing(es, ws, exact, whole)
  {
    PassingWho(es, ws, exact, whole, es[k].node);
  }

  lemma OnlyElement<T>(left: seq<T>, x: T)
    requires |left| <= 1 && x in left
    ensures left == [x]
  {}

  lemma {:induction false} NonePass(es: seq<Entry>, ws: seq<string>, exact: seq<bool>, whole: bool)
    requires Placed(es) && |exact| == |ws| && forall j | 0 <= j < |es| :: !Passes(Suffix(es[j]), ws, exact, whole)
    ensures Passing(es, ws, exact, whole) == []
  {
    if es != [] { NonePass(es[1..], ws, exact, whole); }
  }

  lemma {:induction false} OnePasses(es: seq<Entry>, ws: seq<string>, exact: seq<bool>, whole: bool, k: nat)
    requires Placed(es) && |exact| == |ws| && k < |es| && Passes(Suffix(es[k]), ws, exact, whole)
    requires forall j | 0 <= j < |es| && j != k :: !Passes(Suffix(es[j]), ws, exact, whole)
    ensures Passing(es, ws, exact, whole) == [es[k].node]
  {
    if k == 0 {
      NonePass(es[1..], ws, exact, whole);
    } else {
      OnePasses(es[1..], ws, exact, whole, k - 1);
    }
  }

  lemma {:induction false} PassesLess(s: string, ws: seq<string>, exact: seq<bool>, n: nat)
    requires |exact| == |ws| && n <= |ws| && Passes(s, ws, exact, false)
    ensures Passes(s, ws[..n], exact[..n], false)
    decreases |ws|
  {
    if n > 0 {
      PassesLess(AfterWord(s), ws[1..], exact[1..], n - 1);
      assert ws[..n][1..] == ws[1..][..n - 1] && exact[..n][1..] == exact[1..][..n - 1];
    }
  }

  lemma {:induction false} PassesWhole(s: string, ws: seq<string>, exact: seq<bool>)
    requires |exact| == |ws| && Passes(s, ws, exact, true)
    ensures Passes(s, ws, exact, false)
    decreases |ws|
  {
    if ws != [] { PassesWhole(AfterWord(s), ws[1..], exact[1..]); }
  }

  /** There is just one thing the words can tell. */
  lemma {:induction false} TellsSame(es: seq<Entry>, ws: seq<string>, exact: seq<bool>,
                                     all: seq<string>, told: seq<bool>, m: nat)
    requires Placed(es) && ws <= all && Tells(es, ws, exact) && Tells(es, all, told) && m <= |ws|
    ensures exact[..m] == told[..m]
  {
    if m > 0 {
      TellsSame(es, ws, exact, all, told, m - 1);
      assert ws[..m] == all[..m];
      assert exact[m - 1] <==> Having(es, ws, exact, m - 1) != [];
      assert told[m - 1] <==> Having(es, all, told, m - 1) != [];
      OneMore(exact, m);
      OneMore(told, m);
    }
  }

  lemma OneMore<T>(s: seq<T>, m: nat)
    requires 0 < m <= |s|
    ensures s[..m] == s[..m - 1] + [s[m - 1]]
  {}

  lemma {:induction false} TellsAll(es: seq<Entry>, ws: seq<string>, n: nat) returns (exact: seq<bool>)
    requires Placed(es) && n <= |ws|
    ensures Tells(es, ws[..n], exact)
  {
    exact := [];
    if n > 0 {
      var before := TellsAll(es, ws, n - 1);
      var x := Passing(es, ws[..n], before + [true], false) != [];
      exact := before + [x];
      forall m | 0 <= m < n
        ensures exact[m] <==> Having(es, ws[..n], exact, m) != []
      {
        assert exact[..m] == before[..m] && ws[..n][..m + 1] == ws[..m + 1];
        if m < n - 1 {
          assert ws[..n - 1][..m + 1] == ws[..m + 1];
          assert before[m] <==> Having(es, ws[..n - 1], before, m) != [];
        } else {
          assert before[..m] == before;
        }
      }
    }
  }

  /**
   * A candidate that the words taken abbreviate is left, unless it has been beaten: by one that
   * had the very word where it has a longer one, or by one whose name is used up at the end.
   */
  lemma LeftUnlessBeaten(es: seq<Entry>, args: seq<string>, i: nat, o: nat, k: nat)
    returns (ws: seq<string>, exact: seq<bool>)
    requires Placed(es) && InArgs(args, i, o) && k < |es|
    ensures Explains(es, Upto(args, i, o, |args|), ws, exact, Nodes(From(es, args, i, o).entries))
    ensures Abbreviates(ws, Suffix(es[k])) ==>
              || es[k].node in Nodes(From(es, args, i, o).entries)
              || (exists m :: 0 <= m < |ws| && exact[m] && WordAt(Suffix(es[k]), m) != ws[m])
              || (Passing(es, ws, exact, true) != [] && !Passes(Suffix(es[k]), ws, exact, true))
  {
    ws, exact := LeftExactly(es, args, i, o);
    PassesMeans(Suffix(es[k]), ws, exact);
    PassingWho(es, ws, exact, false, es[k].node);
    PassingWho(es, ws, exact, true, es[k].node);
  }

  lemma WinnersPass(es: seq<Entry>, ws: seq<string>, exact: seq<bool>, n: Candidate) returns (k: nat)
    requires Placed(es) && |exact| == |ws| && n in Winners(es, ws, exact)
    ensures k < |es| && es[k].node == n && Passes(Suffix(es[k]), ws, exact, false)
  {
    PassingWho(es, ws, exact, true, n);
    PassingWho(es, ws, exact, false, n);
    if Passing(es, ws, exact, true) != [] {
      k :| 0 <= k < |es| && es[k].node == n && Passes(Suffix(es[k]), ws, exact, true);
      PassesWhole(Suffix(es[k]), ws, exact);
    } else {
      k :| 0 <= k < |es| && es[k].node == n && Passes(Suffix(es[k]), ws, exact, false);
    }
  }

  lemma OneWins(es: seq<Entry>, ws: seq<string>, exact: seq<bool>, k: nat)
    requires Placed(es) && |exact| == |ws| && k < |es| && Passes(Suffix(es[k]), ws, exact, false)
    requires forall j | 0 <= j < |es| && j != k :: !Passes(Suffix(es[j]), ws, exact, false)
    ensures Winners(es, ws, exact) == [es[k].node]
  {
    OnePasses(es, ws, exact, false, k);
    forall j | 0 <= j < |es| && j != k
      ensures !Passes(Suffix(es[j]), ws, exact, true)
    {
      if Passes(Suffix(es[j]), ws, exact, true) { PassesWhole(Suffix(es[j]), ws, exact); }
    }
    if Passes(Suffix(es[k]), ws, exact, true) {
      OnePasses(es, ws, exact, true, k);
    } else {
      NonePass(es, ws, exact, true);
    }
  }

  /**
   * A candidate that alone is abbreviated by the arguments is the one left if and only if, at each
   * word that some candidate still there has exactly, it has that word too.
   */
  lemma AloneIsLeft(es: seq<Entry>, args: seq<string>, k: nat) returns (exact: seq<bool>)
    requires Placed(es) && Unmatched(es) && k < |es| && args != []
    requires forall j | 0 <= j < |es| :: Abbreviates(ArgWords(args), es[j].node.name) <==> j == k
    ensures Tells(es, ArgWords(args), exact)
    ensures Nodes(From(es, args, 0, 0).entries) == [es[k].node] <==>
            forall m | 0 <= m < |exact| :: exact[m] ==> WordAt(es[k].node.name, m) == ArgWords(args)[m]
  {
    var all := ArgWords(args);
    FromStart(args, |args|);
    exact := TellsAll(es, all, |all|);
    assert all[..|all|] == all;
    var ws, told := LeftExactly(es, args, 0, 0);
    TellsSame(es, ws, told, all, exact, |ws|);
    assert told == exact[..|ws|] && ws == all[..|ws|];
    PassesMeans(es[k].node.name, all, exact);
    var left := Nodes(From(es, args, 0, 0).entries);
    if Passes(es[k].node.name, all, exact, false) {
      AloneStays(es, all, exact, ws, told, k, left);
    } else if left == [es[k].node] {
      AloneBeaten(es, all, exact, ws, told, k, left);
    }
  }

  lemma AloneWins(es: seq<Entry>, ws: seq<string>, exact: seq<bool>, k: nat)
    requires Placed(es) && Unmatched(es) && k < |es| && |exact| == |ws|
    requires forall j | 0 <= j < |es| :: Abbreviates(ws, es[j].node.name) <==> j == k
    requires Passes(es[k].node.name, ws, exact, false)
    ensures Winners(es, ws, exact) == [es[k].node]
  {
    assert Suffix(es[k]) == es[k].node.name;
    forall j | 0 <= j < |es| && j != k
      ensures !Passes(Suffix(es[j]), ws, exact, false)
    {
      assert Suffix(es[j]) == es[j].node.name;
      PassesMeans(Suffix(es[j]), ws, exact);
    }
    OneWins(es, ws, exact, k);
  }

  lemma AloneThrough(es: seq<Entry>, ws: seq<string>, exact: seq<bool>, k: nat, left: seq<Candidate>)
    requires Placed(es) && Unmatched(es) && k < |es| && |exact| == |ws|
    requires |left| <= 1 && left == Passing(es, ws, exact, false) && Passes(es[k].node.name, ws, exact, false)
    ensures left == [es[k].node]
  {
    assert Suffix(es[k]) == es[k].node.name;
    PassingIn(es, ws, exact, false, k);
    OnlyElement(left, es[k].node);
  }

  lemma AloneStays(es: seq<Entry>, all: seq<string>, exact: seq<bool>, ws: seq<string>, told: seq<bool>, k: nat,
                   left: seq<Candidate>)
    requires Placed(es) && Unmatched(es) && k < |es| && |exact| == |all|
    requires forall j | 0 <= j < |es| :: Abbreviates(all, es[j].node.name) <==> j == k
    requires Explains(es, all, ws, told, left) && told == exact[..|ws|] && ws == all[..|ws|]
    requires Passes(es[k].node.name, all, exact, false)
    ensures left == [es[k].node]
  {
    if ws == all {
      assert told == exact;
      AloneWins(es, all, exact, k);
    } else {
      PassesLess(es[k].node.name, all, exact, |ws|);
      AloneThrough(es, ws, told, k, left);
    }
  }

  /** If only one candidate gets through some words, who gets through more of them is that one. */
  lemma RivalIsSelf(es: seq<Entry>, ws: seq<string>, exact: seq<bool>, more: seq<string>, told: seq<bool>, k: nat)
    requires Placed(es) && Unmatched(es) && k < |es| && |exact| == |ws| <= |more| == |told| && more != []
    requires ws == more[..|ws|] && exact == told[..|ws|] && told[|more| - 1]
    requires Passing(es, ws, exact, false) == [es[k].node] && Passing(es, more, told, false) != []
    ensures WordAt(es[k].node.name, |more| - 1) == more[|more| - 1]
  {
    var j := SomePasses(es, more, told);
    PassesLess(Suffix(es[j]), more, told, |ws|);
    PassingIn(es, ws, exact, false, j);
    assert es[j].node == es[k].node && Suffix(es[j]) == es[k].node.name;
    LastWordExact(es[k].node.name, more, told);
  }

  lemma LastWordExact(s: string, ws: seq<string>, exact: seq<bool>)
    requires |exact| == |ws| > 0 && exact[|ws| - 1] && Passes(s, ws, exact, false)
    ensures WordAt(s, |ws| - 1) == ws[|ws| - 1]
  {
    PassesMeans(s, ws, exact);
  }

  lemma SomePasses(es: seq<Entry>, ws: seq<string>, exact: seq<bool>) returns (j: nat)
    requires Placed(es) && |exact| == |ws| && Passing(es, ws, exact, false) != []
    ensures j < |es| && Passes(Suffix(es[j]), ws, exact, false)
  {
    var n := Passing(es, ws, exact, false)[0];
    PassingWho(es, ws, exact, false, n);
    j :| 0 <= j < |es| && es[j].node == n && Passes(Suffix(es[j]), ws, exact, false);
  }

  lemma AloneRival(es: seq<Entry>, all: seq<string>, exact: seq<bool>, ws: seq<string>, told: seq<bool>, m: nat, k: nat)
    requires Placed(es) && Unmatched(es) && k < |es| && |exact| == |all| && |ws| <= m < |all|
    requires ws == all[..|ws|] && told == exact[..|ws|]
    requires Passing(es, ws, told, false) == [es[k].node] && Having(es, all, exact, m) != []
    ensures WordAt(es[k].node.name, m) == all[m]
  {
    var more, heard := all[..m + 1], exact[..m] + [true];
    Beginning(all, |ws|, m, all[m]);
    Beginning(exact, |ws|, m, true);
    RivalIsSelf(es, ws, told, more, heard, k);
  }

  lemma Beginning<T>(s: seq<T>, n: nat, m: nat, x: T)
    requires n <= m < |s|
    ensures s[..m + 1][..n] == s[..n] && (s[..m] + [x])[..n] == s[..n]
  {}

  lemma AloneBeaten(es: seq<Entry>, all: seq<string>, exact: seq<bool>, ws: seq<string>, told: seq<bool>, k: nat,
                    left: seq<Candidate>)
    requires Placed(es) && Unmatched(es) && k < |es| && Tells(es, all, exact)
    requires Abbreviates(all, es[k].node.name) && !Passes(es[k].node.name, all, exact, false)
    requires Explains(es, all, ws, told, left) && told == exact[..|ws|] && ws == all[..|ws|]
    ensures left != [es[k].node]
  {
    var name := es[k].node.name;
    PassesMeans(name, all, exact);
    var m :| 0 <= m < |all| && exact[m] && WordAt(name, m) != all[m];
    if m < |ws| {
      BeatenBefore(es, ws, told, k, m);
    } else if left == [es[k].node] {
      AloneRival(es, all, exact, ws, told, m, k);
    }
  }

  lemma BeatenBefore(es: seq<Entry>, ws: seq<string>, exact: seq<bool>, k: nat, m: nat)
    requires Placed(es) && Unmatched(es) && k < |es| && |exact| == |ws|
    requires m < |ws| && exact[m] && WordAt(es[k].node.name, m) != ws[m]
    ensures es[k].node !in Winners(es, ws, exact)
  {
    if es[k].node in Winners(es, ws, exact) {
      var w := WinnersPass(es, ws, exact, es[k].node);
      assert Suffix(es[w]) == es[k].node.name;
      PassesMeans(es[k].node.name, ws, exact);
    }
  }

  /**
   * So an exact word beats: with the names `vol_up` and `volume_down` the arguments `vol d`
   * abbreviate the second one alone, and yet the first one is taken, by the first argument.
   */
  lemma ExactWordBeats(es: seq<Entry>, first: string, longer: string, second: string, third: string, arg: string)
    requires Placed(es) && Unmatched(es) && |es| == 2
    requires es[0].node.name == first + "_" + second && es[1].node.name == longer + "_" + third
    requires OneWord(first) && OneWord(longer) && OneWord(second) && OneWord(third) && OneWord(arg)
    requires first <= longer && first != longer && arg <= third && !(arg <= second)
    ensures ArgWords([first, arg]) == [first, arg]
    ensures Abbreviates([first, arg], es[1].node.name) && !Abbreviates([first, arg], es[0].node.name)
    ensures var c := From(es, [first, arg], 0, 0); Nodes(c.entries) == [es[0].node] && c.used == 1
  {
    var args := [first, arg];
    TwoWords(first, second, es[0].node.name);
    TwoWords(longer, third, es[1].node.name);
    TwoWords(first, arg, first + "_" + arg);
    AfterTwo(first, second);
    AfterTwo(longer, third);
    WordEndAt(second, second);
    WordEndAt(third, third);
    assert args[1..] == [arg] && [arg][1..] == [];
    assert Suffix(es[0]) == es[0].node.name && Suffix(es[1]) == es[1].node.name;
    FirstArgument(first, arg);
    NarrowsToFirst(es, first);
    AllSpelled([Advance(es[0], first)]);
  }

  lemma FirstArgument(first: string, arg: string)
    requires OneWord(first)
    ensures var args := [first, arg];
            NextWord(args, 0, 0) == first && NextArg(args, 0, 0) == 1 && NextOffset(args, 0, 0) == 0
  {
    WordEndAt(first, first);
    assert [first, arg][0][0..] == first;
  }

  lemma NarrowsToFirst(es: seq<Entry>, first: string)
    requires Placed(es) && |es| == 2 && FirstWord(Suffix(es[0])) == first && FirstWord(Suffix(es[1])) != first
    ensures Narrow(es, first) == [Advance(es[0], first)]
  {
    ExactMatches(es, first);
    assert es[1..][0] == es[1] && es[1..][1..] == [];
    assert NextWordIs(es[1..], first) == [];
  }

  lemma AfterTwo(first: string, second: string)
    requires OneWord(first)
    ensures FirstWord(first + "_" + second) == first && AfterWord(first + "_" + second) == second
  {
    WordEndAt(first, first + "_" + second);
  }
}
