/** What completion promises about names that the arguments spell, and names they only abbreviate. */
module Spelling {
  import opened Sequences
  import opened Candidates
  import opened Completion

  // ------------------------------------------------------------ the words of the arguments

  /** The words from a place in the arguments up to argument `j`. */
  function Upto(args: seq<string>, i: nat, o: nat, j: nat): seq<string>
    requires InArgs(args, i, o) && j <= |args|
  {
    if i >= j then [] else Words(args[i][o..]) + ArgWords(args[i + 1..j])
  }

  lemma NextArgument(args: seq<string>, i: nat, j: nat)
    requires i < j <= |args|
    ensures ArgWords(args[i..j]) == Upto(args, i, 0, j)
  {
    assert args[i][0..] == args[i];
    assert args[i..j][1..] == args[i + 1..j] && args[i..j][0] == args[i];
  }

  lemma UptoStep(args: seq<string>, i: nat, o: nat, j: nat)
    requires InArgs(args, i, o) && i < j <= |args|
    ensures Upto(args, i, o, j) == [NextWord(args, i, o)] + Upto(args, NextArg(args, i, o), NextOffset(args, i, o), j)
  {
    var arg := args[i][o..];
    var later := ArgWords(args[i + 1..j]);
    if WordEnd(arg) < |arg| {
      assert AfterWord(arg) == args[i][NextOffset(args, i, o)..];
      Associate([FirstWord(arg)], Words(AfterWord(arg)), later);
    } else {
      assert FirstWord(arg) == arg;
      if i + 1 < j {
        NextArgument(args, i + 1, j);
      } else {
        assert args[i + 1..j] == [];
      }
    }
  }

  // ------------------------------------------------------------ names the words spell

  /** The words of `ws`, one after the other, are the next words of `s` - all of it, if `whole`. */
  predicate Spells(ws: seq<string>, s: string, whole: bool)
    decreases |ws|
  {
    if ws == [] then whole ==> s == []
    else ws[0] == FirstWord(s) && Spells(ws[1..], AfterWord(s), whole)
  }

  /** The candidates whose remaining names are spelled, in order. */
  function Spelled(es: seq<Entry>, ws: seq<string>, whole: bool): seq<Candidate>
    requires Placed(es)
  {
    if es == [] then []
    else (if Spells(ws, Suffix(es[0]), whole) then [es[0].node] else []) + Spelled(es[1..], ws, whole)
  }

  /** The candidates whose next word is `w`, moved past it. */
  function NextWordIs(es: seq<Entry>, w: string): (ns: seq<Entry>)
    requires Placed(es)
    ensures Placed(ns)
  {
    if es == [] then []
    else (if FirstWord(Suffix(es[0])) == w then [Advance(es[0], w)] else []) + NextWordIs(es[1..], w)
  }

  lemma {:induction false} ExactMatches(es: seq<Entry>, w: string)
    requires Placed(es)
    ensures Exact(Matching(es, w)) == NextWordIs(es, w)
    ensures HaveExact(Matching(es, w)) <==> NextWordIs(es, w) != []
  {
    if es != [] {
      ExactMatches(es[1..], w);
      var e, ms := Advance(es[0], w), Matching(es[1..], w);
      if w <= Suffix(es[0]) {
        assert ([e] + ms)[1..] == ms;
      } else {
        assert [] + ms == ms;
      }
    }
  }

  lemma SpelledOne(e: Entry, es: seq<Entry>, ws: seq<string>, whole: bool)
    requires Placed([e] + es) && Placed(es)
    ensures Spelled([e] + es, ws, whole) ==
            (if Spells(ws, Suffix(([e] + es)[0]), whole) then [e.node] else []) + Spelled(es, ws, whole)
  {
    assert ([e] + es)[1..] == es;
  }

  lemma SpellsOne(w: string, ws: seq<string>, s: string, whole: bool)
    ensures Spells([w] + ws, s, whole) <==> w == FirstWord(s) && Spells(ws, AfterWord(s), whole)
  {
    HeadTail(w, ws);
  }

  /** Going one word on in candidates and words leaves the same candidates spelled. */
  lemma {:induction false} SpelledStep(es: seq<Entry>, w: string, ws: seq<string>, whole: bool)
    requires Placed(es)
    ensures Spelled(NextWordIs(es, w), ws, whole) == Spelled(es, [w] + ws, whole)
  {
    if es != [] {
      SpelledStep(es[1..], w, ws, whole);
      SpellsOne(w, ws, Suffix(es[0]), whole);
      var rest := NextWordIs(es[1..], w);
      if FirstWord(Suffix(es[0])) == w {
        SpelledOne(Advance(es[0], w), rest, ws, whole);
      } else {
        assert NextWordIs(es, w) == rest;
      }
    }
  }

  lemma {:induction false} UsedUpSpelled(es: seq<Entry>)
    requires Placed(es)
    ensures Nodes(Exact(MarkUsedUp(es))) == Spelled(es, [], true)
    ensures HaveExact(MarkUsedUp(es)) <==> Spelled(es, [], true) != []
  {
    if es != [] {
      UsedUpSpelled(es[1..]);
      var m, ms := es[0].(exact := es[0].off == |es[0].node.name|), MarkUsedUp(es[1..]);
      assert ([m] + ms)[1..] == ms;
      if m.exact {
        NodesOne(m, Exact(ms));
      } else {
        assert Exact(MarkUsedUp(es)) == Exact(ms);
      }
    }
  }

  lemma OneSpelled(es: seq<Entry>, ws: seq<string>, whole: bool)
    requires Placed(es) && |es| == 1 && Spelled(es, ws, whole) != []
    ensures Spelled(es, ws, whole) == Nodes(es)
  {}

  /**
   * If the words from a place on spell some candidate's whole remaining name, the candidates
   * left at the end are exactly those spelled so, in their order.
   */
  lemma {:induction false} SpelledAreLeft(es: seq<Entry>, args: seq<string>, i: nat, o: nat)
    requires Placed(es) && InArgs(args, i, o)
    requires Spelled(es, Upto(args, i, o, |args|), true) != []
    ensures Nodes(From(es, args, i, o).entries) == Spelled(es, Upto(args, i, o, |args|), true)
    decreases |args| - i, if i < |args| then |args[i]| - o else 0
  {
    if i == |args| {
      UsedUpSpelled(es);
      if |es| < 2 { OneSpelled(es, [], true); }
    } else {
      var w, i', o' := NextWord(args, i, o), NextArg(args, i, o), NextOffset(args, i, o);
      var rest := Upto(args, i', o', |args|);
      UptoStep(args, i, o, |args|);
      SpelledStep(es, w, rest, true);
      ExactMatches(es, w);
      var ns := Narrow(es, w);
      assert ns == NextWordIs(es, w);
      if Settled(ns, o') {
        OneSpelled(ns, rest, true);
      } else {
        SpelledAreLeft(ns, args, i', o');
      }
    }
  }

  /**
   * How many arguments completion uses when they spell a candidate's whole name: not all of
   * them exactly when, at the end of an earlier one, a single candidate had the words so far.
   */
  lemma {:induction false} ArgumentsUsed(es: seq<Entry>, args: seq<string>, i: nat, o: nat)
    requires Placed(es) && InArgs(args, i, o)
    requires Spelled(es, Upto(args, i, o, |args|), true) != []
    ensures From(es, args, i, o).used < |args| <==>
            exists j :: i < j < |args| && |Spelled(es, Upto(args, i, o, j), false)| == 1
    decreases |args| - i, if i < |args| then |args[i]| - o else 0
  {
    if i < |args| {
      var w, i', o' := NextWord(args, i, o), NextArg(args, i, o), NextOffset(args, i, o);
      UptoStep(args, i, o, |args|);
      SpelledStep(es, w, Upto(args, i', o', |args|), true);
      ExactMatches(es, w);
      var ns := Narrow(es, w);
      assert ns == NextWordIs(es, w);
      forall j | i < j < |args|
        ensures Spelled(es, Upto(args, i, o, j), false) == Spelled(ns, Upto(args, i', o', j), false)
      {
        UptoStep(args, i, o, j);
        SpelledStep(es, w, Upto(args, i', o', j), false);
      }
      AllSpelled(ns);
      if Settled(ns, o') {
        assert i' < |args| ==> |Spelled(es, Upto(args, i, o, i'), false)| == 1;
      } else {
        ArgumentsUsed(ns, args, i', o');
        assert i < i' < |args| ==> |Spelled(es, Upto(args, i, o, i'), false)| != 1;
      }
    }
  }

  lemma {:induction false} AllSpelled(es: seq<Entry>)
    requires Placed(es)
    ensures Spelled(es, [], false) == Nodes(es) && |Nodes(es)| == |es|
  {
    if es != [] { AllSpelled(es[1..]); }
  }

  // ------------------------------------------------------------ whole names

  /** A name is spelled by its own words. */
  lemma {:induction false} WordsSpell(s: string)
    ensures Spells(Words(s), s, true)
    decreases |s|
  {
    if WordEnd(s) < |s| {
      WordsSpell(AfterWord(s));
      assert Words(s)[1..] == Words(AfterWord(s));
    } else {
      assert Words(s)[1..] == [];
    }
  }

  lemma NothingSpelled(ws: seq<string>)
    requires NoneEmpty(ws) && Spells(ws, [], true)
    ensures ws == []
  {}

  /** Without empty words, nothing but its own words spells a name. */
  lemma {:induction false} OnlyWordsSpell(ws: seq<string>, s: string)
    requires ws != [] && NoneEmpty(ws) && NoneEmpty(Words(s)) && Spells(ws, s, true)
    ensures ws == Words(s)
    decreases |ws|
  {
    NoneEmptyTail(ws);
    if WordEnd(s) == |s| {
      NothingSpelled(ws[1..]);
      assert ws[0] == s[..|s|] == s;
    } else {
      NoneEmptyTail(Words(s));
      assert Words([])[0] == [];
      assert Words(s)[1] == Words(AfterWord(s))[0];
      assert AfterWord(s) != [];
      OnlyWordsSpell(ws[1..], AfterWord(s));
    }
  }

  /** Candidates as the client makes them: nothing of their names is matched yet. */
  ghost predicate Unmatched(es: seq<Entry>) { forall i | 0 <= i < |es| :: es[i].off == 0 }

  /** The candidates with a given word list, whichever separators their names use. */
  function WithWords(es: seq<Entry>, ws: seq<string>): seq<Candidate> {
    if es == [] then [] else (if Words(es[0].node.name) == ws then [es[0].node] else []) + WithWords(es[1..], ws)
  }

  lemma {:induction false} SpelledHasWords(es: seq<Entry>, ws: seq<string>, k: nat)
    requires Placed(es) && Unmatched(es)
    ensures k < |es| && Words(es[k].node.name) == ws ==> es[k].node in Spelled(es, ws, true)
    ensures ws != [] && NoneEmpty(ws) && (forall i | 0 <= i < |es| :: NoneEmpty(Words(es[i].node.name))) ==>
            Spelled(es, ws, true) == WithWords(es, ws)
  {
    if es != [] {
      SpelledHasWords(es[1..], ws, if k > 0 then k - 1 else 0);
      var name := es[0].node.name;
      assert Suffix(es[0]) == name;
      WordsSpell(name);
      if ws != [] && NoneEmpty(ws) && NoneEmpty(Words(name)) && Spells(ws, name, true) {
        OnlyWordsSpell(ws, name);
      }
    }
  }

  /**
   * A candidate whose whole name the arguments spell, with whichever separators, is always left,
   * even if other names extend it.
   */
  lemma SpelledNameSurvives(es: seq<Entry>, args: seq<string>, k: nat)
    requires Placed(es) && Unmatched(es) && k < |es|
    requires args != [] && Words(es[k].node.name) == ArgWords(args)
    ensures es[k].node in Nodes(From(es, args, 0, 0).entries)
  {
    FromStart(args, |args|);
    SpelledHasWords(es, ArgWords(args), k);
    SpelledAreLeft(es, args, 0, 0);
  }

  lemma FromStart(args: seq<string>, j: nat)
    requires 0 < j <= |args|
    ensures Upto(args, 0, 0, j) == ArgWords(args[..j]) && args[..|args|] == args
  {
    assert args[0][0..] == args[0];
    assert args[..j][1..] == args[1..j];
  }

  /**
   * With names and arguments free of empty words, the candidates left are exactly those with
   * the words of the arguments.
   */
  lemma SpelledNamesExactly(es: seq<Entry>, args: seq<string>, k: nat)
    requires Placed(es) && Unmatched(es) && k < |es|
    requires args != [] && Words(es[k].node.name) == ArgWords(args)
    requires forall i | 0 <= i < |es| :: NoneEmpty(Words(es[i].node.name))
    ensures Nodes(From(es, args, 0, 0).entries) == WithWords(es, ArgWords(args))
  {
    FromStart(args, |args|);
    SpelledHasWords(es, ArgWords(args), k);
    SpelledAreLeft(es, args, 0, 0);
  }

  /**
   * Spelling a whole name does not make completion use all the arguments: it stops early
   * exactly when one candidate alone begins with the words of fewer arguments. The client then
   * takes the rest of the name for the command's own arguments.
   */
  lemma SpelledNameUsed(es: seq<Entry>, args: seq<string>, k: nat)
    requires Placed(es) && Unmatched(es) && k < |es|
    requires args != [] && Words(es[k].node.name) == ArgWords(args)
    ensures From(es, args, 0, 0).used < |args| <==>
            exists j :: 0 < j < |args| && |Spelled(es, ArgWords(args[..j]), false)| == 1
  {
    FromStart(args, |args|);
    SpelledHasWords(es, ArgWords(args), k);
    ArgumentsUsed(es, args, 0, 0);
    forall j | 0 < j < |args|
      ensures Upto(args, 0, 0, j) == ArgWords(args[..j])
    {
      FromStart(args, j);
    }
  }

  /** A word ends at an underscore, a dash or a blank, and nowhere else. */
  lemma WordsEnd(first: string, c: char, second: string)
    requires forall i | 0 <= i < |first| :: first[i] != '_' && first[i] != '-' && first[i] != ' '
    ensures var s := first + [c] + second;
            if c == '_' || c == '-' || c == ' ' then FirstWord(s) == first && AfterWord(s) == second
            else |FirstWord(s)| > |first|
  {
    var s := first + [c] + second;
    assert forall i | 0 <= i < |first| :: s[i] == first[i] && s[i] !in SEPARATORS;
    assert s[|first|] == c;
    if c in SEPARATORS {
      assert WordEnd(s) == |first|;
      assert s[..|first|] == first && s[|first| + 1..] == second;
    }
  }

  /** A name of two words is left when it is spelled with another separator between them. */
  lemma AnySeparator(es: seq<Entry>, k: nat, first: string, second: string, c: char, d: char)
    requires Placed(es) && Unmatched(es) && k < |es| && es[k].node.name == first + [c] + second
    requires c in {'_', '-', ' '} && d in {'_', '-', ' '}
    requires forall i | 0 <= i < |first| :: first[i] != '_' && first[i] != '-' && first[i] != ' '
    ensures es[k].node in Nodes(From(es, [first + [d] + second], 0, 0).entries)
  {
    var name, arg := es[k].node.name, first + [d] + second;
    WordsEnd(first, c, second);
    WordsEnd(first, d, second);
    assert WordEnd(name) < |name| && WordEnd(arg) < |arg|;
    assert [arg][1..] == [] && ArgWords([arg]) == Words(arg) + [] == Words(arg);
    SpelledNameSurvives(es, [arg], k);
  }

  predicate OneWord(w: string) { forall i | 0 <= i < |w| :: w[i] !in SEPARATORS }

  lemma WordEndAt(w: string, s: string)
    requires OneWord(w) && w <= s && (|w| < |s| ==> s[|w|] in SEPARATORS)
    ensures WordEnd(s) == |w| && FirstWord(s) == w
  {
    assert forall i | 0 <= i < |w| :: s[i] == w[i];
  }

  lemma TwoWords(first: string, second: string, name: string)
    requires OneWord(first) && OneWord(second) && name == first + "_" + second
    ensures Words(name) == [first, second] && Words(first) == [first] && FirstWord(name) == first
    ensures ArgWords([first, second]) == [first, second] && ArgWords([first]) == [first]
  {
    WordEndAt(first, name);
    WordEndAt(first, first);
    WordEndAt(second, second);
    assert AfterWord(name) == second;
    assert [first, second][1..] == [second] && [first][1..] == [] && [second][1..] == [];
    assert ArgWords([]) == [] && ArgWords([second]) == [second] + [] && ArgWords([first]) == [first] + [];
  }

  lemma SpelledFirst(es: seq<Entry>, first: string)
    requires Placed(es) && es != []
    ensures Spelled(es, [first], false) ==
            (if FirstWord(Suffix(es[0])) == first then [es[0].node] else []) + Spelled(es[1..], [first], false)
  {
    assert [first][1..] == [] && Spells([], AfterWord(Suffix(es[0])), false);
  }

  lemma {:induction false} NoneBegins(es: seq<Entry>, first: string)
    requires Placed(es) && forall j | 0 <= j < |es| :: FirstWord(Suffix(es[j])) != first
    ensures Spelled(es, [first], false) == []
  {
    if es != [] {
      SpelledFirst(es, first);
      NoneBegins(es[1..], first);
    }
  }

  /** If a single name has a given first word, it is the only one whose beginning the word spells. */
  lemma {:induction false} OneBegins(es: seq<Entry>, k: nat, first: string)
    requires Placed(es) && k < |es| && FirstWord(Suffix(es[k])) == first
    requires forall j | 0 <= j < |es| && j != k :: FirstWord(Suffix(es[j])) != first
    ensures Spelled(es, [first], false) == [es[k].node]
  {
    SpelledFirst(es, first);
    if k == 0 {
      NoneBegins(es[1..], first);
    } else {
      OneBegins(es[1..], k - 1, first);
    }
  }

  /**
   * For instance, if `back_light` is the only name with the first word `back`, it is settled by
   * the first of the two arguments `back light`, whatever other names there are.
   */
  lemma LoneNameStopsEarly(es: seq<Entry>, k: nat, first: string, second: string)
    requires Placed(es) && Unmatched(es) && k < |es|
    requires OneWord(first) && OneWord(second) && es[k].node.name == first + "_" + second
    requires forall j | 0 <= j < |es| && j != k :: FirstWord(es[j].node.name) != first
    ensures From(es, [first, second], 0, 0).used == 1
  {
    var args := [first, second];
    TwoWords(first, second, es[k].node.name);
    forall j | 0 <= j < |es|
      ensures Suffix(es[j]) == es[j].node.name
    {}
    OneBegins(es, k, first);
    assert args[..1] == [first] && |Spelled(es, ArgWords(args[..1]), false)| == 1;
    SpelledNameUsed(es, args, k);
    SpelledNameSurvives(es, args, k);
    LeftAreAbbreviated(es, args, 0, 0, 0);
  }

  // ------------------------------------------------------------ abbreviations

  /** The words of `ws` begin the next words of `s`, one each. */
  predicate Abbreviates(ws: seq<string>, s: string)
    decreases |ws|
  {
    ws == [] || (ws[0] <= FirstWord(s) && Abbreviates(ws[1..], AfterWord(s)))
  }

  lemma PrefixOfWord(w: string, s: string)
    requires w <= s && forall i | 0 <= i < |w| :: w[i] !in SEPARATORS
    ensures w <= FirstWord(s)
  {
    assert forall i | 0 <= i < |w| :: s[i] == w[i];
  }

  /** `n` comes from a candidate of `es` that `ws` abbreviates. */
  ghost predicate Abbreviated(n: Candidate, es: seq<Entry>, ws: seq<string>)
    requires Placed(es)
  {
    exists k :: 0 <= k < |es| && es[k].node == n && Abbreviates(ws, Suffix(es[k]))
  }

  /** The candidate of `es` that stays as the `m`-th of those whose next word begins with `w`. */
  function Origin(es: seq<Entry>, w: string, m: nat): (k: nat)
    requires Placed(es) && m < |Matching(es, w)|
    ensures k < |es|
  {
    if w <= Suffix(es[0]) then (if m == 0 then 0 else 1 + Origin(es[1..], w, m - 1))
    else 1 + Origin(es[1..], w, m)
  }

  lemma {:induction false} OriginFits(es: seq<Entry>, w: string, m: nat)
    requires Placed(es) && m < |Matching(es, w)|
    ensures w <= Suffix(es[Origin(es, w, m)])
  {
    var fits := w <= Suffix(es[0]);
    if !fits || m > 0 {
      var l := if fits then m - 1 else m;
      OriginFits(es[1..], w, l);
      assert es[1..][Origin(es[1..], w, l)] == es[Origin(es, w, m)];
    }
  }

  lemma {:induction false} OriginMoves(es: seq<Entry>, w: string, m: nat)
    requires Placed(es) && m < |Matching(es, w)|
    ensures Matching(es, w)[m] == Advance(es[Origin(es, w, m)], w)
  {
    var fits, rest := w <= Suffix(es[0]), Matching(es[1..], w);
    if fits && m == 0 {
      HeadTail(Advance(es[0], w), rest);
    } else {
      var l := if fits then m - 1 else m;
      OriginMoves(es[1..], w, l);
      assert es[1..][Origin(es[1..], w, l)] == es[Origin(es, w, m)];
      Behind(if fits then [Advance(es[0], w)] else [], rest, l);
    }
  }

  lemma {:induction false} ExactFrom(es: seq<Entry>, m: nat) returns (k: nat)
    requires m < |Exact(es)|
    ensures k < |es| && es[k] == Exact(es)[m]
  {
    if es[0].exact && m == 0 {
      k := 0;
    } else {
      k := ExactFrom(es[1..], if es[0].exact then m - 1 else m);
      k := k + 1;
    }
  }

  /** What a step leaves was there before, and its next word began with `w`. */
  lemma NarrowFrom(es: seq<Entry>, w: string, m: nat) returns (k: nat)
    requires Placed(es) && m < |Narrow(es, w)|
    ensures k < |es| && w <= Suffix(es[k]) && Narrow(es, w)[m] == Advance(es[k], w)
  {
    var ms, l := Matching(es, w), m;
    if HaveExact(ms) {
      l := ExactFrom(ms, m);
    }
    OriginFits(es, w, l);
    OriginMoves(es, w, l);
    k := Origin(es, w, l);
  }

  lemma FinishFrom(es: seq<Entry>, m: nat)
    requires Placed(es) && m < |Finish(es)|
    ensures Abbreviated(Finish(es)[m].node, es, [])
  {
    var k := m;
    if |es| >= 2 {
      MarkedAt(es);
      if HaveExact(MarkUsedUp(es)) {
        k := ExactFrom(MarkUsedUp(es), m);
      }
    }
    assert es[k].node == Finish(es)[m].node && Abbreviates([], Suffix(es[k]));
  }

  lemma {:induction false} MarkedAt(es: seq<Entry>)
    ensures forall i | 0 <= i < |es| :: MarkUsedUp(es)[i].node == es[i].node
  {
    if es != [] { MarkedAt(es[1..]); }
  }

  lemma AbbreviatedStep(es: seq<Entry>, args: seq<string>, i: nat, o: nat, j: nat, k: nat)
    requires Placed(es) && InArgs(args, i, o) && i < |args| && NextArg(args, i, o) <= j <= |args| && i < j
    requires k < |Narrow(es, NextWord(args, i, o))|
    requires Abbreviates(Upto(args, NextArg(args, i, o), NextOffset(args, i, o), j),
                         Suffix(Narrow(es, NextWord(args, i, o))[k]))
    ensures Abbreviated(Narrow(es, NextWord(args, i, o))[k].node, es, Upto(args, i, o, j))
  {
    var w, ws := NextWord(args, i, o), Upto(args, NextArg(args, i, o), NextOffset(args, i, o), j);
    var l := NarrowFrom(es, w, k);
    PrefixOfWord(w, Suffix(es[l]));
    UptoStep(args, i, o, j);
    assert ([w] + ws)[1..] == ws;
    assert Abbreviates([w] + ws, Suffix(es[l]));
  }

  /** Nothing is left that the words used do not abbreviate, word for word. */
  lemma {:induction false} LeftAreAbbreviated(es: seq<Entry>, args: seq<string>, i: nat, o: nat, m: nat)
    requires Placed(es) && InArgs(args, i, o) && m < |From(es, args, i, o).entries|
    ensures var c := From(es, args, i, o);
            (i < |args| ==> i < c.used) && Abbreviated(c.entries[m].node, es, Upto(args, i, o, c.used))
    decreases |args| - i, if i < |args| then |args[i]| - o else 0
  {
    if i == |args| {
      FinishFrom(es, m);
    } else {
      var w, i', o' := NextWord(args, i, o), NextArg(args, i, o), NextOffset(args, i, o);
      var ns := Narrow(es, w);
      if Settled(ns, o') {
        AbbreviatedStep(es, args, i, o, i', m);
      } else {
        LeftAreAbbreviated(ns, args, i', o', m);
        var c := From(ns, args, i', o');
        var ws := Upto(args, i', o', c.used);
        var k :| 0 <= k < |ns| && ns[k].node == c.entries[m].node && Abbreviates(ws, Suffix(ns[k]));
        AbbreviatedStep(es, args, i, o, c.used, k);
      }
    }
  }
}
