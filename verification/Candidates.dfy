/** The linked list of candidate names that completion and capability filtering prune in place (complete.h). */
module Candidates {
  import opened Options
  import opened Sequences

  class Candidate {
    const name: string
    /** The command code; None for a command built into the client. */
    const code: Option<string>
    var nameOff: nat
    var isExact: bool
    var next: Candidate?

    constructor (name: string, code: Option<string>, next: Candidate?)
      ensures this.name == name && this.code == code && this.next == next && nameOff == 0
    {
      this.name, this.code, this.next, this.nameOff := name, code, next, 0;
    }
  }

  /** The part of a candidate that changes, with the candidate itself. */
  datatype Entry = Entry(node: Candidate, off: nat, exact: bool)

  ghost function EntryOf(c: Candidate): Entry
    reads c
  {
    Entry(c, c.nameOff, c.isExact)
  }

  /** The list a `struct complete_candidate **` refers to, with the place a loop over it has reached. */
  class CandidateList {
    var head: Candidate?
    ghost var nodes: seq<Candidate>
    /** The candidates a loop has passed and kept, and those it has not come to. */
    ghost var done: seq<Entry>
    ghost var todo: seq<Entry>
    /** The candidates that are or were in the list. */
    ghost var repr: set<Candidate>

    ghost predicate Valid()
      reads this, repr
    {
      && (forall i | 0 <= i < |nodes| :: nodes[i] in repr)
      && head == (if nodes == [] then null else nodes[0])
      && (forall i, j | 0 <= i < j < |nodes| :: nodes[i] != nodes[j])
      && (forall i {:trigger nodes[i].next} | 0 <= i < |nodes| - 1 :: nodes[i].next == nodes[i + 1])
      && (nodes != [] ==> nodes[|nodes| - 1].next == null)
      && |nodes| == |done| + |todo|
      && (forall i | 0 <= i < |done| :: done[i] == EntryOf(nodes[i]))
      && (forall i | 0 <= i < |todo| :: todo[i] == EntryOf(nodes[|done| + i]))
    }

    /** The list's candidates with their changing parts, in order. */
    ghost function Entries(): seq<Entry>
      reads this
    {
      done + todo
    }

    constructor ()
      ensures Valid() && Entries() == [] && repr == {}
    {
      head, nodes, done, todo, repr := null, [], [], [], {};
    }

    /** A new candidate goes to the front. */
    method Add(name: string, code: Option<string>)
      requires Valid()
      modifies this
      ensures Valid() && fresh(repr - old(repr))
      ensures var e := Entries();
              |e| == 1 + |old(Entries())| && e[1..] == old(Entries()) &&
              fresh(e[0].node) && e[0].node.name == name && e[0].node.code == code && e[0].off == 0
    {
      var cand := new Candidate(name, code, head);
      head := cand;
      nodes, repr := [cand] + nodes, repr + {cand};
      done, todo := [], [Entry(cand, 0, cand.isExact)] + (done + todo);
    }

    /** `cand` is the first candidate not come to, or null at the end, and `pcand` the last one kept. */
    ghost predicate At(pcand: Candidate?, cand: Candidate?)
      reads this
    {
      && |done| <= |nodes|
      && pcand == (if done == [] then null else nodes[|done| - 1])
      && cand == (if |done| < |nodes| then nodes[|done|] else null)
    }

    /** How much of the list its head tells. */
    lemma Ends()
      requires Valid()
      ensures head == null <==> Entries() == []
      ensures head != null ==> (head.next == null <==> |Entries()| == 1)
    {
      assert |nodes| > 1 ==> nodes[0].next == nodes[1];
    }

    /** A loop over the list begins. */
    method First() returns (cand: Candidate?)
      requires Valid()
      modifies this`done, this`todo
      ensures Valid() && At(null, cand) && done == [] && todo == old(Entries())
    {
      cand := head;
      done, todo := [], done + todo;
    }

    /** The candidate come to stays, with new values for its changing parts; hands back the next one. */
    method Keep(ghost pcand: Candidate?, cand: Candidate, off: nat, exact: bool) returns (next: Candidate?)
      requires Valid() && At(pcand, cand)
      modifies this`done, this`todo, cand`nameOff, cand`isExact
      ensures Valid() && At(cand, next) && old(todo) != []
      ensures done == old(done) + [Entry(cand, off, exact)] && todo == old(todo)[1..]
    {
      assert forall i | 0 <= i < |nodes| && i != |done| :: nodes[i] != cand;
      cand.nameOff, cand.isExact := off, exact;
      done, todo := done + [Entry(cand, off, exact)], todo[1..];
      next := cand.next;
    }

    /** The candidate come to stays as it is; hands back the next one. */
    method Pass(ghost pcand: Candidate?, cand: Candidate) returns (next: Candidate?)
      requires Valid() && At(pcand, cand)
      modifies this`done, this`todo
      ensures Valid() && At(cand, next) && old(todo) != []
      ensures old(todo)[0].node == cand && todo == old(todo)[1..] && Entries() == old(Entries())
    {
      done, todo := done + [todo[0]], todo[1..];
      next := cand.next;
    }

    /** The candidate come to is taken out of the list; hands back the next one. */
    method Unlink(pcand: Candidate?, cand: Candidate) returns (next: Candidate?)
      requires Valid() && At(pcand, cand)
      modifies this`head, this`nodes, this`todo, repr`next
      ensures Valid() && At(pcand, next) && old(todo) != []
      ensures todo == old(todo)[1..]
    {
      next := cand.next;
      if pcand != null {
        UnlinkAfter(pcand, cand);
      } else {
        head := cand.next;
        nodes, todo := nodes[1..], todo[1..];
      }
    }

    method UnlinkAfter(pcand: Candidate, cand: Candidate)
      requires Valid() && At(pcand, cand)
      modifies this`nodes, this`todo, pcand`next
      ensures Valid() && At(pcand, old(cand.next)) && old(todo) != []
      ensures todo == old(todo)[1..]
    {
      assert forall i | 0 <= i < |nodes| && i != |done| - 1 :: nodes[i] != pcand;
      pcand.next := cand.next;
      nodes, todo := Without(nodes, |done|), todo[1..];
    }
  }
}
