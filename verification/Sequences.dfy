/** Facts about sequences that several modules share. */
module Sequences {

  /** `s` without its element at `k`. */
  function Without<T>(s: seq<T>, k: nat): (t: seq<T>)
    requires k < |s|
    ensures |t| == |s| - 1
    ensures forall i {:trigger t[i]} | 0 <= i < |t| :: t[i] == s[if i < k then i else i + 1]
  {
    s[..k] + s[k + 1..]
  }

  predicate NoneEmpty(ss: seq<string>) { forall i | 0 <= i < |ss| :: ss[i] != [] }

  lemma NoneEmptyTail(ss: seq<string>)
    requires NoneEmpty(ss) && ss != []
    ensures NoneEmpty(ss[1..])
  {}

  lemma Associate<T>(a: seq<T>, b: seq<T>, c: seq<T>)
    ensures a + (b + c) == a + b + c && a + [] == a && [] + a == a
  {}

  lemma HeadTail<T>(x: T, xs: seq<T>)
    ensures ([x] + xs)[0] == x && ([x] + xs)[1..] == xs
  {}

  lemma Behind<T>(a: seq<T>, b: seq<T>, j: nat)
    requires j < |b|
    ensures (a + b)[|a| + j] == b[j]
  {}

  /** `a` is `b` with some elements left out. */
  ghost predicate Sublist<T>(a: seq<T>, b: seq<T>)
    decreases |b|
  {
    a == [] || (b != [] && ((a[0] == b[0] && Sublist(a[1..], b[1..])) || Sublist(a, b[1..])))
  }

  lemma SublistCons<T>(x: T, a: seq<T>, b: seq<T>)
    requires Sublist(a, b)
    ensures Sublist([x] + a, [x] + b) && Sublist(a, [x] + b)
  {
    HeadTail(x, a);
    HeadTail(x, b);
  }

  lemma {:induction false} SublistSelf<T>(a: seq<T>)
    ensures Sublist(a, a)
    decreases |a|
  {
    if a != [] { SublistSelf(a[1..]); }
  }

  lemma {:induction false} SublistTrans<T>(a: seq<T>, b: seq<T>, c: seq<T>)
    requires Sublist(a, b) && Sublist(b, c)
    ensures Sublist(a, c)
    decreases |c|
  {
    if a != [] {
      if Sublist(b, c[1..]) {
        SublistTrans(a, b, c[1..]);
      } else if a[0] == b[0] && Sublist(a[1..], b[1..]) {
        SublistTrans(a[1..], b[1..], c[1..]);
      } else {
        SublistTrans(a, b[1..], c[1..]);
      }
    }
  }
}
