/** Sequence vocabulary shared by the models. */
module Seqs {

  ghost predicate Distinct<T>(s: seq<T>) {
    forall i, j | 0 <= i < j < |s| :: s[i] != s[j]
  }

  ghost function Reverse<T>(s: seq<T>): (r: seq<T>)
    ensures |r| == |s|
  {
    if s == [] then [] else Reverse(s[1..]) + [s[0]]
  }

  ghost predicate Disjoint<T>(s: seq<T>, t: seq<T>) {
    forall i, j | 0 <= i < |s| && 0 <= j < |t| :: s[i] != t[j]
  }

  /** s with x put in front of position k */
  function Inserted<T>(s: seq<T>, k: nat, x: T): (r: seq<T>)
    requires k <= |s|
  {
    s[..k] + [x] + s[k..]
  }

  /** s with the positions k .. m - 1 taken out */
  function Cut<T>(s: seq<T>, k: nat, m: nat): (r: seq<T>)
    requires k <= m <= |s|
  {
    s[..k] + s[m..]
  }

  lemma InsertedDistinct<T>(s: seq<T>, k: nat, x: T)
    requires k <= |s| && Distinct(s) && x !in s
    ensures Distinct(Inserted(s, k, x))
  {
  }

  lemma CutDistinct<T>(s: seq<T>, k: nat, m: nat)
    requires k <= m <= |s| && Distinct(s)
    ensures Distinct(Cut(s, k, m))
    ensures forall i | k <= i < m :: s[i] !in Cut(s, k, m)
  {
  }

  lemma CutElements<T>(s: seq<T>, k: nat)
    requires k < |s| && Distinct(s)
    ensures forall x :: x in Cut(s, k, k + 1) <==> x in s && x != s[k]
  {
  }

  lemma Associate<T>(a: seq<T>, b: seq<T>, c: seq<T>)
    ensures (a + b) + c == a + (b + c)
  {
  }
}
