/**
 Linked lists of nodes that themselves own lists, as the chat books of src/eliza.c have them:
 a free list or list of books hangs under a global pointer, keys under a book, replies under
 a key.  Nodes move from list to list through one link field.
 */
module ChatLists {
  import opened Seqs

  /** REPLY, CHAT_KEY or CHAT_KEYS, or a global list pointer: the link to the next node, and the first
      node of the list below. */
  class Node {
    var next: Node?
    var below: Node?

    constructor ()
      ensures next == null && below == null
    {
      next, below := null, null;
    }
  }

  ghost function ElementAt(s: seq<Node>, i: nat): Node? {
    if i < |s| then s[i] else null
  }

  /** The links from first run through exactly s. */
  ghost predicate Chain(first: Node?, s: seq<Node>)
    reads s`next
  {
    && Distinct(s)
    && first == ElementAt(s, 0)
    && forall i | 0 <= i < |s| :: s[i].next == ElementAt(s, i + 1)
  }

  ghost function Members<T>(s: seq<T>): set<T> { set n | n in s }

  lemma {:induction false} ReverseSnoc<T>(s: seq<T>, x: T)
    ensures Reverse(s + [x]) == [x] + Reverse(s)
    decreases |s|
  {
    if s == [] {
      assert ([] + [x])[1..] == [];
    } else {
      assert (s + [x])[1..] == s[1..] + [x];
      ReverseSnoc(s[1..], x);
    }
  }

  lemma ReverseStep<T>(s: seq<T>, i: nat, tail: seq<T>)
    requires i < |s|
    ensures Reverse(s[..i + 1]) + tail == [s[i]] + (Reverse(s[..i]) + tail)
    ensures Members(s[..i + 1]) == Members(s[..i]) + {s[i]}
  {
    assert s[..i + 1] == s[..i] + [s[i]];
    ReverseSnoc(s[..i], s[i]);
    Associate([s[i]], Reverse(s[..i]), tail);
  }

  lemma {:induction false} ReverseMembers<T>(s: seq<T>)
    ensures Members(Reverse(s)) == Members(s)
    decreases |s|
  {
    if s != [] {
      ReverseMembers(s[1..]);
      assert Members(s) == Members(s[1..]) + {s[0]};
    }
  }

  // ----- one list

  /** Node n of a list, as the walks of the editor find it. */
  method Nth(first: Node?, n: nat, ghost s: seq<Node>) returns (r: Node?)
    requires Chain(first, s)
    ensures r == ElementAt(s, n)
  {
    r := first;
    for i := 0 to n
      invariant r == ElementAt(s, i)
    {
      if r != null { r := r.next; }
    }
  }

  /** The link at position i. */
  ghost predicate LinkAt(s: seq<Node>, i: nat)
    requires i < |s|
    reads s`next
  {
    s[i].next == ElementAt(s, i + 1)
  }

  lemma ChainWith(first: Node?, s: seq<Node>)
    requires Distinct(s) && first == ElementAt(s, 0) && forall i | 0 <= i < |s| :: LinkAt(s, i)
    ensures Chain(first, s)
  {
    assert forall i | 0 <= i < |s| :: LinkAt(s, i) ==> s[i].next == ElementAt(s, i + 1);
  }

  /** A node linked to its successor and led to by its predecessor, all other links being as they were. */
  ghost predicate SplicedAt(s: seq<Node>, at: nat, n: Node, i: nat)
    requires i < |s|
    reads s`next
  {
    s[i].next == if i + 1 == at then n else ElementAt(s, i + 1)
  }

  lemma SplicedIsChain(head: Node?, s: seq<Node>, at: nat, n: Node)
    requires at <= |s| && Distinct(s) && n !in s && n.next == ElementAt(s, at)
    requires head == if at == 0 then n else ElementAt(s, 0)
    requires forall i | 0 <= i < |s| :: SplicedAt(s, at, n, i)
    ensures Chain(head, Inserted(s, at, n))
  {
    var t := Inserted(s, at, n);
    InsertedDistinct(s, at, n);
    forall i | 0 <= i < |t|
      ensures LinkAt(t, i)
    {
      if i < at { assert SplicedAt(s, at, n, i); }
      if i > at { assert SplicedAt(s, at, n, i - 1); }
    }
    ChainWith(head, t);
  }

  /** Link n in front of position at; head is the first node afterwards. */
  method LinkIn(first: Node?, n: Node, at: nat, ghost s: seq<Node>) returns (head: Node?)
    requires Chain(first, s) && at <= |s| && n !in s
    modifies n`next, s`next
    ensures Chain(head, Inserted(s, at, n))
  {
    if at == 0 {
      n.next := first;
      head := n;
    } else {
      var prev := Nth(first, at - 1, s);
      n.next := prev.next;
      prev.next := n;
      head := first;
    }
    forall i | 0 <= i < |s|
      ensures SplicedAt(s, at, n, i)
    {
      assert old(s[i].next) == ElementAt(s, i + 1);
    }
    SplicedIsChain(head, s, at, n);
  }

  /** The link at position i once its neighbour at position at has been led past. */
  ghost predicate PassedAt(s: seq<Node>, at: nat, i: nat)
    requires i < |s|
    reads s`next
  {
    s[i].next == if i + 1 == at then ElementAt(s, at + 1) else ElementAt(s, i + 1)
  }

  lemma PassedIsChain(head: Node?, s: seq<Node>, at: nat)
    requires at < |s| && Distinct(s) && head == ElementAt(s, if at == 0 then 1 else 0)
    requires forall i | 0 <= i < |s| && i != at :: PassedAt(s, at, i)
    ensures Chain(head, Cut(s, at, at + 1))
  {
    var t := Cut(s, at, at + 1);
    CutDistinct(s, at, at + 1);
    forall i | 0 <= i < |t|
      ensures LinkAt(t, i)
    {
      assert PassedAt(s, at, if i < at then i else i + 1);
    }
    ChainWith(head, t);
  }

  /** Take the node at position at out of its list. */
  method LinkOut(first: Node?, at: nat, ghost s: seq<Node>) returns (head: Node?, n: Node)
    requires Chain(first, s) && at < |s|
    modifies s`next
    ensures n == s[at] && Chain(head, Cut(s, at, at + 1))
  {
    if at == 0 {
      n := first;
      head := first.next;
    } else {
      var prev := Nth(first, at - 1, s);
      n := prev.next;
      prev.next := n.next;
      head := first;
    }
    forall i | 0 <= i < |s| && i != at
      ensures PassedAt(s, at, i)
    {
      assert old(s[i].next) == ElementAt(s, i + 1);
    }
    PassedIsChain(head, s, at);
  }

  // ----- many lists

  /** The list under each owner. */
  type Lists = map<Node, seq<Node>>

  ghost predicate On(m: Lists, c: Node) { exists o :: o in m && c in m[o] }

  /** All nodes on the lists of a level. */
  ghost function Under(m: Lists): (u: set<Node>)
    ensures forall o, c | o in m && c in m[o] :: c in u
    ensures forall c | c in u :: On(m, c)
  {
    set o, c | o in m && c in m[o] :: c
  }

  /** No node is on two lists. */
  ghost predicate Apart(m: Lists) {
    forall o, p {:trigger ApartAt(m, o, p)} | o in m && p in m :: ApartAt(m, o, p)
  }

  ghost predicate ApartAt(m: Lists, o: Node, p: Node)
    requires o in m && p in m
  {
    o != p ==> forall c | c in m[o] :: c !in m[p]
  }

  ghost predicate Hung(m: Lists, o: Node)
    requires o in m
    reads o`below, m[o]`next
  {
    Chain(o.below, m[o])
  }

  /** Each owner's list hangs under it, and no node is on two of them. */
  ghost predicate Level(m: Lists)
    reads m.Keys`below, Under(m)`next
  {
    Apart(m) && forall o {:trigger Hung(m, o)} | o in m :: Hung(m, o)
  }

  lemma UnderMore(m: Lists, o: Node, at: nat, n: Node)
    requires o in m && at <= |m[o]| && Apart(m) && n !in Under(m)
    ensures var r := m[o := Inserted(m[o], at, n)]; Apart(r) && Under(r) == Under(m) + {n}
  {
    var r := m[o := Inserted(m[o], at, n)];
    InsertedElements(m[o], at, n);
    forall p, q | p in r && q in r
      ensures ApartAt(r, p, q)
    {
      assert ApartAt(m, p, q) && ApartAt(m, q, p);
    }
    forall c
      ensures c in Under(r) <==> c in Under(m) || c == n
    {
      if c in Under(r) { var p: Node :| p in r && c in r[p]; assert p == o || c in m[p]; }
      if c in Under(m) { var p: Node :| p in m && c in m[p]; assert c in r[p]; }
      assert n in r[o];
    }
  }

  lemma InsertedElements<T>(s: seq<T>, at: nat, n: T)
    requires at <= |s|
    ensures forall c :: c in Inserted(s, at, n) <==> c in s || c == n
  {
    var t := Inserted(s, at, n);
    assert t[at] == n;
    forall c | c in s
      ensures c in t
    {
      var i :| 0 <= i < |s| && s[i] == c;
      assert t[if i < at then i else i + 1] == c;
    }
  }

  lemma UnderLess(m: Lists, o: Node, at: nat)
    requires o in m && at < |m[o]| && Apart(m) && Distinct(m[o])
    ensures var r := m[o := Cut(m[o], at, at + 1)]; Apart(r) && Under(r) == Under(m) - {m[o][at]}
  {
    var r, n := m[o := Cut(m[o], at, at + 1)], m[o][at];
    CutElements(m[o], at);
    forall p, q | p in r && q in r
      ensures ApartAt(r, p, q)
    {
      assert ApartAt(m, p, q);
    }
    forall c
      ensures c in Under(r) <==> c in Under(m) && c != n
    {
      if c in Under(r) { var p: Node :| p in r && c in r[p]; assert c in m[p] && ApartAt(m, o, p); }
      if c in Under(m) && c != n { var p: Node :| p in m && c in m[p]; assert c in r[p]; }
    }
  }

  lemma UnderNew(m: Lists, o: Node)
    requires o !in m && Apart(m)
    ensures Apart(m[o := []]) && Under(m[o := []]) == Under(m)
  {
    var r := m[o := []];
    forall p, q | p in r && q in r
      ensures ApartAt(r, p, q)
    {
      if p != o && q != o { assert ApartAt(m, p, q); }
    }
    forall c
      ensures c in Under(r) <==> c in Under(m)
    {
      if c in Under(r) { var p: Node :| p in r && c in r[p]; assert c in m[p]; }
      if c in Under(m) { var p: Node :| p in m && c in m[p]; assert c in r[p]; }
    }
  }

  lemma UnderGone(m: Lists, o: Node)
    requires o in m && Apart(m)
    ensures Apart(m - {o}) && Under(m - {o}) == Under(m) - Members(m[o])
  {
    var r := m - {o};
    forall p, q | p in r && q in r
      ensures ApartAt(r, p, q)
    {
      assert ApartAt(m, p, q);
    }
    forall c
      ensures c in Under(r) <==> c in Under(m) && c !in m[o]
    {
      if c in Under(r) { var p: Node :| p in r && c in r[p]; assert p in m && c in m[p] && ApartAt(m, o, p); }
      if c in Under(m) && c !in m[o] { var p: Node :| p in m && c in m[p]; assert p in r && c in r[p]; }
    }
  }

  /** One owner has a new list and all the others keep theirs. */
  lemma LevelWith(m: Lists, o: Node, s: seq<Node>)
    requires o in m && Apart(m[o := s]) && Chain(o.below, s)
    requires forall p | p in m && p != o :: Hung(m, p)
    ensures Level(m[o := s])
  {
    var r := m[o := s];
    forall p | p in r
      ensures Hung(r, p)
    {
      if p != o { assert Hung(m, p); }
    }
  }

  /** Put n on o's list at position at, which turns the lists m into r; no other list changes. */
  method Hang(o: Node, n: Node, at: nat, ghost m: Lists, ghost r: Lists)
    requires Level(m) && o in m && at <= |m[o]| && n !in Under(m) && r == m[o := Inserted(m[o], at, n)]
    modifies o`below, m[o]`next, n`next
    ensures Level(r)
    ensures Under(r) == Under(m) + {n}
  {
    ghost var s := m[o];
    assert Hung(m, o);
    o.below := LinkIn(o.below, n, at, s);
    forall p | p in m && p != o
      ensures Hung(m, p)
    {
      assert ApartAt(m, p, o);
      forall c | c in m[p]
        ensures c.next == old(c.next)
      {
        assert c !in s && c != n;
      }
      assert Hung(m, p) == old(Hung(m, p));
    }
    UnderMore(m, o, at, n);
    LevelWith(m, o, Inserted(s, at, n));
  }

  /** Take the node at position at off o's list, which turns the lists m into r. */
  method Unhang(o: Node, at: nat, ghost m: Lists, ghost r: Lists) returns (n: Node)
    requires Level(m) && o in m && at < |m[o]| && r == m[o := Cut(m[o], at, at + 1)]
    modifies o`below, m[o]`next
    ensures Level(r)
    ensures n == m[o][at] && Under(r) == Under(m) - {n}
  {
    ghost var s := m[o];
    assert Hung(m, o);
    o.below, n := LinkOut(o.below, at, s);
    forall p | p in m && p != o
      ensures Hung(m, p)
    {
      assert ApartAt(m, p, o);
      forall c | c in m[p]
        ensures c.next == old(c.next)
      {
        assert c !in s;
      }
      assert Hung(m, p) == old(Hung(m, p));
    }
    UnderLess(m, o, at);
    LevelWith(m, o, Cut(s, at, at + 1));
  }

  /** Put n in front of o's list. */
  method Push(o: Node, n: Node, ghost m: Lists, ghost r: Lists)
    requires Level(m) && o in m && n !in Under(m) && r == m[o := [n] + m[o]]
    modifies o`below, n`next
    ensures Level(r)
    ensures Under(r) == Under(m) + {n}
  {
    ghost var s := m[o];
    assert Hung(m, o);
    n.next := o.below;
    o.below := n;
    forall p | p in m && p != o
      ensures Hung(m, p)
    {
      assert n !in m[p];
      assert Hung(m, p) == old(Hung(m, p));
    }
    Pushed(n, s);
    UnderMore(m, o, 0, n);
    LevelWith(m, o, [n] + s);
  }

  lemma Pushed(n: Node, s: seq<Node>)
    requires n !in s && Chain(n.next, s)
    ensures Inserted(s, 0, n) == [n] + s && Chain(n, [n] + s)
  {
    var t := [n] + s;
    forall i | 0 <= i < |t|
      ensures LinkAt(t, i)
    {
      if i > 0 { assert s[i - 1].next == ElementAt(s, i); }
    }
    ChainWith(n, t);
  }

  /** Take the first node off o's list. */
  method Pull(o: Node, ghost m: Lists, ghost r: Lists) returns (n: Node)
    requires Level(m) && o in m && m[o] != [] && r == m[o := m[o][1..]]
    modifies o`below
    ensures Level(r)
    ensures n == m[o][0] && Under(r) == Under(m) - {n}
  {
    ghost var s := m[o];
    assert Hung(m, o);
    n := o.below;
    o.below := n.next;
    forall p | p in m && p != o
      ensures Hung(m, p)
    {
      assert Hung(m, p) == old(Hung(m, p));
    }
    Pulled(s);
    UnderLess(m, o, 0);
    LevelWith(m, o, s[1..]);
  }

  lemma Pulled(s: seq<Node>)
    requires s != [] && Chain(s[0], s)
    ensures Cut(s, 0, 1) == s[1..] && Chain(s[0].next, s[1..])
  {
    forall i | 0 <= i < |s| - 1
      ensures LinkAt(s[1..], i)
    {
      assert s[i + 1].next == ElementAt(s, i + 2);
    }
    ChainWith(s[0].next, s[1..]);
  }

  lemma EmptyLevel(m: Lists)
    requires forall o | o in m :: m[o] == [] && o.below == null
    ensures Level(m) && Under(m) == {}
  {
    forall o | o in m
      ensures Hung(m, o)
    {
      assert m[o] == [];
    }
  }

  /** A new owner with nothing below it. */
  lemma LevelOwn(m: Lists, o: Node)
    requires Level(m) && o !in m && o.below == null
    ensures Level(m[o := []]) && Under(m[o := []]) == Under(m)
  {
    var r := m[o := []];
    UnderNew(m, o);
    forall p | p in r
      ensures Hung(r, p)
    {
      if p != o { assert Hung(m, p); }
    }
  }

  /** A list nobody owns any more. */
  lemma LevelGone(m: Lists, o: Node)
    requires Level(m) && o in m
    ensures Level(m - {o}) && Under(m - {o}) == Under(m) - Members(m[o])
  {
    var r := m - {o};
    UnderGone(m, o);
    forall p | p in r
      ensures Hung(r, p)
    {
      assert Hung(m, p);
    }
  }
}
