/**
 The three-level ownership of src/eliza.c: books of keys of replies, with a free list for each
 kind.  A node is always on exactly one list: a free list, the list of books, or the list of
 its owner.
 */
module ChatBooks {
  import opened Seqs
  import opened ChatLists

  /** A list owner that is on no list itself. */
  ghost predicate Head(m: Lists, f: Node) { f in m && f !in Under(m) }

  /** The nodes on f's list own nothing. */
  ghost predicate Idle(m: Lists, f: Node)
    requires f in m
  {
    forall n | n in m[f] :: n !in m
  }

  class Chat {
    // the global pointers, each the `below` of a cell of its own
    const replyFree: Node
    const ckFree: Node
    const chatkeysFree: Node
    const chatkeysList: Node
    ghost var lists: Lists

    constructor ()
      ensures Sound()
      ensures lists == map[replyFree := [], ckFree := [], chatkeysFree := [], chatkeysList := []]
    {
      replyFree := new Node();
      ckFree := new Node();
      chatkeysFree := new Node();
      chatkeysList := new Node();
      new;
      ghost var m: Lists := map[replyFree := [], ckFree := [], chatkeysFree := [], chatkeysList := []];
      EmptyLevel(m);
      lists := m;
    }

    ghost predicate IsPool(f: Node) { f == replyFree || f == ckFree || f == chatkeysFree }

    /** The global pointers are four lists of their own, and what is free owns nothing. */
    ghost predicate Fits(m: Lists) {
      && replyFree != ckFree && replyFree != chatkeysFree && ckFree != chatkeysFree && !IsPool(chatkeysList)
      && Head(m, replyFree) && Head(m, ckFree) && Head(m, chatkeysFree) && Head(m, chatkeysList)
      && Idle(m, replyFree) && Idle(m, ckFree) && Idle(m, chatkeysFree)
    }

    /** Every list hangs under its owner, no node is on two lists, and the free ones own none. */
    ghost predicate Sound()
      reads this, lists.Keys`below, Under(lists)`next
    {
      Level(lists) && Fits(lists)
    }

    lemma PushFits(m: Lists, free: Node, n: Node, r: Lists)
      requires Fits(m) && Apart(m) && IsPool(free) && n !in Under(m) && n !in m && r == m[free := [n] + m[free]]
      requires Under(r) == Under(m) + {n}
      ensures Fits(r)
    {
    }

    lemma PopFits(m: Lists, free: Node, r: Lists)
      requires Fits(m) && IsPool(free) && m[free] != [] && r == m[free := m[free][1..]]
      requires Under(r) == Under(m) - {m[free][0]}
      ensures Fits(r)
    {
    }

    // ----- new_reply, new_chatkey, new_chatkeys

    /** The first free node, or a new one: it is on no list and owns nothing. */
    method Take(free: Node) returns (n: Node)
      requires Sound()
      requires IsPool(free)
      modifies this`lists, free`below, lists[free]`next, lists[free]`below
      ensures Sound()
      ensures n !in Under(lists) && n !in lists && n.next == null && n.below == null
      ensures if old(lists)[free] == [] then fresh(n) && lists == old(lists)
              else n == old(lists)[free][0] && lists == old(lists)[free := old(lists)[free][1..]]
    {
      assert Hung(lists, free);
      if free.below == null {
        n := new Node();
      } else {
        n := Pop(free);
        label L:
        n.next, n.below := null, null;
        assert Level(lists) == old@L(Level(lists));
      }
    }

    method Pop(free: Node) returns (n: Node)
      requires Sound()
      requires IsPool(free) && lists[free] != []
      modifies this`lists, free`below
      ensures Sound()
      ensures n !in Under(lists) && n !in lists
      ensures n == old(lists)[free][0] && lists == old(lists)[free := old(lists)[free][1..]]
    {
      assert Hung(lists, free);
      ghost var r := lists[free := lists[free][1..]];
      n := Pull(free, lists, r);
      PopFits(lists, free, r);
      lists := r;
    }

    /** free_reply, and the last step of the other two: push onto a free list. */
    method Give(free: Node, n: Node)
      requires Sound()
      requires IsPool(free) && n !in Under(lists) && n !in lists
      modifies this`lists, free`below, n`next
      ensures Sound()
      ensures lists == old(lists)[free := [n] + old(lists)[free]] && Under(lists) == Under(old(lists)) + {n}
    {
      ghost var r := lists[free := [n] + lists[free]];
      Push(free, n, lists, r);
      PushFits(lists, free, n, r);
      lists := r;
    }

    // ----- free_chatkey

    /** The lists when the owner o has gone. */
    ghost method Disown(o: Node)
      requires Sound()
      requires o in lists && o !in Under(lists) && o != chatkeysList && !IsPool(o)
      modifies this`lists
      ensures Sound()
      ensures lists == old(lists) - {o} && Under(lists) == Under(old(lists)) - Members(old(lists)[o])
    {
      LevelGone(lists, o);
      DisownFits(lists, o);
      lists := lists - {o};
    }

    lemma DisownFits(m: Lists, o: Node)
      requires Fits(m) && Apart(m) && o in m && o !in Under(m) && o != chatkeysList && !IsPool(o)
      ensures Fits(m - {o})
    {
      UnderGone(m, o);
    }

    /** The first i nodes of rs have joined the free replies. */
    ghost predicate Given(m: Lists, rs: seq<Node>, i: nat)
      requires replyFree in m && i <= |rs|
      reads this
    {
      lists == m[replyFree := Reverse(rs[..i]) + m[replyFree]] && Under(lists) == Under(m) + Members(rs[..i])
    }

    ghost predicate OffLists(m: Lists, rs: seq<Node>) {
      Distinct(rs) && forall r | r in rs :: r !in Under(m) && r !in m
    }

    method GiveNext(r: Node, ghost m: Lists, ghost rs: seq<Node>, ghost i: nat)
      requires Sound()
      requires replyFree in m && i < |rs| && rs[i] == r && OffLists(m, rs) && Given(m, rs, i)
      modifies this`lists, replyFree`below, r`next
      ensures Sound()
      ensures Given(m, rs, i + 1)
    {
      ghost var was := lists;
      Give(replyFree, r);
      OneMoreGiven(m, rs, i, was);
    }

    lemma OneMoreGiven(m: Lists, rs: seq<Node>, i: nat, was: Lists)
      requires replyFree in m && i < |rs| && was == m[replyFree := Reverse(rs[..i]) + m[replyFree]]
      requires lists == was[replyFree := [rs[i]] + was[replyFree]]
      requires Under(lists) == (Under(m) + Members(rs[..i])) + {rs[i]}
      ensures Given(m, rs, i + 1)
    {
      ReverseStep(rs, i, m[replyFree]);
    }

    /** The loop of free_chatkey over what was the key's list: each link is saved before the node goes. */
    method GiveLoop(first: Node?, ghost m: Lists, ghost rs: seq<Node>)
      requires Sound()
      requires replyFree in m && Given(m, rs, 0)
      requires Chain(first, rs) && OffLists(m, rs)
      modifies this`lists, replyFree`below, rs`next
      ensures Sound()
      ensures Given(m, rs, |rs|)
    {
      var r := first;
      ghost var i := 0;
      while r != null
        invariant i <= |rs|
        invariant r == ElementAt(rs, i)
        invariant Sound()
        invariant Given(m, rs, i)
        invariant forall k | i <= k < |rs| :: rs[k].next == ElementAt(rs, k + 1)
        decreases |rs| - i
      {
        var rNext := r.next;
        GiveNext(r, m, rs, i);
        assert forall k | i < k < |rs| :: rs[k] != r;
        r := rNext;
        i := i + 1;
      }
    }

    method GiveAll(first: Node?, ghost rs: seq<Node>)
      requires Sound()
      requires Chain(first, rs) && OffLists(lists, rs)
      modifies this`lists, replyFree`below, rs`next
      ensures Sound()
      ensures lists == old(lists)[replyFree := Reverse(rs) + old(lists)[replyFree]]
      ensures Under(lists) == Under(old(lists)) + Members(rs)
    {
      NothingGiven(lists, rs);
      GiveLoop(first, lists, rs);
      assert rs[..|rs|] == rs;
    }

    lemma NothingGiven(m: Lists, rs: seq<Node>)
      requires replyFree in m && lists == m
      ensures Given(m, rs, 0)
    {
      assert rs[..0] == [] && [] + m[replyFree] == m[replyFree];
      assert m[replyFree := m[replyFree]] == m;
    }

    /** r is m with the key ck freed, and its replies with it. */
    ghost predicate KeyGone(m: Lists, ck: Node, r: Lists) {
      && ck in m && ckFree in m && replyFree in m
      && r.Keys == m.Keys - {ck} && Under(r) == Under(m) + {ck} && ckFree in r && replyFree in r
      && r[ckFree] == [ck] + m[ckFree] && r[replyFree] == Reverse(m[ck]) + m[replyFree]
      && forall o | o in r && o != ckFree && o != replyFree :: r[o] == m[o]
    }

    /** ck is a key or a book on no list. */
    ghost predicate Freeable(m: Lists, ck: Node) {
      ck in m && ck !in Under(m) && !IsPool(ck) && ck != chatkeysList
    }

    /** free_chatkey */
    method FreeChatkey(ck: Node)
      requires Sound()
      requires Freeable(lists, ck) && Idle(lists, ck)
      modifies this`lists, replyFree`below, ckFree`below, lists[ck]`next, ck`next
      ensures Sound()
      ensures KeyGone(old(lists), ck, lists)
    {
      ghost var rs := lists[ck];
      assert Hung(lists, ck);
      Disown(ck);
      GiveAll(ck.below, rs);
      Give(ckFree, ck);
      KeyIsGone(old(lists), ck, lists);
    }

    lemma KeyIsGone(m: Lists, ck: Node, r: Lists)
      requires Fits(m) && Freeable(m, ck)
      requires var t := (m - {ck})[replyFree := Reverse(m[ck]) + m[replyFree]]; r == t[ckFree := [ck] + t[ckFree]]
      requires Under(r) == ((Under(m) - Members(m[ck])) + Members(m[ck])) + {ck}
      ensures KeyGone(m, ck, r)
    {
    }

    // ----- free_chatkeys

    ghost predicate InMap(m: Lists, ks: seq<Node>) { forall j | 0 <= j < |ks| :: ks[j] in m }

    /** What replies the first i keys of ks leave on the free list, the latest in front. */
    ghost function Stacked(m: Lists, ks: seq<Node>, i: nat): seq<Node>
      requires i <= |ks| && InMap(m, ks)
    {
      if i == 0 then [] else Reverse(m[ks[i - 1]]) + Stacked(m, ks, i - 1)
    }

    /** The keys of a book that is going: on no list any more, each with replies of its own. */
    ghost predicate Ready(m: Lists, ks: seq<Node>) {
      Distinct(ks) && forall i | 0 <= i < |ks| :: KeyReady(m, ks[i])
    }

    ghost predicate KeyReady(m: Lists, k: Node) { Freeable(m, k) && Idle(m, k) }

    ghost predicate Pools(m: Lists) { ckFree in m && replyFree in m && ckFree != replyFree }

    /** r is m with the first i keys freed, and their replies with them. */
    ghost predicate KeysFreed(m: Lists, ks: seq<Node>, i: nat, r: Lists)
      requires i <= |ks| && Pools(m) && InMap(m, ks)
    {
      && r.Keys == m.Keys - Members(ks[..i]) && Under(r) == Under(m) + Members(ks[..i])
      && ckFree in r && r[ckFree] == Reverse(ks[..i]) + m[ckFree]
      && replyFree in r && r[replyFree] == Stacked(m, ks, i) + m[replyFree]
      && forall o | o in r && o != ckFree && o != replyFree :: r[o] == m[o]
    }

    lemma OneMoreKey(m: Lists, ks: seq<Node>, i: nat, r: Lists, t: Lists)
      requires i < |ks| && Pools(m) && InMap(m, ks) && KeysFreed(m, ks, i, r)
      requires KeyGone(r, ks[i], t) && r[ks[i]] == m[ks[i]]
      ensures KeysFreed(m, ks, i + 1, t)
    {
      ReverseStep(ks, i, m[ckFree]);
      Associate(Reverse(m[ks[i]]), Stacked(m, ks, i), m[replyFree]);
    }

    lemma NextKeyReady(m: Lists, ks: seq<Node>, i: nat, r: Lists)
      requires i < |ks| && Pools(m) && Ready(m, ks) && InMap(m, ks) && KeysFreed(m, ks, i, r)
      ensures Freeable(r, ks[i]) && Idle(r, ks[i]) && r[ks[i]] == m[ks[i]]
    {
      assert KeyReady(m, ks[i]);
      assert ks[i] !in ks[..i] && ks[i] !in Members(ks[..i]);
      assert ks[i] in m && ks[i] != ckFree && ks[i] != replyFree;
    }

    /** So far the first i keys of ks have been freed. */
    ghost predicate Freeing(m: Lists, ks: seq<Node>, i: nat)
      reads this
    {
      i <= |ks| && Pools(m) && Ready(m, ks) && InMap(m, ks) && KeysFreed(m, ks, i, lists)
    }

    method FreeReadyKey(k: Node, ghost m: Lists, ghost ks: seq<Node>, ghost i: nat, ghost rest: seq<Node>)
      requires Sound()
      requires Freeing(m, ks, i)
      requires i < |ks| && ks[i] == k
      requires LinkedOn(rest)
      requires forall n | n in rest :: n != k && n !in m[k]
      modifies this`lists, replyFree`below, ckFree`below, m[k]`next, k`next
      ensures Sound()
      ensures Freeing(m, ks, i + 1)
      ensures LinkedOn(rest)
    {
      ghost var r := lists;
      NextKeyReady(m, ks, i, r);
      FreeApart(k, rest);
      OneMoreKey(m, ks, i, r, lists);
    }

    /** Freeing a key leaves the links of others alone. */
    method FreeApart(k: Node, ghost rest: seq<Node>)
      requires Sound()
      requires Freeable(lists, k) && Idle(lists, k)
      requires LinkedOn(rest)
      requires forall n | n in rest :: n != k && n !in lists[k]
      modifies this`lists, replyFree`below, ckFree`below, lists[k]`next, k`next
      ensures Sound()
      ensures KeyGone(old(lists), k, lists)
      ensures LinkedOn(rest)
    {
      FreeChatkey(k);
      forall n | n in rest
        ensures n.next == old(n.next)
      {
      }
      assert LinkedOn(rest) == old(LinkedOn(rest));
    }

    /** The nodes of s lead to one another. */
    static ghost predicate LinkedOn(s: seq<Node>)
      reads s`next
    {
      forall j | 0 <= j < |s| :: LinkAt(s, j)
    }

    static lemma RestLinked(s: seq<Node>, rest: seq<Node>)
      requires s != [] && LinkedOn(s) && rest == s[1..]
      ensures LinkedOn(rest) && s[0].next == ElementAt(rest, 0)
    {
      assert LinkAt(s, 0);
      assert forall j | 0 <= j < |rest| :: LinkAt(s, j + 1) ==> LinkAt(rest, j);
    }

    lemma LaterKeys(m: Lists, ks: seq<Node>, i: nat, rest: seq<Node>)
      requires i < |ks| && Ready(m, ks) && InMap(m, ks) && rest == ks[i + 1..]
      ensures forall n | n in rest :: n != ks[i] && n !in m[ks[i]]
    {
      forall n | n in rest
        ensures n != ks[i] && n !in m[ks[i]]
      {
        var j :| i < j < |ks| && n == ks[j];
        assert KeyReady(m, ks[j]);
      }
    }

    /** One round of the loop of free_chatkeys. */
    method FreeNextKey(k: Node, ghost m: Lists, ghost ks: seq<Node>, ghost i: nat) returns (kNext: Node?)
      requires Sound()
      requires Freeing(m, ks, i)
      requires i < |ks| && ks[i] == k
      requires LinkedOn(ks[i..])
      modifies this`lists, replyFree`below, ckFree`below, m[k]`next, k`next
      ensures Sound()
      ensures Freeing(m, ks, i + 1)
      ensures LinkedOn(ks[i + 1..])
      ensures kNext == ElementAt(ks, i + 1)
    {
      kNext := k.next;
      ghost var rest := ks[i + 1..];
      RestLinked(ks[i..], rest);
      LaterKeys(m, ks, i, rest);
      FreeReadyKey(k, m, ks, i, rest);
    }

    /** The loop of free_chatkeys. */
    method FreeKeys(first: Node?, ghost m: Lists, ghost ks: seq<Node>)
      requires Sound()
      requires Freeing(m, ks, 0)
      requires first == ElementAt(ks, 0) && LinkedOn(ks)
      modifies this`lists, replyFree`below, ckFree`below, Under(m)`next, ks`next
      ensures Sound()
      ensures Freeing(m, ks, |ks|)
    {
      var k := first;
      ghost var i := 0;
      assert ks[0..] == ks;
      while k != null
        invariant i <= |ks|
        invariant k == ElementAt(ks, i)
        invariant Sound()
        invariant Freeing(m, ks, i)
        invariant LinkedOn(ks[i..])
        decreases |ks| - i
      {
        k := FreeNextKey(k, m, ks, i);
        i := i + 1;
      }
    }

    lemma StartFreeing(first: Node?, m: Lists, ks: seq<Node>)
      requires lists == m && Pools(m) && Ready(m, ks) && InMap(m, ks) && Chain(first, ks)
      ensures Freeing(m, ks, 0)
      ensures first == ElementAt(ks, 0) && LinkedOn(ks)
    {
      NoKeyFreed(m, ks);
      assert forall j | 0 <= j < |ks| :: ks[j].next == ElementAt(ks, j + 1) ==> LinkAt(ks, j);
    }

    lemma NoKeyFreed(m: Lists, ks: seq<Node>)
      requires Pools(m) && InMap(m, ks)
      ensures KeysFreed(m, ks, 0, m)
    {
      assert ks[..0] == [];
    }

    /** A book ready to be freed: on no list, and under it keys whose replies own nothing. */
    ghost predicate BookReady(m: Lists, b: Node) {
      Freeable(m, b) && forall k | k in m[b] :: k in m && Idle(m, k)
    }

    /** r is m with the book b freed, and its keys and their replies with it. */
    ghost predicate BookGone(m: Lists, b: Node, r: Lists) {
      && Fits(m) && b in m && InMap(m, m[b]) && Fits(r)
      && r.Keys == m.Keys - ({b} + Members(m[b])) && Under(r) == Under(m) + {b}
      && r[chatkeysFree] == [b] + m[chatkeysFree]
      && r[ckFree] == Reverse(m[b]) + m[ckFree]
      && r[replyFree] == Stacked(m, m[b], |m[b]|) + m[replyFree]
      && forall o | o in r && !IsPool(o) :: r[o] == m[o]
    }

    lemma KeysReady(m: Lists, b: Node)
      requires Fits(m) && Apart(m) && BookReady(m, b) && Distinct(m[b])
      ensures Ready(m - {b}, m[b]) && InMap(m - {b}, m[b])
      ensures b !in Under(m - {b})
    {
      UnderGone(m, b);
    }

    lemma {:induction false} StackedWithout(m: Lists, b: Node, ks: seq<Node>, i: nat)
      requires i <= |ks| && b in m && InMap(m - {b}, ks)
      ensures InMap(m, ks) && Stacked(m - {b}, ks, i) == Stacked(m, ks, i)
    {
      if i > 0 { StackedWithout(m, b, ks, i - 1); }
    }

    /** r is m with the keys of the book b freed, and b about to follow. */
    ghost predicate KeysGone(m: Lists, b: Node, r: Lists) {
      && Fits(m) && b in m && InMap(m, m[b]) && Fits(r)
      && r.Keys == m.Keys - ({b} + Members(m[b])) && Under(r) == Under(m)
      && r[ckFree] == Reverse(m[b]) + m[ckFree]
      && r[replyFree] == Stacked(m, m[b], |m[b]|) + m[replyFree]
      && forall o | o in r && o != ckFree && o != replyFree :: r[o] == m[o]
    }

    lemma KeysAreGone(m: Lists, b: Node, ks: seq<Node>, m0: Lists, r: Lists)
      requires Fits(m) && BookReady(m, b) && ks == m[b] && m0 == m - {b} && Fits(m0) && InMap(m0, ks)
      requires Under(m0) == Under(m) - Members(ks) && Members(ks) <= Under(m)
      requires KeysFreed(m0, ks, |ks|, r) && Fits(r)
      ensures KeysGone(m, b, r)
    {
      StackedWithout(m, b, ks, |ks|);
      assert ks[..|ks|] == ks;
      Refilled(Under(m), Members(ks));
    }

    lemma BookIsGone(m: Lists, b: Node, r: Lists, t: Lists)
      requires KeysGone(m, b, r) && Fits(t)
      requires t == r[chatkeysFree := [b] + r[chatkeysFree]] && Under(t) == Under(r) + {b}
      ensures BookGone(m, b, t)
    {
    }

    static lemma Refilled(u: set<Node>, x: set<Node>)
      requires x <= u
      ensures (u - x) + x == u
    {
    }

    /** free_chatkeys */
    method FreeChatkeys(cks: Node)
      requires Sound()
      requires BookReady(lists, cks)
      modifies this`lists, replyFree`below, ckFree`below, chatkeysFree`below, Under(lists)`next, cks`next
      ensures Sound()
      ensures BookGone(old(lists), cks, lists)
    {
      ghost var m := lists;
      ghost var ks := m[cks];
      assert Hung(m, cks);
      KeysReady(m, cks);
      Disown(cks);
      ghost var m0 := lists;
      StartFreeing(cks.below, m0, ks);
      FreeKeys(cks.below, m0, ks);
      ghost var r := lists;
      KeysAreGone(m, cks, ks, m0, r);
      Give(chatkeysFree, cks);
      BookIsGone(m, cks, r, lists);
    }

    /** What the keys leave on the free list is exactly their replies. */
    lemma {:induction false} StackedMembers(m: Lists, ks: seq<Node>, i: nat)
      requires i <= |ks| && InMap(m, ks)
      ensures forall n :: n in Stacked(m, ks, i) <==> exists j :: 0 <= j < i && n in m[ks[j]]
    {
      if i > 0 {
        StackedMembers(m, ks, i - 1);
        ReverseMembers(m[ks[i - 1]]);
        var rs := m[ks[i - 1]];
        forall n
          ensures n in Reverse(rs) <==> n in rs
        {
          assert n in Members(Reverse(rs)) <==> n in Members(rs);
        }
      }
    }

    // ----- linking into and out of the lists in use

    /** The new node n may have a list of its own. */
    ghost method Own(n: Node)
      requires Sound()
      requires n !in lists && n !in Under(lists) && n.below == null
      modifies this`lists
      ensures Sound()
      ensures lists == old(lists)[n := []] && Under(lists) == Under(old(lists))
    {
      LevelOwn(lists, n);
      lists := lists[n := []];
    }

    ghost predicate IsHead(f: Node) { IsPool(f) || f == chatkeysList }

    lemma FitsWith(m: Lists, o: Node, r: Lists, s: seq<Node>)
      requires Fits(m) && o in m && !IsPool(o) && r == m[o := s]
      requires forall f | IsHead(f) :: f !in Under(r)
      ensures Fits(r)
    {
    }

    /** Link n into o's list at position at. */
    method Attach(o: Node, n: Node, at: nat)
      requires Sound()
      requires o in lists && !IsPool(o) && at <= |lists[o]| && n !in Under(lists) && !IsHead(n)
      modifies this`lists, o`below, lists[o]`next, n`next
      ensures Sound()
      ensures lists == old(lists)[o := Inserted(old(lists)[o], at, n)] && Under(lists) == Under(old(lists)) + {n}
    {
      ghost var r := lists[o := Inserted(lists[o], at, n)];
      Hang(o, n, at, lists, r);
      FitsWith(lists, o, r, r[o]);
      lists := r;
    }

    /** Unlink the node at position at of o's list. */
    method Detach(o: Node, at: nat) returns (n: Node)
      requires Sound()
      requires o in lists && !IsPool(o) && at < |lists[o]|
      modifies this`lists, o`below, lists[o]`next
      ensures Sound()
      ensures n == old(lists)[o][at]
      ensures lists == old(lists)[o := Cut(old(lists)[o], at, at + 1)] && Under(lists) == Under(old(lists)) - {n}
    {
      ghost var r := lists[o := Cut(lists[o], at, at + 1)];
      n := Unhang(o, at, lists, r);
      FitsWith(lists, o, r, r[o]);
      lists := r;
    }
  }
}
