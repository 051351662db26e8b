/**
 Whole runs over the chat books: the loader and the editor make books, keys and replies and
 delete them again, and their nodes go through the free lists of src/eliza.c.
 */
module ChatEditor {
  import opened Seqs
  import opened ChatLists
  import opened ChatBooks

  // ----- the tree of books

  ghost predicate OwnsReplies(m: Lists, k: Node) { k in m && Idle(m, k) }

  ghost predicate OwnsKeys(m: Lists, b: Node) {
    b in m && forall k {:trigger OwnsReplies(m, k)} | k in m[b] :: OwnsReplies(m, k)
  }

  ghost function Books(c: Chat, m: Lists): seq<Node> {
    if c.chatkeysList in m then m[c.chatkeysList] else []
  }

  ghost predicate IsKey(c: Chat, m: Lists, k: Node) { exists b :: b in Books(c, m) && b in m && k in m[b] }

  /** Books own keys, keys own replies, replies own nothing, and nobody else owns anything. */
  ghost predicate Tree(c: Chat, m: Lists) {
    && c.chatkeysList in m
    && (forall b {:trigger OwnsKeys(m, b)} | b in Books(c, m) :: OwnsKeys(m, b))
    && forall o | o in m :: c.IsHead(o) || o in Books(c, m) || IsKey(c, m, o)
  }

  lemma TreeWithPool(c: Chat, m: Lists, free: Node, s: seq<Node>)
    requires c.Fits(m) && Tree(c, m) && c.IsPool(free)
    ensures Tree(c, m[free := s])
  {
    var r := m[free := s];
    forall b | b in Books(c, r)
      ensures OwnsKeys(r, b)
    {
      assert b in Books(c, m) && OwnsKeys(m, b) && b != free;
      forall k | k in r[b]
        ensures OwnsReplies(r, k)
      {
        assert OwnsReplies(m, k) && k != free;
      }
    }
    forall o | o in r && !c.IsHead(o) && o !in Books(c, r)
      ensures IsKey(c, r, o)
    {
      assert IsKey(c, m, o);
      var b: Node :| b in Books(c, m) && b in m && o in m[b];
      assert b in Books(c, r) && b != free;
    }
  }

  lemma TreeWithBook(c: Chat, m: Lists, n: Node, at: nat)
    requires c.Fits(m) && Tree(c, m) && n !in m && n !in Under(m) && at <= |m[c.chatkeysList]|
    ensures Tree(c, m[n := []][c.chatkeysList := Inserted(m[c.chatkeysList], at, n)])
  {
    var l := c.chatkeysList;
    var r := m[n := []][l := Inserted(m[l], at, n)];
    InsertedElements(m[l], at, n);
    forall b | b in Books(c, r)
      ensures OwnsKeys(r, b)
    {
      if b != n {
        assert b in Books(c, m) && OwnsKeys(m, b) && b != l;
        forall k | k in r[b]
          ensures OwnsReplies(r, k)
        {
          assert OwnsReplies(m, k) && k != n && k != l;
        }
      }
    }
    forall o | o in r && !c.IsHead(o) && o !in Books(c, r)
      ensures IsKey(c, r, o)
    {
      assert IsKey(c, m, o);
      var b: Node :| b in Books(c, m) && b in m && o in m[b];
      assert b in Books(c, r) && b != l && b != n;
    }
  }

  lemma TreeWithKey(c: Chat, m: Lists, b: Node, n: Node, at: nat)
    requires c.Fits(m) && Apart(m) && Tree(c, m) && b in Books(c, m) && b in m && at <= |m[b]|
    requires n !in m && n !in Under(m)
    ensures Tree(c, m[n := []][b := Inserted(m[b], at, n)])
  {
    var l := c.chatkeysList;
    var r := m[n := []][b := Inserted(m[b], at, n)];
    InsertedElements(m[b], at, n);
    forall a | a in Books(c, r)
      ensures OwnsKeys(r, a)
    {
      assert a in Books(c, m) && OwnsKeys(m, a);
      forall k | k in r[a]
        ensures OwnsReplies(r, k)
      {
        if k != n {
          assert OwnsReplies(m, k);
          KeyIsNoBook(c, m, a, k);
          assert k != b;
        }
      }
    }
    forall o | o in r && !c.IsHead(o) && o !in Books(c, r)
      ensures IsKey(c, r, o)
    {
      if o != n {
        assert IsKey(c, m, o);
        var a: Node :| a in Books(c, m) && a in m && o in m[a];
        assert a in Books(c, r) && o in r[a];
      } else {
        assert b in Books(c, r) && o in r[b];
      }
    }
  }

  lemma KeyIsNoBook(c: Chat, m: Lists, b: Node, k: Node)
    requires c.Fits(m) && Apart(m) && b in Books(c, m) && b in m && k in m[b]
    ensures k !in Books(c, m)
  {
    assert ApartAt(m, c.chatkeysList, b);
  }

  /** New links below a key. */
  lemma TreeWithReplies(c: Chat, m: Lists, b: Node, k: Node, s: seq<Node>)
    requires c.Fits(m) && Apart(m) && Tree(c, m) && b in Books(c, m) && b in m && k in m[b] && k in m
    requires forall n | n in s :: n !in m
    ensures Tree(c, m[k := s])
  {
    var r := m[k := s];
    KeyIsNoBook(c, m, b, k);
    forall a | a in Books(c, r)
      ensures OwnsKeys(r, a)
    {
      assert a in Books(c, m) && OwnsKeys(m, a) && a != k;
      forall j | j in r[a]
        ensures OwnsReplies(r, j)
      {
        assert OwnsReplies(m, j);
      }
    }
    forall o | o in r && !c.IsHead(o) && o !in Books(c, r)
      ensures IsKey(c, r, o)
    {
      assert IsKey(c, m, o);
      var a: Node :| a in Books(c, m) && a in m && o in m[a];
      KeyIsNoBook(c, m, b, k);
      assert a in Books(c, r) && o in r[a];
    }
  }

  // ----- what the commands do to the lists

  ghost function Nodes(m: Lists): set<Node> { m.Keys + Under(m) }

  /** The lists when a node has been taken from those of free, if there was one. */
  ghost function Popped(m: Lists, free: Node): Lists
    requires free in m
  {
    if m[free] == [] then m else m[free := m[free][1..]]
  }

  /** n is the first free node, or a new one. */
  ghost predicate Spare(m: Lists, free: Node, n: Node)
    requires free in m
  {
    if m[free] == [] then n !in Nodes(m) else n == m[free][0]
  }

  ghost function WithBook(c: Chat, m: Lists, n: Node): Lists
    requires c.Fits(m)
  {
    var l := c.chatkeysList;
    Popped(m, c.chatkeysFree)[n := []][l := Inserted(m[l], 0, n)]
  }

  ghost function WithKey(c: Chat, m: Lists, b: Node, at: nat, n: Node): Lists
    requires c.Fits(m) && b in m && at <= |m[b]|
  {
    Popped(m, c.ckFree)[n := []][b := Inserted(m[b], at, n)]
  }

  ghost function WithReply(c: Chat, m: Lists, k: Node, n: Node): Lists
    requires c.Fits(m) && k in m
  {
    Popped(m, c.replyFree)[k := Inserted(m[k], 0, n)]
  }

  ghost function Without(m: Lists, o: Node, at: nat): Lists
    requires o in m && at < |m[o]|
  {
    m[o := Cut(m[o], at, at + 1)]
  }

  ghost function WithoutReply(c: Chat, m: Lists, k: Node, at: nat): Lists
    requires c.Fits(m) && k in m && at < |m[k]|
  {
    Without(m, k, at)[c.replyFree := [m[k][at]] + m[c.replyFree]]
  }

  // ----- the commands

  /** The node on top of a free list is on no other. */
  lemma SpareIsSpare(c: Chat, m: Lists, free: Node, n: Node)
    requires c.Fits(m) && Apart(m) && c.IsPool(free) && Spare(m, free, n) && Distinct(m[free])
    ensures n !in m && n !in Under(Popped(m, free)) && c.Fits(Popped(m, free)) && Apart(Popped(m, free))
    ensures Under(Popped(m, free)) + {n} == Under(m) + {n}
  {
    if m[free] != [] {
      UnderLess(m, free, 0);
      assert Cut(m[free], 0, 1) == m[free][1..];
      c.PopFits(m, free, Popped(m, free));
    }
  }

  /** Take a node for the free list's kind of record. */
  method Obtain(c: Chat, free: Node) returns (n: Node)
    requires c.Sound()
    requires c.IsPool(free)
    modifies c`lists, Nodes(c.lists)
    ensures c.Sound()
    ensures c.lists == Popped(old(c.lists), free)
    ensures Spare(old(c.lists), free, n) && (n in old(Nodes(c.lists)) || fresh(n))
    ensures n !in c.lists && n !in Under(c.lists) && n.below == null
  {
    n := c.Take(free);
  }

  lemma ListIsDistinct(c: Chat, o: Node)
    requires Level(c.lists) && o in c.lists
    ensures Distinct(c.lists[o])
  {
    assert Hung(c.lists, o);
  }

  /** Take a node for a record that will have a list of its own. */
  method ObtainOwner(c: Chat, free: Node) returns (n: Node)
    requires c.Sound()
    requires c.IsPool(free)
    modifies c`lists, Nodes(c.lists)
    ensures c.Sound()
    ensures Spare(old(c.lists), free, n) && (n in old(Nodes(c.lists)) || fresh(n))
    ensures n !in old(c.lists) && n !in Under(c.lists)
    ensures c.lists == Popped(old(c.lists), free)[n := []] && Under(c.lists) + {n} == Under(old(c.lists)) + {n}
  {
    ghost var m := c.lists;
    ListIsDistinct(c, free);
    n := Obtain(c, free);
    SpareIsSpare(c, m, free, n);
    c.Own(n);
  }

  /** cedit_create, or a section of the loader: a book in front of the others. */
  method NewBook(c: Chat) returns (n: Node)
    requires c.Sound()
    modifies c`lists, Nodes(c.lists)
    ensures c.Sound()
    ensures Spare(old(c.lists), c.chatkeysFree, n) && (n in old(Nodes(c.lists)) || fresh(n))
    ensures c.lists == WithBook(c, old(c.lists), n) && Under(c.lists) == Under(old(c.lists)) + {n}
  {
    n := ObtainOwner(c, c.chatkeysFree);
    c.Attach(c.chatkeysList, n, 0);
  }

  /** The new branch of the regexp command, or a key line of the loader. */
  method NewKey(c: Chat, b: Node, at: nat) returns (n: Node)
    requires c.Sound()
    requires b in c.lists && !c.IsHead(b) && at <= |c.lists[b]|
    modifies c`lists, Nodes(c.lists)
    ensures c.Sound()
    ensures Spare(old(c.lists), c.ckFree, n) && (n in old(Nodes(c.lists)) || fresh(n))
    ensures c.lists == WithKey(c, old(c.lists), b, at, n) && Under(c.lists) == Under(old(c.lists)) + {n}
  {
    n := ObtainOwner(c, c.ckFree);
    c.Attach(b, n, at);
  }

  /** The new branch of the reply command, or a reply line of the loader. */
  method NewReply(c: Chat, k: Node) returns (n: Node)
    requires c.Sound()
    requires k in c.lists && !c.IsHead(k)
    modifies c`lists, Nodes(c.lists)
    ensures c.Sound()
    ensures Spare(old(c.lists), c.replyFree, n) && (n in old(Nodes(c.lists)) || fresh(n))
    ensures c.lists == WithReply(c, old(c.lists), k, n) && Under(c.lists) == Under(old(c.lists)) + {n}
  {
    ghost var m := c.lists;
    ListIsDistinct(c, c.replyFree);
    n := Obtain(c, c.replyFree);
    SpareIsSpare(c, m, c.replyFree, n);
    c.Attach(k, n, 0);
  }

  /** The delete branch of the reply command. */
  method DeleteReply(c: Chat, k: Node, at: nat)
    requires c.Sound()
    requires OwnsReplies(c.lists, k) && !c.IsHead(k) && at < |c.lists[k]|
    modifies c`lists, Nodes(c.lists)
    ensures c.Sound()
    ensures c.lists == WithoutReply(c, old(c.lists), k, at) && Under(c.lists) == Under(old(c.lists))
  {
    ghost var n := c.lists[k][at];
    assert n in Under(c.lists);
    var r := c.Detach(k, at);
    c.Give(c.replyFree, r);
  }

  /** The delete branch of the regexp command. */
  method DeleteKey(c: Chat, b: Node, at: nat)
    requires c.Sound()
    requires OwnsKeys(c.lists, b) && !c.IsHead(b) && at < |c.lists[b]| && b !in c.lists[b]
    modifies c`lists, Nodes(c.lists)
    ensures c.Sound()
    ensures c.KeyGone(Without(old(c.lists), b, at), old(c.lists)[b][at], c.lists)
    ensures Under(c.lists) == Under(old(c.lists))
  {
    ghost var m := c.lists;
    ghost var n := m[b][at];
    assert OwnsReplies(m, n) && n in Under(m);
    var k := c.Detach(b, at);
    c.FreeChatkey(k);
  }

  /** cedit_delete */
  method DeleteBook(c: Chat, at: nat)
    requires c.Sound()
    requires Tree(c, c.lists) && at < |c.lists[c.chatkeysList]|
    modifies c`lists, Nodes(c.lists)
    ensures c.Sound()
    ensures c.BookGone(Without(old(c.lists), c.chatkeysList, at), old(c.lists)[c.chatkeysList][at], c.lists)
    ensures Under(c.lists) == Under(old(c.lists))
  {
    ghost var m := c.lists;
    ghost var n := m[c.chatkeysList][at];
    assert OwnsKeys(m, n) && n in Under(m);
    var b := c.Detach(c.chatkeysList, at);
    BookIsReady(c, m, at, c.lists);
    c.FreeChatkeys(b);
  }

  lemma BookIsReady(c: Chat, m: Lists, at: nat, r: Lists)
    requires c.Fits(m) && Tree(c, m) && at < |m[c.chatkeysList]| && r == Without(m, c.chatkeysList, at)
    requires Under(r) == Under(m) - {m[c.chatkeysList][at]}
    ensures c.BookReady(r, m[c.chatkeysList][at])
  {
    var b := m[c.chatkeysList][at];
    assert OwnsKeys(m, b);
    forall k | k in r[b]
      ensures k in r && Idle(r, k)
    {
      assert OwnsReplies(m, k);
    }
  }
}
