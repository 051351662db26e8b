/**
 What the commands mean: the linked books with their free lists behave as nested sequences,
 whatever was made and deleted before.
 */
module ChatRuns {
  import opened Seqs
  import opened ChatLists
  import opened ChatBooks
  import opened ChatEditor

  // ----- books as values

  datatype Key = Key(node: Node, replies: seq<Node>)

  datatype Book = Book(node: Node, keys: seq<Key>)

  ghost function Get(m: Lists, o: Node): seq<Node> { if o in m then m[o] else [] }

  ghost function KeyOf(m: Lists, k: Node): Key { Key(k, Get(m, k)) }

  ghost function BookOf(m: Lists, b: Node): Book {
    Book(b, seq(|Get(m, b)|, j requires 0 <= j < |Get(m, b)| => KeyOf(m, Get(m, b)[j])))
  }

  ghost function Library(c: Chat, m: Lists): seq<Book> {
    seq(|Books(c, m)|, i requires 0 <= i < |Books(c, m)| => BookOf(m, Books(c, m)[i]))
  }

  /** A command; positions count from 0 as in the editor. */
  datatype Op =
    | AddBook
    | AddKey(book: nat, at: nat)
    | AddReply(book: nat, key: nat)
    | DropReply(book: nat, key: nat, at: nat)
    | DropKey(book: nat, at: nat)
    | DropBook(at: nat)

  /** The command names something that is there. */
  predicate Legal(v: seq<Book>, op: Op) {
    match op
    case AddBook => true
    case AddKey(i, at) => i < |v| && at <= |v[i].keys|
    case AddReply(i, j) => i < |v| && j < |v[i].keys|
    case DropReply(i, j, at) => i < |v| && j < |v[i].keys| && at < |v[i].keys[j].replies|
    case DropKey(i, at) => i < |v| && at < |v[i].keys|
    case DropBook(at) => at < |v|
  }

  predicate Adds(op: Op) { op.AddBook? || op.AddKey? || op.AddReply? }

  function WithKeys(v: seq<Book>, i: nat, keys: seq<Key>): seq<Book>
    requires i < |v|
  {
    v[i := v[i].(keys := keys)]
  }

  function WithReplies(v: seq<Book>, i: nat, j: nat, replies: seq<Node>): seq<Book>
    requires i < |v| && j < |v[i].keys|
  {
    WithKeys(v, i, v[i].keys[j := v[i].keys[j].(replies := replies)])
  }

  /** The command on nested sequences; n is the record it adds, if it adds one. */
  function Edited(v: seq<Book>, op: Op, n: Node?): seq<Book> {
    if !Legal(v, op) || (Adds(op) && n == null) then v else
    match op
    case AddBook => Inserted(v, 0, Book(n, []))
    case AddKey(i, at) => WithKeys(v, i, Inserted(v[i].keys, at, Key(n, [])))
    case AddReply(i, j) => WithReplies(v, i, j, Inserted(v[i].keys[j].replies, 0, n))
    case DropReply(i, j, at) => WithReplies(v, i, j, Cut(v[i].keys[j].replies, at, at + 1))
    case DropKey(i, at) => WithKeys(v, i, Cut(v[i].keys, at, at + 1))
    case DropBook(at) => Cut(v, at, at + 1)
  }

  // ----- the lists of a tree

  /** The lists of a sound tree of books. */
  ghost predicate World(c: Chat, m: Lists) {
    && c.Fits(m) && Apart(m) && Tree(c, m)
    && forall o | o in m :: Distinct(m[o])
  }

  lemma BookFacts(c: Chat, m: Lists, b: Node)
    requires World(c, m) && b in Books(c, m)
    ensures b in m && !c.IsHead(b)
  {
    assert OwnsKeys(m, b);
  }

  lemma KeyFacts(c: Chat, m: Lists, b: Node, k: Node)
    requires World(c, m) && b in Books(c, m) && b in m && k in m[b]
    ensures k in m && Idle(m, k) && !c.IsHead(k) && k !in Books(c, m)
    ensures forall a | a in Books(c, m) && a in m && a != b :: k !in m[a]
  {
    assert OwnsKeys(m, b) && OwnsReplies(m, k);
    KeyIsNoBook(c, m, b, k);
    forall a | a in Books(c, m) && a in m && a != b
      ensures k !in m[a]
    {
      assert ApartAt(m, a, b);
    }
  }

  lemma TreeWithoutKey(c: Chat, m: Lists, b: Node, at: nat, r: Lists)
    requires World(c, m) && b in Books(c, m) && b in m && at < |m[b]|
    requires c.KeyGone(Without(m, b, at), m[b][at], r)
    ensures Tree(c, r)
  {
    var k := m[b][at];
    BookFacts(c, m, b);
    KeyFacts(c, m, b, k);
    CutElements(m[b], at);
    forall a | a in Books(c, r)
      ensures OwnsKeys(r, a)
    {
      BookFacts(c, m, a);
      forall j | j in r[a]
        ensures OwnsReplies(r, j)
      {
        KeyFacts(c, m, a, j);
      }
    }
    forall o | o in r && !c.IsHead(o) && o !in Books(c, r)
      ensures IsKey(c, r, o)
    {
      assert IsKey(c, m, o);
      var a: Node :| a in Books(c, m) && a in m && o in m[a];
      BookFacts(c, m, a);
      assert a in Books(c, r) && a in r && o in r[a];
    }
  }

  lemma TreeWithoutBook(c: Chat, m: Lists, at: nat, r: Lists)
    requires World(c, m) && at < |Books(c, m)|
    requires c.BookGone(Without(m, c.chatkeysList, at), Books(c, m)[at], r)
    ensures Tree(c, r)
  {
    var b := Books(c, m)[at];
    BookFacts(c, m, b);
    CutElements(Books(c, m), at);
    forall a | a in Books(c, r)
      ensures OwnsKeys(r, a)
    {
      BookFacts(c, m, a);
      assert ApartAt(m, c.chatkeysList, b);
      forall j | j in r[a]
        ensures OwnsReplies(r, j)
      {
        KeyFacts(c, m, a, j);
      }
    }
    forall o | o in r && !c.IsHead(o) && o !in Books(c, r)
      ensures IsKey(c, r, o)
    {
      assert IsKey(c, m, o);
      var a: Node :| a in Books(c, m) && a in m && o in m[a];
      BookFacts(c, m, a);
      assert ApartAt(m, c.chatkeysList, b);
      assert a in Books(c, r) && a in r && o in r[a];
    }
  }

  // ----- each command on the nested sequences

  lemma SameBook(m: Lists, r: Lists, b: Node)
    requires Get(r, b) == Get(m, b) && forall k | k in Get(m, b) :: Get(r, k) == Get(m, k)
    ensures BookOf(r, b) == BookOf(m, b)
  {
    assert BookOf(r, b).keys == BookOf(m, b).keys;
  }

  /** Only the book at position i has changed. */
  lemma OneBook(c: Chat, m: Lists, r: Lists, i: nat)
    requires World(c, m) && Books(c, r) == Books(c, m) && i < |Books(c, m)|
    requires forall a | a in Books(c, m) && a != Books(c, m)[i] :: BookOf(r, a) == BookOf(m, a)
    ensures Library(c, r) == WithKeys(Library(c, m), i, BookOf(r, Books(c, m)[i]).keys)
  {
    var s := Books(c, m);
    assert c.chatkeysList in m && Distinct(s);
  }

  lemma LibraryWithPool(c: Chat, m: Lists, free: Node, s: seq<Node>)
    requires World(c, m) && c.IsPool(free)
    ensures Library(c, m[free := s]) == Library(c, m)
  {
    var r := m[free := s];
    assert c.Fits(m) && Books(c, r) == Books(c, m);
    forall b | b in Books(c, m)
      ensures BookOf(r, b) == BookOf(m, b)
    {
      BookFacts(c, m, b);
      forall k | k in m[b]
        ensures Get(r, k) == Get(m, k)
      {
        KeyFacts(c, m, b, k);
      }
      SameBook(m, r, b);
    }
  }

  lemma LibraryWithBook(c: Chat, m: Lists, n: Node)
    requires World(c, m) && n !in m && n !in Under(m)
    ensures Library(c, m[n := []][c.chatkeysList := Inserted(Books(c, m), 0, n)])
         == Inserted(Library(c, m), 0, Book(n, []))
  {
    var r := m[n := []][c.chatkeysList := Inserted(Books(c, m), 0, n)];
    assert c.Fits(m);
    forall b | b in Books(c, m)
      ensures BookOf(r, b) == BookOf(m, b)
    {
      BookFacts(c, m, b);
      forall k | k in m[b]
        ensures Get(r, k) == Get(m, k)
      {
        KeyFacts(c, m, b, k);
      }
      SameBook(m, r, b);
    }
    assert BookOf(r, n) == Book(n, []);
  }

  /** The lists in use are as they were, but for those of some owners. */
  ghost predicate KeptBut(c: Chat, m: Lists, r: Lists, gone: set<Node>) {
    forall o | o in m && !c.IsPool(o) && o !in gone :: o in r && r[o] == m[o]
  }

  /** A book that is kept together with its keys. */
  lemma BookKept(c: Chat, m: Lists, r: Lists, gone: set<Node>, a: Node)
    requires World(c, m) && KeptBut(c, m, r, gone) && a in Books(c, m) && a in m && a !in gone
    requires forall k | k in m[a] :: k !in gone
    ensures BookOf(r, a) == BookOf(m, a)
  {
    BookFacts(c, m, a);
    forall k | k in m[a]
      ensures Get(r, k) == Get(m, k)
    {
      KeyFacts(c, m, a, k);
    }
    SameBook(m, r, a);
  }

  lemma KeyInserted(m: Lists, r: Lists, b: Node, at: nat, n: Node)
    requires at <= |Get(m, b)| && Get(r, b) == Inserted(Get(m, b), at, n) && Get(r, n) == []
    requires forall k | k in Get(m, b) :: Get(r, k) == Get(m, k)
    ensures BookOf(r, b).keys == Inserted(BookOf(m, b).keys, at, Key(n, []))
  {
  }

  lemma LibraryWithKey(c: Chat, m: Lists, i: nat, at: nat, n: Node)
    requires World(c, m) && i < |Books(c, m)| && Books(c, m)[i] in m && at <= |m[Books(c, m)[i]]|
    requires n !in m && n !in Under(m)
    ensures var b := Books(c, m)[i];
            var keys := Inserted(BookOf(m, b).keys, at, Key(n, []));
            Library(c, m[n := []][b := Inserted(m[b], at, n)]) == WithKeys(Library(c, m), i, keys)
  {
    var b := Books(c, m)[i];
    var r := m[n := []][b := Inserted(m[b], at, n)];
    BookFacts(c, m, b);
    assert KeptBut(c, m, r, {b}) && c.Fits(m);
    forall a | a in Books(c, m) && a != b
      ensures BookOf(r, a) == BookOf(m, a)
    {
      BookFacts(c, m, a);
      forall k | k in m[a]
        ensures k != b
      {
        KeyFacts(c, m, a, k);
      }
      BookKept(c, m, r, {b}, a);
    }
    forall k | k in m[b]
      ensures Get(r, k) == Get(m, k)
    {
      KeyFacts(c, m, b, k);
    }
    KeyInserted(m, r, b, at, n);
    OneBook(c, m, r, i);
  }

  lemma LibraryWithReplies(c: Chat, m: Lists, i: nat, j: nat, s: seq<Node>)
    requires World(c, m) && i < |Books(c, m)| && Books(c, m)[i] in m && j < |m[Books(c, m)[i]]|
    ensures Library(c, m[m[Books(c, m)[i]][j] := s]) == WithReplies(Library(c, m), i, j, s)
  {
    var b := Books(c, m)[i];
    var k := m[b][j];
    var r := m[k := s];
    assert c.Fits(m) && Distinct(m[b]);
    BookFacts(c, m, b);
    KeyFacts(c, m, b, k);
    forall a | a in Books(c, m) && a != b
      ensures BookOf(r, a) == BookOf(m, a)
    {
      BookFacts(c, m, a);
      SameBook(m, r, a);
    }
    assert BookOf(r, b).keys == BookOf(m, b).keys[j := Key(k, s)];
    OneBook(c, m, r, i);
  }

  lemma KeyGoneKeeps(c: Chat, m: Lists, b: Node, at: nat, r: Lists)
    requires c.Fits(m) && b in m && at < |m[b]| && m[b][at] != b && !c.IsHead(b)
    requires c.KeyGone(Without(m, b, at), m[b][at], r)
    ensures KeptBut(c, m, r, {b, m[b][at]}) && Get(r, b) == Cut(m[b], at, at + 1)
    ensures Books(c, r) == Books(c, m) || m[b][at] == c.chatkeysList
  {
  }

  lemma KeyCut(m: Lists, r: Lists, b: Node, at: nat)
    requires at < |Get(m, b)| && Distinct(Get(m, b)) && Get(r, b) == Cut(Get(m, b), at, at + 1)
    requires forall k | k in Get(m, b) && k != Get(m, b)[at] :: Get(r, k) == Get(m, k)
    ensures BookOf(r, b).keys == Cut(BookOf(m, b).keys, at, at + 1)
  {
  }

  lemma LibraryWithoutKey(c: Chat, m: Lists, i: nat, at: nat, r: Lists)
    requires World(c, m) && i < |Books(c, m)| && Books(c, m)[i] in m && at < |m[Books(c, m)[i]]|
    requires var b := Books(c, m)[i];
             KeptBut(c, m, r, {b, m[b][at]}) && Get(r, b) == Cut(m[b], at, at + 1) && Books(c, r) == Books(c, m)
    ensures Library(c, r) == Edited(Library(c, m), DropKey(i, at), null)
  {
    var b := Books(c, m)[i];
    var k := m[b][at];
    BookFacts(c, m, b);
    KeyFacts(c, m, b, k);
    forall a | a in Books(c, m) && a != b
      ensures BookOf(r, a) == BookOf(m, a)
    {
      BookFacts(c, m, a);
      forall j | j in m[a]
        ensures j != k && j != b
      {
        KeyFacts(c, m, a, j);
      }
      BookKept(c, m, r, {b, k}, a);
    }
    forall j | j in m[b] && j != k
      ensures Get(r, j) == Get(m, j)
    {
      KeyFacts(c, m, b, j);
    }
    KeyCut(m, r, b, at);
    OneBook(c, m, r, i);
  }

  lemma BookGoneKeeps(c: Chat, m: Lists, at: nat, r: Lists)
    requires World(c, m) && at < |Books(c, m)| && Books(c, m)[at] in m
    requires c.BookGone(Without(m, c.chatkeysList, at), Books(c, m)[at], r)
    ensures Books(c, r) == Cut(Books(c, m), at, at + 1)
    ensures var b := Books(c, m)[at]; KeptBut(c, m, r, {c.chatkeysList, b} + Members(m[b]))
  {
    BookFacts(c, m, Books(c, m)[at]);
  }

  lemma BookCut(c: Chat, m: Lists, r: Lists, at: nat)
    requires at < |Books(c, m)| && Books(c, r) == Cut(Books(c, m), at, at + 1)
    requires forall a | a in Books(c, r) :: BookOf(r, a) == BookOf(m, a)
    ensures Library(c, r) == Cut(Library(c, m), at, at + 1)
  {
  }

  lemma LibraryWithoutBook(c: Chat, m: Lists, at: nat, r: Lists)
    requires World(c, m) && at < |Books(c, m)| && Books(c, m)[at] in m
    requires Books(c, r) == Cut(Books(c, m), at, at + 1)
    requires var b := Books(c, m)[at]; KeptBut(c, m, r, {c.chatkeysList, b} + Members(m[b]))
    ensures Library(c, r) == Cut(Library(c, m), at, at + 1)
  {
    var b := Books(c, m)[at];
    BookFacts(c, m, b);
    CutElements(Books(c, m), at);
    forall a | a in Books(c, r)
      ensures BookOf(r, a) == BookOf(m, a)
    {
      BookFacts(c, m, a);
      assert ApartAt(m, c.chatkeysList, b);
      forall j | j in m[a]
        ensures j !in m[b] && j != b && !c.IsHead(j)
      {
        KeyFacts(c, m, a, j);
      }
      BookKept(c, m, r, {c.chatkeysList, b} + Members(m[b]), a);
    }
    BookCut(c, m, r, at);
  }

  // ----- one command

  /** A sound level of lists, whatever the tree. */
  ghost predicate Flat(c: Chat, m: Lists) {
    && c.Fits(m) && Apart(m)
    && forall o | o in m :: Distinct(m[o])
  }

  lemma SoundIsFlat(c: Chat)
    requires c.Sound()
    ensures Flat(c, c.lists)
  {
    forall o | o in c.lists
      ensures Distinct(c.lists[o])
    {
      ListIsDistinct(c, o);
    }
  }

  /** The command has turned the lists m into r; n is the record it added, or NULL. */
  ghost predicate Became(c: Chat, m: Lists, op: Op, n: Node?, r: Lists) {
    && World(c, r)
    && (n != null <==> Adds(op) && Legal(Library(c, m), op))
    && Library(c, r) == Edited(Library(c, m), op, n)
    && Under(m) <= Under(r)
  }

  lemma PoppedWorld(c: Chat, m: Lists, free: Node, n: Node)
    requires World(c, m) && c.IsPool(free) && free in m && Spare(m, free, n)
    ensures World(c, Popped(m, free)) && Library(c, Popped(m, free)) == Library(c, m)
    ensures n !in Popped(m, free) && n !in Under(Popped(m, free))
    ensures Books(c, Popped(m, free)) == Books(c, m)
  {
    SpareIsSpare(c, m, free, n);
    if m[free] != [] {
      TreeWithPool(c, m, free, m[free][1..]);
      LibraryWithPool(c, m, free, m[free][1..]);
    }
  }

  lemma AddBookMeans(c: Chat, m: Lists, n: Node, r: Lists)
    requires World(c, m) && Flat(c, r) && Spare(m, c.chatkeysFree, n) && r == WithBook(c, m, n)
    requires Under(m) <= Under(r)
    ensures Became(c, m, AddBook, n, r)
  {
    var p := Popped(m, c.chatkeysFree);
    PoppedWorld(c, m, c.chatkeysFree, n);
    TreeWithBook(c, p, n, 0);
    LibraryWithBook(c, p, n);
  }

  lemma AddKeyMeans(c: Chat, m: Lists, i: nat, at: nat, n: Node, r: Lists)
    requires World(c, m) && i < |Books(c, m)| && Books(c, m)[i] in m && at <= |m[Books(c, m)[i]]|
    requires Flat(c, r) && Spare(m, c.ckFree, n) && r == WithKey(c, m, Books(c, m)[i], at, n)
    requires Under(m) <= Under(r)
    ensures Became(c, m, AddKey(i, at), n, r)
  {
    var b := Books(c, m)[i];
    BookFacts(c, m, b);
    var p := Popped(m, c.ckFree);
    PoppedWorld(c, m, c.ckFree, n);
    TreeWithKey(c, p, b, n, at);
    LibraryWithKey(c, p, i, at, n);
  }

  lemma AddReplyMeans(c: Chat, m: Lists, i: nat, j: nat, n: Node, r: Lists)
    requires World(c, m) && i < |Books(c, m)| && Books(c, m)[i] in m && j < |m[Books(c, m)[i]]|
    requires m[Books(c, m)[i]][j] in m
    requires Flat(c, r) && Spare(m, c.replyFree, n) && r == WithReply(c, m, m[Books(c, m)[i]][j], n)
    requires Under(m) <= Under(r)
    ensures Became(c, m, AddReply(i, j), n, r)
  {
    var b := Books(c, m)[i];
    var k := m[b][j];
    BookFacts(c, m, b);
    KeyFacts(c, m, b, k);
    var p := Popped(m, c.replyFree);
    PoppedWorld(c, m, c.replyFree, n);
    var s := Inserted(p[k], 0, n);
    KeyFacts(c, p, b, k);
    TreeWithReplies(c, p, b, k, s);
    LibraryWithReplies(c, p, i, j, s);
  }

  lemma DropReplyMeans(c: Chat, m: Lists, i: nat, j: nat, at: nat, r: Lists)
    requires World(c, m) && i < |Books(c, m)| && Books(c, m)[i] in m && j < |m[Books(c, m)[i]]|
    requires m[Books(c, m)[i]][j] in m && at < |m[m[Books(c, m)[i]][j]]|
    requires Flat(c, r) && r == WithoutReply(c, m, m[Books(c, m)[i]][j], at)
    requires Under(m) <= Under(r)
    ensures Became(c, m, DropReply(i, j, at), null, r)
  {
    var b := Books(c, m)[i];
    var k := m[b][j];
    BookFacts(c, m, b);
    KeyFacts(c, m, b, k);
    var q := Without(m, k, at);
    var given := [m[k][at]] + m[c.replyFree];
    DetachedWorld(c, m, b, k, at);
    LibraryWithReplies(c, m, i, j, q[k]);
    TreeWithPool(c, q, c.replyFree, given);
    LibraryWithPool(c, q, c.replyFree, given);
    assert r == q[c.replyFree := given];
  }

  lemma DetachedWorld(c: Chat, m: Lists, b: Node, k: Node, at: nat)
    requires World(c, m) && b in Books(c, m) && b in m && k in m[b] && k in m && at < |m[k]|
    ensures World(c, Without(m, k, at))
  {
    BookFacts(c, m, b);
    KeyFacts(c, m, b, k);
    UnderLess(m, k, at);
    CutElements(m[k], at);
    CutDistinct(m[k], at, at + 1);
    c.FitsWith(m, k, Without(m, k, at), Cut(m[k], at, at + 1));
    TreeWithReplies(c, m, b, k, Cut(m[k], at, at + 1));
  }

  lemma DropKeyMeans(c: Chat, m: Lists, i: nat, at: nat, r: Lists)
    requires World(c, m) && i < |Books(c, m)| && Books(c, m)[i] in m && at < |m[Books(c, m)[i]]|
    requires Flat(c, r) && c.KeyGone(Without(m, Books(c, m)[i], at), m[Books(c, m)[i]][at], r)
    requires Under(m) <= Under(r)
    ensures Became(c, m, DropKey(i, at), null, r)
  {
    var b := Books(c, m)[i];
    BookFacts(c, m, b);
    KeyFacts(c, m, b, m[b][at]);
    TreeWithoutKey(c, m, b, at, r);
    KeyGoneKeeps(c, m, b, at, r);
    LibraryWithoutKey(c, m, i, at, r);
  }

  lemma DropBookMeans(c: Chat, m: Lists, at: nat, r: Lists)
    requires World(c, m) && at < |Books(c, m)| && Books(c, m)[at] in m
    requires Books(c, r) == Cut(Books(c, m), at, at + 1)
    requires var b := Books(c, m)[at]; KeptBut(c, m, r, {c.chatkeysList, b} + Members(m[b]))
    requires Flat(c, r) && Tree(c, r) && Under(m) <= Under(r)
    ensures Became(c, m, DropBook(at), null, r)
  {
    LibraryWithoutBook(c, m, at, r);
  }

  /** What the walk over books and keys finds is what the command names. */
  lemma LegalMeans(c: Chat, m: Lists, i: nat, j: nat)
    ensures i < |Library(c, m)| <==> ElementAt(Books(c, m), i) != null
    ensures i < |Library(c, m)| ==>
              |Library(c, m)[i].keys| == |Get(m, Books(c, m)[i])| &&
              (j < |Library(c, m)[i].keys| ==>
                |Library(c, m)[i].keys[j].replies| == |Get(m, Get(m, Books(c, m)[i])[j])|)
  {
  }

  lemma Refused(c: Chat, m: Lists, op: Op)
    requires World(c, m) && !Legal(Library(c, m), op)
    ensures Became(c, m, op, null, m)
  {
  }

  /** The editor's book, by its position. */
  method FindBook(c: Chat, i: nat) returns (b: Node?)
    requires c.Sound()
    ensures b == ElementAt(Books(c, c.lists), i)
  {
    assert Hung(c.lists, c.chatkeysList);
    b := Nth(c.chatkeysList.below, i, c.lists[c.chatkeysList]);
  }

  method FindBelow(c: Chat, o: Node, j: nat) returns (k: Node?)
    requires c.Sound()
    requires o in c.lists
    ensures k == ElementAt(c.lists[o], j)
  {
    assert Hung(c.lists, o);
    k := Nth(o.below, j, c.lists[o]);
  }

  method DoAddBook(c: Chat) returns (n: Node?)
    requires c.Sound()
    requires World(c, c.lists)
    modifies c`lists, Nodes(c.lists)
    ensures c.Sound()
    ensures Became(c, old(c.lists), AddBook, n, c.lists)
    ensures fresh(Nodes(c.lists) - old(Nodes(c.lists)))
  {
    ghost var m := c.lists;
    n := NewBook(c);
    SoundIsFlat(c);
    AddBookMeans(c, m, n, c.lists);
  }

  method DoAddKey(c: Chat, i: nat, at: nat) returns (n: Node?)
    requires c.Sound()
    requires World(c, c.lists)
    modifies c`lists, Nodes(c.lists)
    ensures c.Sound()
    ensures Became(c, old(c.lists), AddKey(i, at), n, c.lists)
    ensures fresh(Nodes(c.lists) - old(Nodes(c.lists)))
  {
    ghost var m := c.lists;
    LegalMeans(c, m, i, 0);
    var b := FindPlace(c, i, at);
    if b == null {
      Refused(c, m, AddKey(i, at));
      return null;
    }
    n := NewKey(c, b, at);
    SoundIsFlat(c);
    AddKeyMeans(c, m, i, at, n, c.lists);
  }

  /** The book of a new key, if there is a key in front of the key's place. */
  method FindPlace(c: Chat, i: nat, at: nat) returns (b: Node?)
    requires c.Sound()
    requires World(c, c.lists)
    ensures b == null <==> i >= |Books(c, c.lists)| || at > |Get(c.lists, Books(c, c.lists)[i])|
    ensures b != null ==> b == Books(c, c.lists)[i] && b in c.lists && !c.IsHead(b)
  {
    b := FindBook(c, i);
    if b == null { return; }
    BookFacts(c, c.lists, b);
    if at > 0 {
      var prev := FindBelow(c, b, at - 1);
      if prev == null { b := null; }
    }
  }

  method DoAddReply(c: Chat, i: nat, j: nat) returns (n: Node?)
    requires c.Sound()
    requires World(c, c.lists)
    modifies c`lists, Nodes(c.lists)
    ensures c.Sound()
    ensures Became(c, old(c.lists), AddReply(i, j), n, c.lists)
    ensures fresh(Nodes(c.lists) - old(Nodes(c.lists)))
  {
    ghost var m := c.lists;
    LegalMeans(c, m, i, j);
    var k := FindKey(c, i, j);
    if k == null {
      Refused(c, m, AddReply(i, j));
      return null;
    }
    n := NewReply(c, k);
    SoundIsFlat(c);
    AddReplyMeans(c, m, i, j, n, c.lists);
  }

  /** Key j of book i, if both exist. */
  method FindKey(c: Chat, i: nat, j: nat) returns (k: Node?)
    requires c.Sound()
    requires World(c, c.lists)
    ensures k == null <==> i >= |Books(c, c.lists)| || j >= |Get(c.lists, Books(c, c.lists)[i])|
    ensures k != null ==>
              Books(c, c.lists)[i] in c.lists && k == c.lists[Books(c, c.lists)[i]][j]
              && k in c.lists && Idle(c.lists, k) && !c.IsHead(k)
  {
    var b := FindBook(c, i);
    if b == null { return null; }
    BookFacts(c, c.lists, b);
    k := FindBelow(c, b, j);
    if k != null { KeyFacts(c, c.lists, b, k); }
  }

  /** Key j of book i, if it has a reply at position at. */
  method FindReply(c: Chat, i: nat, j: nat, at: nat) returns (k: Node?)
    requires c.Sound()
    requires World(c, c.lists)
    ensures k == null <==>
              i >= |Books(c, c.lists)| || j >= |Get(c.lists, Books(c, c.lists)[i])|
              || at >= |Get(c.lists, Get(c.lists, Books(c, c.lists)[i])[j])|
    ensures k != null ==>
              Books(c, c.lists)[i] in c.lists && k == c.lists[Books(c, c.lists)[i]][j]
              && k in c.lists && Idle(c.lists, k) && !c.IsHead(k)
  {
    k := FindKey(c, i, j);
    if k != null {
      var r := FindBelow(c, k, at);
      if r == null { k := null; }
    }
  }

  method DoDropReply(c: Chat, i: nat, j: nat, at: nat)
    requires c.Sound()
    requires World(c, c.lists)
    modifies c`lists, Nodes(c.lists)
    ensures c.Sound()
    ensures Became(c, old(c.lists), DropReply(i, j, at), null, c.lists)
    ensures fresh(Nodes(c.lists) - old(Nodes(c.lists)))
  {
    ghost var m := c.lists;
    LegalMeans(c, m, i, j);
    var k := FindReply(c, i, j, at);
    if k == null {
      Refused(c, m, DropReply(i, j, at));
      return;
    }
    DeleteReply(c, k, at);
    SoundIsFlat(c);
    DropReplyMeans(c, m, i, j, at, c.lists);
  }

  method DoDropKey(c: Chat, i: nat, at: nat)
    requires c.Sound()
    requires World(c, c.lists)
    modifies c`lists, Nodes(c.lists)
    ensures c.Sound()
    ensures Became(c, old(c.lists), DropKey(i, at), null, c.lists)
    ensures fresh(Nodes(c.lists) - old(Nodes(c.lists)))
  {
    ghost var m := c.lists;
    LegalMeans(c, m, i, at);
    var k := FindKey(c, i, at);
    if k == null {
      Refused(c, m, DropKey(i, at));
      return;
    }
    var b := FindBook(c, i);
    OwnsItsKeys(c, m, b);
    DeleteKey(c, b, at);
    SoundIsFlat(c);
    DropKeyMeans(c, m, i, at, c.lists);
  }

  lemma OwnsItsKeys(c: Chat, m: Lists, b: Node)
    requires World(c, m) && b in Books(c, m)
    ensures OwnsKeys(m, b) && b in m && !c.IsHead(b) && b !in m[b]
  {
    BookFacts(c, m, b);
    if b in m[b] { KeyFacts(c, m, b, b); }
  }

  method DoDropBook(c: Chat, at: nat)
    requires c.Sound()
    requires World(c, c.lists)
    modifies c`lists, Nodes(c.lists)
    ensures c.Sound()
    ensures Became(c, old(c.lists), DropBook(at), null, c.lists)
    ensures fresh(Nodes(c.lists) - old(Nodes(c.lists)))
  {
    ghost var m := c.lists;
    LegalMeans(c, m, at, 0);
    var b := FindBook(c, at);
    if b == null {
      Refused(c, m, DropBook(at));
      return;
    }
    BookFacts(c, m, b);
    DeleteBook(c, at);
    SoundIsFlat(c);
    TreeWithoutBook(c, m, at, c.lists);
    BookGoneKeeps(c, m, at, c.lists);
    DropBookMeans(c, m, at, c.lists);
  }

  // ----- whole runs

  /** Before the first area file is read. */
  lemma EmptyWorld(c: Chat)
    requires c.Sound()
    requires c.lists == map[c.replyFree := [], c.ckFree := [], c.chatkeysFree := [], c.chatkeysList := []]
    ensures World(c, c.lists) && Library(c, c.lists) == []
  {
    SoundIsFlat(c);
  }

  method Perform(c: Chat, op: Op) returns (n: Node?)
    requires c.Sound()
    requires World(c, c.lists)
    modifies c`lists, Nodes(c.lists)
    ensures c.Sound()
    ensures Became(c, old(c.lists), op, n, c.lists)
    ensures fresh(Nodes(c.lists) - old(Nodes(c.lists)))
  {
    n := null;
    match op {
      case AddBook => n := DoAddBook(c);
      case AddKey(i, at) => n := DoAddKey(c, i, at);
      case AddReply(i, j) => n := DoAddReply(c, i, j);
      case DropReply(i, j, at) => DoDropReply(c, i, j, at);
      case DropKey(i, at) => DoDropKey(c, i, at);
      case DropBook(at) => DoDropBook(c, at);
    }
  }

  /** The nested sequences after a run whose commands added the records ns. */
  function Edits(v: seq<Book>, ops: seq<Op>, ns: seq<Node?>): seq<Book>
    requires |ns| == |ops|
  {
    if ops == [] then v
    else var i := |ops| - 1; Edited(Edits(v, ops[..i], ns[..i]), ops[i], ns[i])
  }

  /** A record was added by just the commands that add one and name a place that is there. */
  ghost predicate Answered(v: seq<Book>, ops: seq<Op>, ns: seq<Node?>)
    requires |ns| == |ops|
  {
    forall i | 0 <= i < |ops| ::
      ns[i] != null <==> Adds(ops[i]) && Legal(Edits(v, ops[..i], ns[..i]), ops[i])
  }

  lemma OneMore(v: seq<Book>, ops: seq<Op>, ns: seq<Node?>, i: nat, n: Node?)
    requires |ns| == i < |ops| && Answered(v, ops[..i], ns)
    requires n != null <==> Adds(ops[i]) && Legal(Edits(v, ops[..i], ns), ops[i])
    ensures Answered(v, ops[..i + 1], ns + [n])
    ensures Edits(v, ops[..i + 1], ns + [n]) == Edited(Edits(v, ops[..i], ns), ops[i], n)
  {
    var s, t := ops[..i + 1], ns + [n];
    forall j | 0 <= j <= i
      ensures s[..j] == ops[..i][..j] && t[..j] == ns[..j]
    {
    }
    assert ops[..i][..i] == ops[..i] && ns[..i] == ns;
  }

  /** From the lists m, commands ops that added the records ns have led to the lists r. */
  ghost predicate Reached(c: Chat, m: Lists, ops: seq<Op>, ns: seq<Node?>, r: Lists) {
    && World(c, r)
    && |ns| == |ops| && Answered(Library(c, m), ops, ns)
    && Library(c, r) == Edits(Library(c, m), ops, ns)
    && Under(m) <= Under(r)
  }

  lemma ReachedNext(c: Chat, m: Lists, ops: seq<Op>, i: nat, ns: seq<Node?>, r: Lists, n: Node?, t: Lists)
    requires i < |ops| && Reached(c, m, ops[..i], ns, r) && Became(c, r, ops[i], n, t)
    ensures Reached(c, m, ops[..i + 1], ns + [n], t)
  {
    OneMore(Library(c, m), ops, ns, i, n);
  }

  /** Any run keeps the tree and the free lists sound and does to them what it does to nested sequences. */
  method Run(c: Chat, ops: seq<Op>) returns (ns: seq<Node?>)
    requires c.Sound()
    requires World(c, c.lists)
    modifies c`lists, Nodes(c.lists)
    ensures c.Sound()
    ensures World(c, c.lists)
    ensures |ns| == |ops| && Answered(Library(c, old(c.lists)), ops, ns)
    ensures Library(c, c.lists) == Edits(Library(c, old(c.lists)), ops, ns)
    ensures Under(old(c.lists)) <= Under(c.lists)
  {
    ghost var m := c.lists;
    ns := [];
    for i := 0 to |ops|
      invariant c.Sound()
      invariant Reached(c, m, ops[..i], ns, c.lists)
      invariant fresh(Nodes(c.lists) - old(Nodes(c.lists)))
    {
      ghost var r := c.lists;
      var n := Perform(c, ops[i]);
      ReachedNext(c, m, ops, i, ns, r, n, c.lists);
      ns := ns + [n];
    }
    assert ops[..|ops|] == ops;
  }

  // ----- every node in one place

  ghost predicate IsFree(c: Chat, m: Lists, n: Node)
    requires c.Fits(m)
  {
    n in m[c.replyFree] || n in m[c.ckFree] || n in m[c.chatkeysFree]
  }

  ghost predicate InKey(k: Key, n: Node) { k.node == n || n in k.replies }

  ghost predicate InBook(b: Book, n: Node) { b.node == n || exists j | 0 <= j < |b.keys| :: InKey(b.keys[j], n) }

  ghost predicate InLibrary(v: seq<Book>, n: Node) { exists i | 0 <= i < |v| :: InBook(v[i], n) }

  /** No node is at two places of the lists. */
  lemma OnePlace(c: Chat, m: Lists, o: Node, i: nat, p: Node, j: nat)
    requires World(c, m) && o in m && i < |m[o]| && p in m && j < |m[p]| && m[o][i] == m[p][j]
    ensures o == p && i == j
  {
    var n := m[o][i];
    assert n in m[o] && n in m[p] && ApartAt(m, o, p) && Distinct(m[o]);
  }

  /** Every node ever handed out is free or in the books, and never both. */
  lemma Accounted(c: Chat, m: Lists, n: Node)
    requires World(c, m)
    ensures n in Under(m) <==> IsFree(c, m, n) || InLibrary(Library(c, m), n)
    ensures !(IsFree(c, m, n) && InLibrary(Library(c, m), n))
  {
    if n in Under(m) && !IsFree(c, m, n) {
      var o: Node :| o in m && n in m[o];
      ListedIsInLibrary(c, m, o, n);
    }
    if InLibrary(Library(c, m), n) { InLibraryIsListed(c, m, n); }
  }

  lemma ListedIsInLibrary(c: Chat, m: Lists, o: Node, n: Node)
    requires World(c, m) && o in m && n in m[o] && !c.IsPool(o)
    ensures InLibrary(Library(c, m), n)
  {
    var v, s := Library(c, m), Books(c, m);
    if o == c.chatkeysList {
      var i :| 0 <= i < |s| && s[i] == n;
      assert InBook(v[i], n);
    } else if o in s {
      var i :| 0 <= i < |s| && s[i] == o;
      var j :| 0 <= j < |m[o]| && m[o][j] == n;
      assert InKey(v[i].keys[j], n);
      assert InBook(v[i], n);
    } else {
      assert IsKey(c, m, o);
      var b: Node :| b in s && b in m && o in m[b];
      var i :| 0 <= i < |s| && s[i] == b;
      var j :| 0 <= j < |m[b]| && m[b][j] == o;
      assert InKey(v[i].keys[j], n);
      assert InBook(v[i], n);
    }
  }

  /** A node in the books is on a list in use, so on no free list. */
  lemma InLibraryIsListed(c: Chat, m: Lists, n: Node)
    requires World(c, m) && InLibrary(Library(c, m), n)
    ensures n in Under(m) && !IsFree(c, m, n)
  {
    var v, s := Library(c, m), Books(c, m);
    var i :| 0 <= i < |v| && InBook(v[i], n);
    BookFacts(c, m, s[i]);
    if v[i].node == n {
      NotFree(c, m, c.chatkeysList, n);
    } else {
      var j :| 0 <= j < |v[i].keys| && InKey(v[i].keys[j], n);
      var k := m[s[i]][j];
      KeyFacts(c, m, s[i], k);
      NotFree(c, m, if k == n then s[i] else k, n);
    }
  }

  lemma NotFree(c: Chat, m: Lists, o: Node, n: Node)
    requires World(c, m) && o in m && !c.IsPool(o) && n in m[o]
    ensures n in Under(m) && !IsFree(c, m, n)
  {
    assert ApartAt(m, o, c.replyFree) && ApartAt(m, o, c.ckFree) && ApartAt(m, o, c.chatkeysFree);
  }

  // ----- where a new record goes

  function WithoutNew(op: Op): Op
    requires Adds(op)
  {
    match op
    case AddBook => DropBook(0)
    case AddKey(i, at) => DropKey(i, at)
    case AddReply(i, j) => DropReply(i, j, 0)
  }

  /** A new book, key or reply is alone at the place given, the front for books and replies: deleting at that place
      takes the addition back. */
  lemma DropUndoesAdd(v: seq<Book>, op: Op, n: Node)
    requires Adds(op) && Legal(v, op)
    ensures Edited(Edited(v, op, n), WithoutNew(op), null) == v
  {
    match op
    case AddBook => InsertedIsCut(v, 0, Book(n, []));
    case AddKey(i, at) =>
      InsertedIsCut(v[i].keys, at, Key(n, []));
    case AddReply(i, j) =>
      var keys, replies := v[i].keys, v[i].keys[j].replies;
      InsertedIsCut(replies, 0, n);
      assert keys[j := keys[j].(replies := Inserted(replies, 0, n))][j := keys[j]] == keys;
  }

  lemma InsertedIsCut<T>(s: seq<T>, k: nat, x: T)
    requires k <= |s|
    ensures Cut(Inserted(s, k, x), k, k + 1) == s && Inserted(s, k, x)[k] == x
  {
  }
}
