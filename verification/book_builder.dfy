/** `getBooks`: grouping the market's orders into one book per token pair. */
module BookBuilder {
  import opened Wrappers
  import opened Orders
  import opened Books

  /** `o` trades the unordered pair {x, y}, in either direction. */
  predicate Trades(o: Order, x: Token, y: Token) {
    (o.buyToken == x && o.sellToken == y) || (o.buyToken == y && o.sellToken == x)
  }

  /** `o` trades the pair of `b`. */
  predicate OfPair(b: Book, o: Order) {
    Trades(o, b.base, b.quote)
  }

  /** Two books are keyed by the same unordered token pair. */
  predicate SamePair(b: Book, c: Book) {
    (b.base == c.base && b.quote == c.quote) || (b.base == c.quote && b.quote == c.base)
  }

  /** Reference definition of a book's bids: the orders of `s` that buy
      `base` for `quote`, in input order. */
  function BidsFor(s: seq<Order>, base: Token, quote: Token): (r: seq<Order>)
    ensures forall o :: o in r ==> o in s && o.buyToken == base && o.sellToken == quote
  {
    if |s| == 0 then []
    else
      var o := s[|s| - 1];
      BidsFor(s[..|s| - 1], base, quote) + (if o.buyToken == base && o.sellToken == quote then [o] else [])
  }

  /** Reference definition of a book's asks: the orders of `s` that buy
      `quote` for `base`, in input order, when the two tokens differ. */
  function AsksFor(s: seq<Order>, base: Token, quote: Token): (r: seq<Order>)
    ensures forall o :: o in r ==> o in s && o.buyToken == quote && o.sellToken == base && base != quote
  {
    if |s| == 0 then []
    else
      var o := s[|s| - 1];
      AsksFor(s[..|s| - 1], base, quote)
        + (if o.buyToken == quote && o.sellToken == base && base != quote then [o] else [])
  }

  /** The first order of `s` that trades the pair {x, y}, in either direction. */
  function FirstOfPair(s: seq<Order>, x: Token, y: Token): (r: Option<Order>)
    ensures r.Some? ==> r.value in s && Trades(r.value, x, y)
  {
    if |s| == 0 then None
    else
      var f := FirstOfPair(s[..|s| - 1], x, y);
      if f.Some? then f
      else if Trades(s[|s| - 1], x, y) then Some(s[|s| - 1])
      else None
  }

  /** The position of the book keyed by the ordered pair (base, quote), as the
      Go map keyed by the two addresses' concatenation finds it. */
  function Lookup(books: seq<Book>, base: Token, quote: Token): (r: Option<nat>)
    ensures r.Some? ==> r.value < |books| && books[r.value].base == base && books[r.value].quote == quote
    ensures r.None? ==> forall i :: 0 <= i < |books| ==> !(books[i].base == base && books[i].quote == quote)
  {
    if |books| == 0 then None
    else if books[|books| - 1].base == base && books[|books| - 1].quote == quote then Some(|books| - 1)
    else Lookup(books[..|books| - 1], base, quote)
  }

  /** One iteration of the grouping loop: the order joins the book of its
      pair as a bid, else the book of the reversed pair as an ask, else it
      opens a new book oriented as (buyToken, sellToken). */
  function Place(books: seq<Book>, o: Order): (r: seq<Book>)
    ensures |r| == |books| || |r| == |books| + 1
    ensures |r| == |books| + 1 <==> forall i :: 0 <= i < |books| ==> !OfPair(books[i], o)
    ensures |r| == |books| + 1 ==> r[|books|] == Book(o.buyToken, o.sellToken, [o], [])
    ensures forall i :: 0 <= i < |books| ==>
      && r[i].base == books[i].base && r[i].quote == books[i].quote
      && books[i].bids <= r[i].bids && books[i].asks <= r[i].asks
  {
    match Lookup(books, o.buyToken, o.sellToken)
    case Some(i) => books[i := AddBid(books[i], o)]
    case None =>
      match Lookup(books, o.sellToken, o.buyToken)
      case Some(i) => books[i := AddAsk(books[i], o)]
      case None => books + [AddBid(Empty(o.buyToken, o.sellToken), o)]
  }

  /** The books after grouping all of `orders`, in the order their pairs
      were first seen. */
  function Build(orders: seq<Order>): (r: seq<Book>)
    ensures |r| <= |orders|
    ensures forall i :: 0 <= i < |r| ==> |r[i].bids| > 0
  {
    if |orders| == 0 then []
    else Place(Build(orders[..|orders| - 1]), orders[|orders| - 1])
  }

  /** No two books share an unordered token pair: the key map never holds
      both (A, B) and (B, A). */
  predicate KeysDisjoint(books: seq<Book>) {
    forall i, j {:trigger SamePair(books[i], books[j])} ::
      0 <= i < |books| && 0 <= j < |books| && i != j ==> !SamePair(books[i], books[j])
  }

  /** `b` holds exactly the orders of `orders` oriented as its bids and asks. */
  predicate SidesOf(orders: seq<Order>, b: Book) {
    && b.bids == BidsFor(orders, b.base, b.quote)
    && b.asks == AsksFor(orders, b.base, b.quote)
  }

  /** `b` is oriented by the first order of `orders` seen for its pair. */
  predicate OrientedByFirst(orders: seq<Order>, b: Book) {
    var f := FirstOfPair(orders, b.base, b.quote);
    f.Some? && f.value.buyToken == b.base && f.value.sellToken == b.quote
  }

  predicate SidesMatch(orders: seq<Order>, books: seq<Book>) {
    forall i {:trigger SidesOf(orders, books[i])} :: 0 <= i < |books| ==> SidesOf(orders, books[i])
  }

  /** Some book trades the pair of `o`. */
  predicate HasBook(books: seq<Book>, o: Order) {
    exists i :: 0 <= i < |books| && OfPair(books[i], o)
  }

  /** Every order trades the pair of some book. */
  predicate Covered(orders: seq<Order>, books: seq<Book>) {
    forall k :: 0 <= k < |orders| ==> HasBook(books, orders[k])
  }

  predicate FirstSeenOrientation(orders: seq<Order>, books: seq<Book>) {
    forall i {:trigger OrientedByFirst(orders, books[i])} :: 0 <= i < |books| ==> OrientedByFirst(orders, books[i])
  }

  /** The complete characterisation of the grouping of `orders` into `books`. */
  predicate Grouped(orders: seq<Order>, books: seq<Book>) {
    && KeysDisjoint(books)
    && SidesMatch(orders, books)
    && Covered(orders, books)
    && FirstSeenOrientation(orders, books)
  }

  lemma AppendFacts(s: seq<Order>, o: Order, base: Token, quote: Token)
    ensures BidsFor(s + [o], base, quote)
      == BidsFor(s, base, quote) + (if o.buyToken == base && o.sellToken == quote then [o] else [])
    ensures AsksFor(s + [o], base, quote)
      == AsksFor(s, base, quote) + (if o.buyToken == quote && o.sellToken == base && base != quote then [o] else [])
    ensures FirstOfPair(s + [o], base, quote)
      == (if FirstOfPair(s, base, quote).Some? then FirstOfPair(s, base, quote)
          else if Trades(o, base, quote) then Some(o) else None)
  {
  }

  lemma {:induction false} BidsForNone(s: seq<Order>, base: Token, quote: Token)
    requires forall k :: 0 <= k < |s| ==> !(s[k].buyToken == base && s[k].sellToken == quote)
    ensures BidsFor(s, base, quote) == []
    decreases |s|
  {
    if |s| > 0 {
      BidsForNone(s[..|s| - 1], base, quote);
    }
  }

  lemma {:induction false} AsksForNone(s: seq<Order>, base: Token, quote: Token)
    requires forall k :: 0 <= k < |s| ==> !(s[k].buyToken == quote && s[k].sellToken == base)
    ensures AsksFor(s, base, quote) == []
    decreases |s|
  {
    if |s| > 0 {
      AsksForNone(s[..|s| - 1], base, quote);
    }
  }

  lemma FirstOfPairNone(s: seq<Order>, x: Token, y: Token)
    requires forall k :: 0 <= k < |s| ==> !Trades(s[k], x, y)
    ensures FirstOfPair(s, x, y) == None
  {
  }

  /** A book the new order does not trade keeps its characterisation. */
  lemma UnrelatedBookKept(orders: seq<Order>, b: Book, o: Order)
    requires SidesOf(orders, b) && OrientedByFirst(orders, b) && !OfPair(b, o)
    ensures SidesOf(orders + [o], b) && OrientedByFirst(orders + [o], b)
  {
  }

  /** Books other than `i` do not trade the pair of book `i`. */
  lemma OnlyBookOfPair(books: seq<Book>, i: nat, o: Order)
    requires KeysDisjoint(books) && i < |books| && OfPair(books[i], o)
    ensures forall j :: 0 <= j < |books| && j != i ==> !OfPair(books[j], o)
  {
    forall j | 0 <= j < |books| && j != i ensures !OfPair(books[j], o) {
      assert !SamePair(books[i], books[j]);
    }
  }

  /** Replacing a book by one with the same key keeps the keys disjoint. */
  lemma SameKeysDisjoint(books: seq<Book>, i: nat, nb: Book)
    requires KeysDisjoint(books) && i < |books|
    requires nb.base == books[i].base && nb.quote == books[i].quote
    ensures KeysDisjoint(books[i := nb])
  {
    var books' := books[i := nb];
    forall j, k | 0 <= j < |books'| && 0 <= k < |books'| && j != k
      ensures !SamePair(books'[j], books'[k])
    {
      assert !SamePair(books[j], books[k]);
    }
  }

  /** The case where the order joins an existing book, as a bid or as an ask. */
  lemma PlaceIntoExisting(orders: seq<Order>, books: seq<Book>, o: Order, i: nat, nb: Book)
    requires Grouped(orders, books) && i < |books| && OfPair(books[i], o)
    requires nb.base == books[i].base && nb.quote == books[i].quote
    requires SidesOf(orders + [o], nb)
    ensures Grouped(orders + [o], books[i := nb])
  {
    var s := orders + [o];
    var books' := books[i := nb];
    SameKeysDisjoint(books, i, nb);
    assert SidesMatch(s, books') && FirstSeenOrientation(s, books') by {
      AppendFacts(orders, o, nb.base, nb.quote);
      OnlyBookOfPair(books, i, o);
      forall j | 0 <= j < |books'|
        ensures SidesOf(s, books'[j]) && OrientedByFirst(s, books'[j])
      {
        if j != i {
          UnrelatedBookKept(orders, books[j], o);
        } else {
          assert OrientedByFirst(orders, books[i]);
        }
      }
    }
    assert Covered(s, books') by {
      forall k | 0 <= k < |s| ensures HasBook(books', s[k]) {
        if k < |orders| {
          assert s[k] == orders[k];
          assert HasBook(books, orders[k]);
          var j :| 0 <= j < |books| && OfPair(books[j], orders[k]);
          assert OfPair(books'[j], s[k]);
        } else {
          assert OfPair(books'[i], s[k]);
        }
      }
    }
  }

  /** The case where the order opens a new book for its pair. */
  lemma PlaceIntoNew(orders: seq<Order>, books: seq<Book>, o: Order)
    requires Grouped(orders, books)
    requires forall j :: 0 <= j < |books| ==> !OfPair(books[j], o)
    ensures Grouped(orders + [o], books + [AddBid(Empty(o.buyToken, o.sellToken), o)])
  {
    var s := orders + [o];
    var n := AddBid(Empty(o.buyToken, o.sellToken), o);
    var books' := books + [n];
    assert forall k :: 0 <= k < |orders| ==> !OfPair(n, orders[k]) by {
      forall k | 0 <= k < |orders| ensures !OfPair(n, orders[k]) {
        var j :| 0 <= j < |books| && OfPair(books[j], orders[k]);
        assert !OfPair(books[j], o);
      }
    }
    BidsForNone(orders, n.base, n.quote);
    AsksForNone(orders, n.base, n.quote);
    FirstOfPairNone(orders, n.base, n.quote);
    AppendFacts(orders, o, n.base, n.quote);
    assert SidesOf(s, n) && OrientedByFirst(s, n);
    assert KeysDisjoint(books') by {
      forall j | 0 <= j < |books| ensures !SamePair(books[j], n) {
        assert !OfPair(books[j], o);
      }
    }
    assert SidesMatch(s, books') && FirstSeenOrientation(s, books') by {
      forall j | 0 <= j < |books'|
        ensures SidesOf(s, books'[j]) && OrientedByFirst(s, books'[j])
      {
        if j < |books| {
          UnrelatedBookKept(orders, books[j], o);
        }
      }
    }
    assert Covered(s, books') by {
      forall k | 0 <= k < |s| ensures HasBook(books', s[k]) {
        if k < |orders| {
          assert s[k] == orders[k];
          var j :| 0 <= j < |books| && OfPair(books[j], orders[k]);
          assert OfPair(books'[j], s[k]);
        } else {
          assert OfPair(books'[|books|], s[k]);
        }
      }
    }
  }

  /** Placing one more order keeps the grouping characterisation. */
  lemma PlaceKeepsGrouped(orders: seq<Order>, books: seq<Book>, o: Order)
    requires Grouped(orders, books)
    ensures Grouped(orders + [o], Place(books, o))
  {
    match Lookup(books, o.buyToken, o.sellToken)
    case Some(i) =>
      assert SidesOf(orders, books[i]);
      AppendFacts(orders, o, books[i].base, books[i].quote);
      PlaceIntoExisting(orders, books, o, i, AddBid(books[i], o));
    case None =>
      match Lookup(books, o.sellToken, o.buyToken)
      case Some(i) =>
        assert SidesOf(orders, books[i]);
        AppendFacts(orders, o, books[i].base, books[i].quote);
        PlaceIntoExisting(orders, books, o, i, AddAsk(books[i], o));
      case None =>
        PlaceIntoNew(orders, books, o);
  }

  /** The books built from any order sequence satisfy the characterisation. */
  lemma {:induction false} BuildGrouped(orders: seq<Order>)
    ensures Grouped(orders, Build(orders))
    decreases |orders|
  {
    if |orders| > 0 {
      var n := |orders| - 1;
      var prefix, last := orders[..n], orders[n];
      assert prefix + [last] == orders;
      assert Build(orders) == Place(Build(prefix), last);
      BuildGrouped(prefix);
      PlaceKeepsGrouped(prefix, Build(prefix), last);
    }
  }

  /** All orders held by a book, on either side. */
  function BookContents(b: Book): multiset<Order> {
    multiset(b.bids) + multiset(b.asks)
  }

  /** All orders held by a sequence of books. */
  function Contents(books: seq<Book>): multiset<Order> {
    if |books| == 0 then multiset{}
    else Contents(books[..|books| - 1]) + BookContents(books[|books| - 1])
  }

  /** The number of bids plus asks across all books. */
  function TotalOrders(books: seq<Book>): nat {
    if |books| == 0 then 0
    else TotalOrders(books[..|books| - 1]) + |books[|books| - 1].bids| + |books[|books| - 1].asks|
  }

  /** Every book is oriented and holds only orders of `orders`. */
  predicate OrientedFrom(orders: seq<Order>, books: seq<Book>) {
    forall i :: 0 <= i < |books| ==>
      && Oriented(books[i])
      && (forall o :: o in books[i].bids ==> o in orders)
      && (forall o :: o in books[i].asks ==> o in orders)
  }

  lemma {:induction false} ContentsUpdate(books: seq<Book>, i: nat, nb: Book, d: multiset<Order>)
    requires i < |books|
    requires BookContents(nb) == BookContents(books[i]) + d
    ensures Contents(books[i := nb]) == Contents(books) + d
    decreases |books|
  {
    var n := |books| - 1;
    var books' := books[i := nb];
    if i == n {
      assert books'[..n] == books[..n];
    } else {
      var front := books[..n];
      assert books'[..n] == front[i := nb];
      assert front[i] == books[i];
      assert books'[n] == books[n];
      ContentsUpdate(front, i, nb, d);
    }
  }

  lemma {:induction false} ContentsSize(books: seq<Book>)
    ensures |Contents(books)| == TotalOrders(books)
    decreases |books|
  {
    if |books| > 0 {
      ContentsSize(books[..|books| - 1]);
    }
  }

  /** Placing an order adds exactly that order to the books' contents. */
  lemma PlaceAddsOrder(books: seq<Book>, o: Order)
    ensures Contents(Place(books, o)) == Contents(books) + multiset{o}
  {
    match Lookup(books, o.buyToken, o.sellToken)
    case Some(i) =>
      assert Place(books, o) == books[i := AddBid(books[i], o)];
      assert BookContents(AddBid(books[i], o)) == BookContents(books[i]) + multiset{o};
      ContentsUpdate(books, i, AddBid(books[i], o), multiset{o});
    case None =>
      match Lookup(books, o.sellToken, o.buyToken)
      case Some(i) =>
        assert Place(books, o) == books[i := AddAsk(books[i], o)];
        assert BookContents(AddAsk(books[i], o)) == BookContents(books[i]) + multiset{o};
        ContentsUpdate(books, i, AddAsk(books[i], o), multiset{o});
      case None =>
        var n := AddBid(Empty(o.buyToken, o.sellToken), o);
        var books' := books + [n];
        assert Place(books, o) == books';
        assert books'[..|books|] == books;
        assert BookContents(n) == multiset{o};
  }

  /** Every input order lands in exactly one book on exactly one side: the
      books hold the input orders with their multiplicities. */
  lemma {:induction false} BuildKeepsEveryOrder(orders: seq<Order>)
    ensures Contents(Build(orders)) == multiset(orders)
    ensures TotalOrders(Build(orders)) == |orders|
    decreases |orders|
  {
    if |orders| > 0 {
      var n := |orders| - 1;
      var prefix, last := orders[..n], orders[n];
      assert prefix + [last] == orders;
      assert Build(orders) == Place(Build(prefix), last);
      BuildKeepsEveryOrder(prefix);
      PlaceAddsOrder(Build(prefix), last);
    }
    ContentsSize(Build(orders));
  }

  /** The grouping characterisation fixes every order's orientation in its book. */
  lemma GroupedIsOriented(orders: seq<Order>, books: seq<Book>)
    requires Grouped(orders, books)
    ensures OrientedFrom(orders, books)
  {
    forall i | 0 <= i < |books|
      ensures Oriented(books[i])
      ensures forall o :: o in books[i].bids ==> o in orders
      ensures forall o :: o in books[i].asks ==> o in orders
    {
      assert SidesOf(orders, books[i]);
    }
  }

  /** `getBooks`: fails exactly when the market fails to deliver its orders;
      otherwise groups every order into the book of its pair. */
  function GetBooks(market: Result<seq<Order>, string>): (r: Result<seq<Book>, string>)
    ensures r.Failure? <==> market.Failure?
    ensures market.Success? ==>
      && Grouped(market.value, r.value)
      && OrientedFrom(market.value, r.value)
      && Contents(r.value) == multiset(market.value)
      && TotalOrders(r.value) == |market.value|
  {
    match market
    case Failure(e) => Failure("could not retrieve orders from market (" + e + ")")
    case Success(orders) =>
      BuildGrouped(orders);
      BuildKeepsEveryOrder(orders);
      GroupedIsOriented(orders, Build(orders));
      Success(Build(orders))
  }
}
