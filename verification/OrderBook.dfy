/**
  Matching the orders for one share: bids and offers rest in price-then-arrival order, and a new
  order trades with the best orders of the other side for as long as it can.
 */
module OrderBook {
  import opened Sums

  // ------------------------------------------------------------------ orders

  datatype Action = Buy | Sell | Bid | Offer

  datatype Order = Order(action: Action, size: int, price: int, count: nat, traded: int) {
    predicate IsBid() { action == Bid || action == Buy }

    predicate IsOffer() { action == Offer || action == Sell }

    predicate IsMine() { action == Buy || action == Sell }

    predicate Empty() { size == traded }

    function Remaining(): int { size - traded }

    // The order of a book: the better price first, and among equal prices the earlier arrival.
    predicate Before(rhs: Order) {
      if IsOffer() then price < rhs.price || (price == rhs.price && count < rhs.count)
      else price > rhs.price || (price == rhs.price && count < rhs.count)
    }

    predicate CanTrade(other: Order) {
      if IsBid() && other.IsOffer() then price >= other.price
      else if IsOffer() && other.IsBid() then price <= other.price
      else false
    }

    function Sale(other: Order): int {
      if size <= other.size then size else other.size
    }

    // This order after `other` has traded with it.
    function Hit(other: Order): Order {
      this.(traded := traded + other.Sale(this))
    }

    function Profit(other: Order): int {
      if IsMine() != other.IsMine() then
        Sale(other) * (if price >= other.price then price - other.price else other.price - price)
      else 0
    }
  }

  function Traded(o: Order): int { o.traded }

  // ------------------------------------------------------------------ books

  predicate OneSide(book: seq<Order>) {
    forall i, j :: 0 <= i < |book| && 0 <= j < |book| ==> book[i].IsOffer() == book[j].IsOffer()
  }

  predicate Sorted(book: seq<Order>) {
    OneSide(book) && forall i, j :: 0 <= i < j < |book| ==> book[i].Before(book[j])
  }

  // Inserting in a set ordered by `Before`.
  function Insert(book: seq<Order>, o: Order): (r: seq<Order>) {
    if book == [] || o.Before(book[0]) then [o] + book
    else if book[0].Before(o) then [book[0]] + Insert(book[1..], o)
    else book
  }

  lemma BeforeIsTotalOrder(a: Order, b: Order, c: Order)
    requires a.IsOffer() == b.IsOffer() == c.IsOffer()
    ensures a.Before(b) && b.Before(c) ==> a.Before(c)
    ensures a.count != b.count ==> a.Before(b) || b.Before(a)
  {
  }

  lemma SortedCons(o: Order, book: seq<Order>)
    requires Sorted(book) && forall p <- book :: o.Before(p) && p.IsOffer() == o.IsOffer()
    ensures Sorted([o] + book)
  {
    hide Order.Before, Order.IsOffer;
    assert forall j :: 0 <= j < |book| ==> book[j] in book;
  }

  lemma {:induction false} InsertKeepsOrder(book: seq<Order>, o: Order)
    requires Sorted(book) && forall p <- book :: p.count != o.count && p.IsOffer() == o.IsOffer()
    ensures Sorted(Insert(book, o))
    ensures multiset(Insert(book, o)) == multiset(book) + multiset{o}
  {
    hide Order.Before, Order.IsOffer;
    if book == [] {
      SortedCons(o, book);
    } else if o.Before(book[0]) {
      forall p | p in book ensures o.Before(p) {
        BeforeIsTotalOrder(o, book[0], p);
      }
      SortedCons(o, book);
    } else {
      var rest := book[1..];
      assert book == [book[0]] + rest && book[0] in book;
      BeforeIsTotalOrder(o, book[0], o);
      InsertKeepsOrder(rest, o);
      forall p | p in Insert(rest, o) ensures book[0].Before(p) && p.IsOffer() == book[0].IsOffer() {
        assert p in multiset(rest) + multiset{o};
        if p != o {
          assert p in rest;
        }
      }
      SortedCons(book[0], Insert(rest, o));
    }
  }

  // What an order of this size sells to or buys from the orders of the book, one after the other.
  function Matched(newOrder: Order, book: seq<Order>): int {
    if book == [] then 0 else Matched(newOrder, book[..|book| - 1]) + newOrder.Sale(book[|book| - 1])
  }

  function HitAll(newOrder: Order, book: seq<Order>): seq<Order> {
    seq(|book|, i requires 0 <= i < |book| => book[i].Hit(newOrder))
  }

  // The last hit order goes back into the book if it filled the new one and is not filled itself.
  function Leftover(newOrder: Order, book: seq<Order>, hits: nat): seq<Order>
    requires hits <= |book|
  {
    if hits > 0 && Matched(newOrder, book[..hits]) == newOrder.size && !book[hits - 1].Hit(newOrder).Empty()
    then [book[hits - 1].Hit(newOrder)]
    else []
  }

  // The other hit orders leave the book, whatever they have traded.
  function Leaving(newOrder: Order, book: seq<Order>, hits: nat): (gone: seq<Order>)
    requires hits <= |book|
    ensures gone + Leftover(newOrder, book, hits) == HitAll(newOrder, book[..hits])
  {
    if Leftover(newOrder, book, hits) == [] then HitAll(newOrder, book[..hits])
    else
      assert book[..hits][..hits - 1] == book[..hits - 1];
      HitAll(newOrder, book[..hits - 1])
  }

  // Exactly the first `hits` orders of the book are hit: all can trade; before the last of them the
  // new order is not filled; and after it the new order is filled or the next one cannot trade.
  predicate StopsAfter(newOrder: Order, book: seq<Order>, hits: nat)
    requires hits <= |book|
  {
    && (forall j :: 0 <= j < hits ==> newOrder.CanTrade(book[j]))
    && (forall j :: 0 < j < hits ==> Matched(newOrder, book[..j]) != newOrder.size)
    && ((hits > 0 && Matched(newOrder, book[..hits]) == newOrder.size)
        || hits == |book| || !newOrder.CanTrade(book[hits]))
  }

  // A hit order that goes back into the book goes back to its front.
  lemma GoesBackFirst(newOrder: Order, book: seq<Order>, k: nat)
    requires Sorted(book) && k < |book|
    ensures Insert(book[k + 1..], book[k].Hit(newOrder)) == [book[k].Hit(newOrder)] + book[k + 1..]
  {
  }

  // What an order has traded so far plays no part in what it can trade, and at what profit.
  lemma SameTrades(o: Order, t: int, e: Order)
    ensures o.(traded := t).Profit(e) == o.Profit(e) && o.(traded := t).CanTrade(e) == o.CanTrade(e)
    ensures e.CanTrade(o.(traded := t)) == e.CanTrade(o)
  {
  }

  lemma NothingHit(newOrder: Order)
    ensures Matched(newOrder, []) == 0
  {
  }

  // One more order hit.
  lemma OneMoreHit(newOrder: Order, book: seq<Order>, k: nat)
    requires k < |book|
    ensures Matched(newOrder, book[..k + 1]) == Matched(newOrder, book[..k]) + newOrder.Sale(book[k])
  {
    assert book[..k + 1][..k] == book[..k];
  }

  // The loop over the other side of the book: one trade for each order hit.
  method Match(newOrder: Order, book: seq<Order>)
    returns (order: Order, rest: seq<Order>, trades: seq<int>)
    requires Sorted(book) && newOrder.traded == 0
    ensures |trades| <= |book| && StopsAfter(newOrder, book, |trades|)
    ensures order == newOrder.(traded := Matched(newOrder, book[..|trades|]))
    ensures rest == Leftover(newOrder, book, |trades|) + book[|trades|..]
    ensures forall j :: 0 <= j < |trades| ==> trades[j] == newOrder.Profit(book[j])
  {
    hide Order.Before, Order.CanTrade, Order.Profit, Sorted, Insert, Matched;
    order, rest, trades := newOrder, book, [];
    assert Matched(newOrder, book[..0]) == 0 by {
      NothingHit(newOrder);
    }
    while rest != [] && order.CanTrade(rest[0])
      invariant Sorted(book) && |trades| <= |book| && rest == book[|trades|..]
      invariant order == newOrder.(traded := Matched(newOrder, book[..|trades|]))
      invariant forall j :: 0 <= j < |trades| ==> newOrder.CanTrade(book[j])
      invariant forall j :: 0 < j <= |trades| ==> Matched(newOrder, book[..j]) != newOrder.size
      invariant forall j :: 0 <= j < |trades| ==> trades[j] == newOrder.Profit(book[j])
    {
      var existing := rest[0];
      OneMoreHit(newOrder, book, |trades|);
      GoesBackFirst(newOrder, book, |trades|);
      SameTrades(newOrder, order.traded, existing);
      rest := rest[1..];
      trades := trades + [order.Profit(existing)];
      var sale := order.Sale(existing);
      order := order.(traded := order.traded + sale);
      existing := existing.(traded := existing.traded + sale);
      if order.Empty() {
        if !existing.Empty() {
          rest := Insert(rest, existing);
        }
        break;
      }
    }
    if rest != [] && |trades| < |book| {
      SameTrades(newOrder, order.traded, book[|trades|]);
    }
  }

  // ------------------------------------------------------------------ trading too much

  // Exactly the first `t` orders of the book can trade with the new one.
  predicate Tradeable(newOrder: Order, book: seq<Order>, t: nat)
    requires t <= |book|
  {
    (forall j :: 0 <= j < t ==> newOrder.CanTrade(book[j])) && (t == |book| || !newOrder.CanTrade(book[t]))
  }

  // A sale is the lesser of the two whole sizes, whatever has been traded before. So a new order
  // trades more than its size exactly if the tradeable orders offer more, and nowhere along the
  // way add up to its size.
  lemma OvertradesExactly(newOrder: Order, book: seq<Order>, hits: nat, t: nat)
    requires newOrder.size >= 0 && hits <= |book| && t <= |book|
    requires StopsAfter(newOrder, book, hits) && Tradeable(newOrder, book, t)
    ensures Filled(newOrder, book, hits).traded > newOrder.size
       <==> Matched(newOrder, book[..t]) > newOrder.size
            && forall j :: 0 < j <= t ==> Matched(newOrder, book[..j]) != newOrder.size
  {
    hide Order.CanTrade;
    assert hits <= t;
    if hits > 0 && Matched(newOrder, book[..hits]) == newOrder.size {
    } else {
      assert hits == t;
    }
  }

  // A bid for 10 that meets offers of 4 and of 10 trades 14.
  lemma OvertradingExample()
    ensures var bid, offers := Order(Bid, 10, 5, 2, 0), [Order(Offer, 4, 5, 0, 0), Order(Offer, 10, 5, 1, 0)];
      StopsAfter(bid, offers, 2) && Filled(bid, offers, 2).traded == 14
  {
    var bid, offers := Order(Bid, 10, 5, 2, 0), [Order(Offer, 4, 5, 0, 0), Order(Offer, 10, 5, 1, 0)];
    assert offers[..2] == offers && offers[..1] == [offers[0]];
    assert Matched(bid, offers[..1]) == 4;
    OneMoreHit(bid, offers, 1);
  }

  // ------------------------------------------------------------------ what becomes of a hit order

  // A partly traded order meets one that is larger than what remains of it.
  predicate Oversold(newOrder: Order, e: Order) {
    e.traded > 0 && e.Remaining() < newOrder.size
  }

  // An order behind the first hit one has more left than the new order's whole size.
  predicate Abandoned(newOrder: Order, book: seq<Order>, j: nat)
    requires j < |book|
  {
    j > 0 && book[j].Remaining() > newOrder.size
  }

  predicate GoesBack(newOrder: Order, book: seq<Order>, hits: nat, j: nat)
    requires j < hits <= |book|
  {
    j == hits - 1 && Matched(newOrder, book[..hits]) == newOrder.size && !book[j].Hit(newOrder).Empty()
  }

  lemma {:induction false} MatchedIsPositive(newOrder: Order, book: seq<Order>, j: nat)
    requires newOrder.size > 0 && 0 < j <= |book| && forall e <- book :: e.size > 0
    ensures Matched(newOrder, book[..j]) > 0
  {
    OneMoreHit(newOrder, book, j - 1);
    assert book[j - 1] in book;
    if j > 1 {
      MatchedIsPositive(newOrder, book, j - 1);
    } else {
      NothingHit(newOrder);
    }
  }

  // Behind the first hit order nothing larger than the new one fills it exactly.
  lemma LargeOnesDoNotFill(newOrder: Order, book: seq<Order>, hits: nat, j: nat)
    requires newOrder.size >= 0 && j < hits <= |book| && StopsAfter(newOrder, book, hits)
    requires book[j].size > newOrder.size && forall e <- book :: e.size > 0
    ensures j > 0 <==> Matched(newOrder, book[..j + 1]) != newOrder.size
  {
    hide Matched, Order.CanTrade;
    OneMoreHit(newOrder, book, j);
    if j == 0 {
      NothingHit(newOrder);
    } else if newOrder.size > 0 {
      MatchedIsPositive(newOrder, book, j);
    } else {
      OneMoreHit(newOrder, book, 0);
      NothingHit(newOrder);
      assert book[0] in book;
    }
  }

  // For each hit order: it has then traded more than its size if and only if it is oversold; it
  // leaves the book with less than its size traded if and only if it is abandoned; and it is in the
  // book again if and only if it was the last one, filled the new order and is not filled itself.
  lemma HitOrderFate(newOrder: Order, book: seq<Order>, hits: nat, j: nat)
    requires newOrder.size >= 0 && j < hits <= |book| && StopsAfter(newOrder, book, hits)
    requires forall e <- book :: e.size > 0 && e.traded >= 0
    ensures var e := book[j].Hit(newOrder);
      && (e.traded > e.size <==> Oversold(newOrder, book[j]))
      && (!GoesBack(newOrder, book, hits, j) && e.traded < e.size <==> Abandoned(newOrder, book, j))
      && if GoesBack(newOrder, book, hits, j) then Leftover(newOrder, book, hits) == [e]
         else j < |Leaving(newOrder, book, hits)| && Leaving(newOrder, book, hits)[j] == e
  {
    hide Matched, Order.CanTrade;
    assert book[j] in book;
    if book[j].size > newOrder.size {
      LargeOnesDoNotFill(newOrder, book, hits, j);
    }
  }

  // If nothing in the book had traded too much, something rests that has if and only if the last
  // hit order is oversold and fills the new one exactly.
  lemma OversoldRests(newOrder: Order, book: seq<Order>, hits: nat)
    requires newOrder.size >= 0 && hits <= |book| && StopsAfter(newOrder, book, hits)
    requires forall e <- book :: e.size > 0 && 0 <= e.traded <= e.size
    ensures (exists o <- Rest(newOrder, book, hits) :: o.traded > o.size)
       <==> hits > 0 && Matched(newOrder, book[..hits]) == newOrder.size && Oversold(newOrder, book[hits - 1])
  {
    hide Matched, Order.CanTrade;
    var rest := Rest(newOrder, book, hits);
    forall o | o in book[hits..] ensures o.traded <= o.size {
      assert o in book;
    }
    if hits > 0 {
      HitOrderFate(newOrder, book, hits, hits - 1);
      if Leftover(newOrder, book, hits) != [] {
        assert rest[0] in rest;
      }
    }
  }

  // An offer of 10 that has sold 6 meets a bid for 6, sells 6 again and rests with 12 traded.
  lemma OversoldExample()
    ensures var bid, offers := Order(Bid, 6, 5, 2, 0), [Order(Offer, 10, 5, 0, 6)];
      StopsAfter(bid, offers, 1) && Rest(bid, offers, 1) == [Order(Offer, 10, 5, 0, 12)]
  {
    var bid, offers := Order(Bid, 6, 5, 2, 0), [Order(Offer, 10, 5, 0, 6)];
    assert offers[..1] == offers && Matched(bid, offers[..0]) == 0;
    OneMoreHit(bid, offers, 0);
  }

  // A bid for 10 meets offers of 4 and of 20. The larger offer leaves the book with half of it
  // unsold, and the bid has traded 14 and is to rest.
  lemma AbandonedExample()
    ensures var bid, offers := Order(Bid, 10, 5, 2, 0), [Order(Offer, 4, 5, 0, 0), Order(Offer, 20, 5, 1, 0)];
      && StopsAfter(bid, offers, 2) && Rest(bid, offers, 2) == []
      && Leaving(bid, offers, 2) == [Order(Offer, 4, 5, 0, 4), Order(Offer, 20, 5, 1, 10)]
      && Filled(bid, offers, 2).traded == 14 && !Filled(bid, offers, 2).Empty()
  {
    var bid, offers := Order(Bid, 10, 5, 2, 0), [Order(Offer, 4, 5, 0, 0), Order(Offer, 20, 5, 1, 0)];
    assert offers[..2] == offers && offers[..1] == [offers[0]];
    assert Matched(bid, offers[..1]) == 4;
    OneMoreHit(bid, offers, 1);
  }

  // ------------------------------------------------------------------ what a match keeps

  predicate OnSide(book: seq<Order>, offers: bool) {
    forall o <- book :: o.IsOffer() == offers
  }

  // No order of the one book can trade with one of the other.
  predicate Uncrossed(book: seq<Order>, other: seq<Order>) {
    forall a, b :: a in book && b in other ==> !a.CanTrade(b)
  }

  function Filled(newOrder: Order, other: seq<Order>, hits: nat): Order
    requires hits <= |other|
  {
    newOrder.(traded := Matched(newOrder, other[..hits]))
  }

  function Rest(newOrder: Order, other: seq<Order>, hits: nat): seq<Order>
    requires hits <= |other|
  {
    Leftover(newOrder, other, hits) + other[hits..]
  }

  // Every order of the rest was in the book, but for what it has traded.
  lemma RestIsOfBook(newOrder: Order, other: seq<Order>, hits: nat, o: Order)
    requires hits <= |other| && o in Rest(newOrder, other, hits)
    ensures exists j, t :: 0 <= j < |other| && o == other[j].(traded := t)
  {
    if o in other[hits..] {
      var j :| hits <= j < |other| && other[j] == o;
      assert o == other[j].(traded := o.traded);
    } else {
      assert o == other[hits - 1].(traded := o.traded);
    }
  }

  lemma RestStaysSorted(newOrder: Order, other: seq<Order>, hits: nat)
    requires hits <= |other| && Sorted(other)
    ensures Sorted(Rest(newOrder, other, hits))
  {
    hide Matched;
    if Leftover(newOrder, other, hits) != [] {
      var o := other[hits - 1].Hit(newOrder);
      forall p | p in other[hits..] ensures o.Before(p) && p.IsOffer() == o.IsOffer() {
        var j :| hits <= j < |other| && other[j] == p;
        assert other[hits - 1].Before(other[j]);
      }
      SortedCons(o, other[hits..]);
    } else {
      assert Rest(newOrder, other, hits) == other[hits..];
    }
  }

  // Trading leaves nothing that could trade with the own side.
  lemma RestStaysUncrossed(newOrder: Order, own: seq<Order>, other: seq<Order>, hits: nat)
    requires hits <= |other| && Uncrossed(own, other)
    ensures Uncrossed(own, Rest(newOrder, other, hits))
  {
    hide Matched, Rest, Order.CanTrade;
    forall a, b | a in own && b in Rest(newOrder, other, hits) ensures !a.CanTrade(b) {
      RestIsOfBook(newOrder, other, hits, b);
      var j, t :| 0 <= j < |other| && b == other[j].(traded := t);
      SameTrades(other[j], t, a);
      assert other[j] in other;
    }
  }

  // If an order cannot trade with one of the other side, it cannot with any that comes after that.
  lemma WorseCannotTrade(o: Order, better: Order, worse: Order)
    requires better.Before(worse) && !o.CanTrade(better)
    requires better.IsOffer() == worse.IsOffer() && o.IsOffer() != better.IsOffer()
    ensures !o.CanTrade(worse)
  {
  }

  // So it cannot with any further back in the book.
  lemma NoneBehind(newOrder: Order, book: seq<Order>, k: nat, j: nat)
    requires Sorted(book) && OnSide(book, !newOrder.IsOffer()) && k <= j < |book| && !newOrder.CanTrade(book[k])
    ensures !newOrder.CanTrade(book[j])
  {
    hide Order.Before, Order.CanTrade, Order.IsOffer;
    assert book[k] in book && book[j] in book;
    if k < j {
      WorseCannotTrade(newOrder, book[k], book[j]);
    }
  }

  // An unfilled new order leaves nothing that it could trade with.
  lemma UnfilledIsUncrossed(newOrder: Order, other: seq<Order>, hits: nat)
    requires hits <= |other| && Sorted(other) && StopsAfter(newOrder, other, hits) && newOrder.traded == 0
    requires OnSide(other, !newOrder.IsOffer()) && !Filled(newOrder, other, hits).Empty()
    ensures Uncrossed([Filled(newOrder, other, hits)], Rest(newOrder, other, hits))
  {
    hide Matched, Order.CanTrade, Order.IsOffer, Sorted, OnSide;
    assert Rest(newOrder, other, hits) == other[hits..];
    forall b | b in other[hits..] ensures !Filled(newOrder, other, hits).CanTrade(b) {
      var j :| hits <= j < |other| && other[j] == b;
      NoneBehind(newOrder, other, hits, j);
      SameTrades(newOrder, Matched(newOrder, other[..hits]), b);
    }
  }

  lemma {:induction false} HitAllTrades(newOrder: Order, book: seq<Order>)
    ensures Sum(HitAll(newOrder, book), Traded) == Sum(book, Traded) + Matched(newOrder, book)
  {
    if book != [] {
      var front := book[..|book| - 1];
      HitAllTrades(newOrder, front);
      assert HitAll(newOrder, book)[..|book| - 1] == HitAll(newOrder, front);
    }
  }

  // What the new order trades is what the orders of the other side trade.
  lemma MatchBalances(newOrder: Order, other: seq<Order>, hits: nat)
    requires hits <= |other|
    ensures Sum(Rest(newOrder, other, hits), Traded) + Sum(Leaving(newOrder, other, hits), Traded)
         == Sum(other, Traded) + Filled(newOrder, other, hits).traded
  {
    hide Sum, Matched, HitAll, Leaving;
    var leftover := Leftover(newOrder, other, hits);
    SumOfConcat(leftover, other[hits..], Traded);
    SumOfConcat(Leaving(newOrder, other, hits), leftover, Traded);
    SumOfConcat(other[..hits], other[hits..], Traded);
    assert other == other[..hits] + other[hits..];
    HitAllTrades(newOrder, other[..hits]);
  }

  lemma {:induction false} InsertAdds(book: seq<Order>, o: Order, f: Order -> int)
    requires forall p <- book :: p.count != o.count && p.IsOffer() == o.IsOffer()
    ensures Sum(Insert(book, o), f) == Sum(book, f) + f(o)
  {
    hide Order.Before;
    if book == [] || o.Before(book[0]) {
      SumOfConcat([o], book, f);
      assert Sum([o], f) == f(o);
    } else {
      BeforeIsTotalOrder(o, book[0], o);
      InsertAdds(book[1..], o, f);
      SumOfConcat([book[0]], Insert(book[1..], o), f);
      SumOfConcat([book[0]], book[1..], f);
      assert book == [book[0]] + book[1..];
    }
  }

  // Whether an order is `x`, whatever it has traded.
  function Is(x: Order): Order -> int {
    (o: Order) => if o.(traded := 0) == x.(traded := 0) then 1 else 0
  }

  lemma {:induction false} HitAllStays(newOrder: Order, book: seq<Order>, x: Order)
    ensures Sum(HitAll(newOrder, book), Is(x)) == Sum(book, Is(x))
  {
    if book != [] {
      var front := book[..|book| - 1];
      HitAllStays(newOrder, front, x);
      assert HitAll(newOrder, book)[..|book| - 1] == HitAll(newOrder, front);
    }
  }

  // Each order of the other side is afterwards in the book or among those that left it, once.
  lemma MatchAccounts(newOrder: Order, other: seq<Order>, hits: nat, x: Order)
    requires hits <= |other|
    ensures Sum(Rest(newOrder, other, hits), Is(x)) + Sum(Leaving(newOrder, other, hits), Is(x)) == Sum(other, Is(x))
  {
    hide Sum, Matched, HitAll, Leaving, Is;
    var leftover := Leftover(newOrder, other, hits);
    SumOfConcat(leftover, other[hits..], Is(x));
    SumOfConcat(Leaving(newOrder, other, hits), leftover, Is(x));
    SumOfConcat(other[..hits], other[hits..], Is(x));
    assert other == other[..hits] + other[hits..];
    HitAllStays(newOrder, other[..hits], x);
  }

  // What holds of the two books of a share, and of the orders that have left them: both are in
  // order, no two orders could still trade, no order rests that has traded exactly its size, and the
  // two sides have traded the same quantity.
  ghost predicate Fit(
    own: seq<Order>, other: seq<Order>, goneOwn: seq<Order>, goneOther: seq<Order>, offers: bool, seen: nat)
  {
    && Sorted(own) && OnSide(own, offers) && Sorted(other) && OnSide(other, !offers)
    && OnSide(goneOwn, offers) && OnSide(goneOther, !offers)
    && Uncrossed(own, other)
    && Resting(own, seen) && Resting(other, seen)
    && Sum(own, Traded) + Sum(goneOwn, Traded) == Sum(other, Traded) + Sum(goneOther, Traded)
  }

  predicate Resting(book: seq<Order>, seen: nat) {
    forall o <- book :: o.count < seen && !o.Empty()
  }

  lemma AccountedFromBothSides(
    own: seq<Order>, other: seq<Order>, goneOwn: seq<Order>, goneOther: seq<Order>, submitted: seq<Order>)
    ensures Accounted(own, other, goneOwn, goneOther, submitted)
       <==> Accounted(other, own, goneOther, goneOwn, submitted)
  {
    hide Sum, Is;
    assert forall x :: Places(own, other, goneOwn, goneOther, x) == Places(other, own, goneOther, goneOwn, x);
  }

  lemma FitFromBothSides(
    own: seq<Order>, other: seq<Order>, goneOwn: seq<Order>, goneOther: seq<Order>, offers: bool, seen: nat)
    ensures Fit(own, other, goneOwn, goneOther, offers, seen) <==> Fit(other, own, goneOther, goneOwn, !offers, seen)
    ensures Fit(own, other, goneOwn, goneOther, offers, seen) ==> Sorted(own) && Sorted(other)
  {
    hide Sorted, Sum, Resting;
    assert forall a: Order, b: Order :: a.CanTrade(b) ==> b.CanTrade(a);
  }

  lemma RestStaysResting(newOrder: Order, other: seq<Order>, hits: nat, seen: nat)
    requires hits <= |other| && Resting(other, seen)
    ensures Resting(Rest(newOrder, other, hits), seen)
  {
    hide Matched;
    forall o | o in Rest(newOrder, other, hits) ensures o.count < seen && !o.Empty() {
      if o !in other[hits..] {
        assert o == other[hits - 1].Hit(newOrder) && other[hits - 1] in other;
      }
    }
  }

  // The new order, unless filled, joins its side.
  lemma JoinKeepsFit(
    order: Order, own: seq<Order>, other: seq<Order>, goneOwn: seq<Order>, goneOther: seq<Order>, seen: nat)
    requires Sorted(own) && OnSide(own, order.IsOffer()) && Sorted(other) && OnSide(other, !order.IsOffer())
    requires Uncrossed(own, other) && Resting(own, seen) && Resting(other, seen) && order.count >= seen
    requires OnSide(goneOwn, order.IsOffer()) && OnSide(goneOther, !order.IsOffer())
    requires !order.Empty() ==> Uncrossed([order], other)
    requires Sum(own, Traded) + Sum(goneOwn, Traded) + order.traded == Sum(other, Traded) + Sum(goneOther, Traded)
    ensures if order.Empty()
            then Fit(own, other, goneOwn + [order], goneOther, order.IsOffer(), order.count + 1)
            else Fit(Insert(own, order), other, goneOwn, goneOther, order.IsOffer(), order.count + 1)
  {
    hide Order.Before, Order.CanTrade, Order.IsOffer, Sorted, Insert;
    if order.Empty() {
      SumOfConcat(goneOwn, [order], Traded);
      assert Sum([order], Traded) == order.traded;
    } else {
      InsertKeepsOrder(own, order);
      InsertAdds(own, order, Traded);
      forall o | o in Insert(own, order) ensures o in own || o == order {
        assert o in multiset(own) + multiset{order};
      }
    }
  }

  lemma TradeKeepsFit(
    newOrder: Order, own: seq<Order>, other: seq<Order>, goneOwn: seq<Order>, goneOther: seq<Order>, seen: nat,
    hits: nat)
    requires Fit(own, other, goneOwn, goneOther, newOrder.IsOffer(), seen)
    requires newOrder.traded == 0 && newOrder.count >= seen && hits <= |other| && StopsAfter(newOrder, other, hits)
    ensures var order, rest := Filled(newOrder, other, hits), Rest(newOrder, other, hits);
            var gone := Leaving(newOrder, other, hits);
            if order.Empty()
            then Fit(own, rest, goneOwn + [order], goneOther + gone, order.IsOffer(), order.count + 1)
            else Fit(Insert(own, order), rest, goneOwn, goneOther + gone, order.IsOffer(), order.count + 1)
  {
    hide Order.Before, Order.CanTrade, Order.IsOffer, Sorted, Insert, Rest, Leaving, Matched, Sum, StopsAfter;
    var order, gone := Filled(newOrder, other, hits), Leaving(newOrder, other, hits);
    RestStaysSorted(newOrder, other, hits);
    RestStaysUncrossed(newOrder, own, other, hits);
    RestStaysResting(newOrder, other, hits, seen);
    MatchBalances(newOrder, other, hits);
    SumOfConcat(goneOther, gone, Traded);
    if !order.Empty() {
      UnfilledIsUncrossed(newOrder, other, hits);
    }
    SameSide(newOrder, order.traded);
    forall o | o in Rest(newOrder, other, hits) ensures o.IsOffer() == !newOrder.IsOffer() {
      RestIsOfBook(newOrder, other, hits, o);
      var j, t :| 0 <= j < |other| && o == other[j].(traded := t);
      assert other[j] in other;
      SameSide(other[j], t);
    }
    GoneOnSide(newOrder, other, hits);
    JoinKeepsFit(order, own, Rest(newOrder, other, hits), goneOwn, goneOther + gone, seen);
  }

  lemma GoneOnSide(newOrder: Order, other: seq<Order>, hits: nat)
    requires hits <= |other|
    requires OnSide(other, !newOrder.IsOffer())
    ensures OnSide(Leaving(newOrder, other, hits), !newOrder.IsOffer())
  {
    var gone := Leaving(newOrder, other, hits);
    hide Matched, Leftover, Leaving;
    forall o | o in gone ensures o.IsOffer() == !newOrder.IsOffer() {
      var j :| 0 <= j < |gone| && gone[j] == o;
      assert o == (gone + Leftover(newOrder, other, hits))[j] == other[j].Hit(newOrder);
      assert other[j] in other;
    }
  }

  // ------------------------------------------------------------------ in prices, sizes and counts alone

  // What one order trades with another: the lesser of the two sizes.
  function Lesser(size: int): Order -> int {
    (o: Order) => if o.size < size then o.size else size
  }

  lemma {:induction false} MatchedIsSum(newOrder: Order, book: seq<Order>)
    ensures Matched(newOrder, book) == Sum(book, Lesser(newOrder.size))
  {
    if book != [] {
      MatchedIsSum(newOrder, book[..|book| - 1]);
    }
  }

  // A bid is hit, or hits, only where the offer asks for no more.
  lemma PricesMeet(a: Order, b: Order)
    ensures a.CanTrade(b) <==>
      || (a.action in {Bid, Buy} && b.action in {Offer, Sell} && b.price <= a.price)
      || (a.action in {Offer, Sell} && b.action in {Bid, Buy} && a.price <= b.price)
  {
  }

  // A new bid hits the offers of a book that ask for no more than its price, from the front on, and
  // a new offer the bids that give no less. It stops exactly where what it has traded is its size;
  // if that is nowhere, all that remains asks for more, or gives less.
  lemma HitsInNumbers(newOrder: Order, book: seq<Order>, hits: nat)
    requires hits <= |book| && StopsAfter(newOrder, book, hits) && Sorted(book)
    requires OnSide(book, !newOrder.IsOffer())
    ensures var lesser := Lesser(newOrder.size);
      && (forall j :: 0 <= j < hits ==>
           if newOrder.action in {Bid, Buy} then book[j].price <= newOrder.price else newOrder.price <= book[j].price)
      && (forall j :: 0 < j < hits ==> Sum(book[..j], lesser) != newOrder.size)
      && ((hits > 0 && Sum(book[..hits], lesser) == newOrder.size)
          || forall j :: hits <= j < |book| ==>
               if newOrder.action in {Bid, Buy} then book[j].price > newOrder.price else newOrder.price > book[j].price)
      && Filled(newOrder, book, hits) == newOrder.(traded := Sum(book[..hits], lesser))
  {
    hide Sum, Matched, Sorted, OneSide;
    forall j | 0 < j <= hits ensures Matched(newOrder, book[..j]) == Sum(book[..j], Lesser(newOrder.size)) {
      MatchedIsSum(newOrder, book[..j]);
    }
    MatchedIsSum(newOrder, book[..hits]);
    if hits < |book| && !newOrder.CanTrade(book[hits]) {
      forall j | hits <= j < |book| ensures !newOrder.CanTrade(book[j]) {
        NoneBehind(newOrder, book, hits, j);
      }
      forall j | hits <= j < |book| ensures
        if newOrder.action in {Bid, Buy} then book[j].price > newOrder.price else newOrder.price > book[j].price
      {
        assert book[j] in book;
      }
    }
  }

  // Each hit order has then traded the lesser of the two sizes more. All leave the book, but for the
  // last, which goes back to the front if it filled the new order and has not traded its size.
  lemma BookInNumbers(newOrder: Order, book: seq<Order>, hits: nat)
    requires hits <= |book|
    ensures var size := newOrder.size;
      var hit := seq(hits, j requires 0 <= j < hits =>
        book[j].(traded := book[j].traded + if book[j].size < size then book[j].size else size));
      if hits > 0 && Sum(book[..hits], Lesser(size)) == size && hit[hits - 1].traded != hit[hits - 1].size
      then
        && Rest(newOrder, book, hits) == [hit[hits - 1]] + book[hits..]
        && Leaving(newOrder, book, hits) == hit[..hits - 1]
      else Rest(newOrder, book, hits) == book[hits..] && Leaving(newOrder, book, hits) == hit
  {
    hide Sum, Matched;
    MatchedIsSum(newOrder, book[..hits]);
  }

  // A book has the better price first, and among equal prices the earlier order: bids the higher
  // price, offers the lower.
  lemma PriceThenArrival(book: seq<Order>)
    ensures Sorted(book) && OnSide(book, false) <==>
      && (forall o <- book :: o.action in {Bid, Buy})
      && forall i, j :: 0 <= i < j < |book| ==>
           book[i].price > book[j].price || (book[i].price == book[j].price && book[i].count < book[j].count)
    ensures Sorted(book) && OnSide(book, true) <==>
      && (forall o <- book :: o.action in {Offer, Sell})
      && forall i, j :: 0 <= i < j < |book| ==>
           book[i].price < book[j].price || (book[i].price == book[j].price && book[i].count < book[j].count)
  {
    hide Sorted, OnSide, Order.Before;
    BidsInOrder(book);
    OffersInOrder(book);
  }

  lemma BidsInOrder(book: seq<Order>)
    ensures Sorted(book) && OnSide(book, false) <==>
      && (forall o <- book :: o.action in {Bid, Buy})
      && forall i, j :: 0 <= i < j < |book| ==>
           book[i].price > book[j].price || (book[i].price == book[j].price && book[i].count < book[j].count)
  {
    assert forall i :: 0 <= i < |book| ==> book[i] in book;
  }

  lemma OffersInOrder(book: seq<Order>)
    ensures Sorted(book) && OnSide(book, true) <==>
      && (forall o <- book :: o.action in {Offer, Sell})
      && forall i, j :: 0 <= i < j < |book| ==>
           book[i].price < book[j].price || (book[i].price == book[j].price && book[i].count < book[j].count)
  {
    assert forall i :: 0 <= i < |book| ==> book[i] in book;
  }

  // A trade brings the lesser size times the distance of the prices if exactly one side is ours.
  lemma ProfitInNumbers(a: Order, b: Order)
    ensures var size, gain := if a.size < b.size then a.size else b.size, a.Profit(b);
      && ((a.action in {Buy, Sell}) == (b.action in {Buy, Sell}) ==> gain == 0)
      && ((a.action in {Buy, Sell}) != (b.action in {Buy, Sell}) && a.price >= b.price ==>
            gain == size * (a.price - b.price))
      && ((a.action in {Buy, Sell}) != (b.action in {Buy, Sell}) && a.price <= b.price ==>
            gain == size * (b.price - a.price))
      && gain == b.Profit(a)
  {
  }

  // What a trade with one side comes to: prices that meet, the profits, and nothing left to trade with.
  ghost predicate Terms(newOrder: Order, order: Order, other: seq<Order>, rest: seq<Order>, trades: seq<int>) {
    && |trades| <= |other|
    && (forall j :: 0 <= j < |trades| ==>
         if newOrder.action in {Bid, Buy} then other[j].price <= newOrder.price else newOrder.price <= other[j].price)
    && (forall j :: 0 <= j < |trades| ==> trades[j] == newOrder.Profit(other[j]))
    && (order.traded != order.size ==> forall e <- rest ::
         if newOrder.action in {Bid, Buy} then e.price > newOrder.price else newOrder.price > e.price)
  }

  lemma TradeHasTerms(
    newOrder: Order, own: seq<Order>, other: seq<Order>, goneOwn: seq<Order>, goneOther: seq<Order>, seen: nat,
    trades: seq<int>)
    requires Fit(own, other, goneOwn, goneOther, newOrder.IsOffer(), seen)
    requires |trades| <= |other| && StopsAfter(newOrder, other, |trades|)
    requires forall j :: 0 <= j < |trades| ==> trades[j] == newOrder.Profit(other[j])
    ensures Terms(newOrder, Filled(newOrder, other, |trades|), other, Rest(newOrder, other, |trades|), trades)
  {
    hide Sum, Matched, Sorted, StopsAfter, Uncrossed, Leaving;
    var hits := |trades|;
    HitsInNumbers(newOrder, other, hits);
    if Filled(newOrder, other, hits).traded != newOrder.size {
      assert Rest(newOrder, other, hits) == other[hits..];
    }
  }

  // Every order submitted is in exactly one place, resting or gone, as often as it was submitted.
  ghost predicate Accounted(
    own: seq<Order>, other: seq<Order>, goneOwn: seq<Order>, goneOther: seq<Order>, submitted: seq<Order>)
  {
    forall x :: Places(own, other, goneOwn, goneOther, x) == multiset(submitted)[x.(traded := 0)]
  }

  function Places(
    own: seq<Order>, other: seq<Order>, goneOwn: seq<Order>, goneOther: seq<Order>, x: Order): int
  {
    Sum(own, Is(x)) + Sum(other, Is(x)) + Sum(goneOwn, Is(x)) + Sum(goneOther, Is(x))
  }

  lemma TradeAccounts(
    newOrder: Order, own: seq<Order>, other: seq<Order>, goneOwn: seq<Order>, goneOther: seq<Order>, seen: nat,
    hits: nat, submitted: seq<Order>)
    requires Fit(own, other, goneOwn, goneOther, newOrder.IsOffer(), seen)
    requires Accounted(own, other, goneOwn, goneOther, submitted)
    requires newOrder.traded == 0 && newOrder.count >= seen && hits <= |other|
    ensures var order, rest := Filled(newOrder, other, hits), Rest(newOrder, other, hits);
            var gone := Leaving(newOrder, other, hits);
            if order.Empty()
            then Accounted(own, rest, goneOwn + [order], goneOther + gone, submitted + [newOrder])
            else Accounted(Insert(own, order), rest, goneOwn, goneOther + gone, submitted + [newOrder])
  {
    hide Sum, Matched, Leaving, Rest, Insert, Sorted, Uncrossed;
    var order, gone := Filled(newOrder, other, hits), Leaving(newOrder, other, hits);
    forall x
      ensures Places(own, other, goneOwn, goneOther, x) == multiset(submitted)[x.(traded := 0)]
      ensures Sum(goneOther + gone, Is(x)) + Sum(Rest(newOrder, other, hits), Is(x))
           == Sum(goneOther, Is(x)) + Sum(other, Is(x))
      ensures Sum(goneOwn + [order], Is(x)) == Sum(goneOwn, Is(x)) + Is(x)(order)
      ensures Sum(Insert(own, order), Is(x)) == Sum(own, Is(x)) + Is(x)(order)
      ensures multiset(submitted + [newOrder])[x.(traded := 0)] == multiset(submitted)[x.(traded := 0)] + Is(x)(order)
    {
      MatchAccounts(newOrder, other, hits, x);
      SumOfConcat(goneOther, gone, Is(x));
      SumOfConcat(goneOwn, [order], Is(x));
      SumOfOne(order, Is(x));
      SameSide(newOrder, order.traded);
      InsertAdds(own, order, Is(x));
    }
  }

  lemma SumOfOne(o: Order, f: Order -> int)
    ensures Sum([o], f) == f(o)
  {
  }

  lemma SameSide(o: Order, t: int)
    ensures o.(traded := t).IsOffer() == o.IsOffer()
  {
  }

  // ------------------------------------------------------------------ a share

  class Share {
    var bids: seq<Order>
    var offers: seq<Order>
    // The orders that have left the books, and a bound on the counts seen so far.
    ghost var goneBids: seq<Order>
    ghost var goneOffers: seq<Order>
    ghost var seen: nat
    ghost var submitted: seq<Order>

    ghost predicate Valid()
      reads this
    {
      && Fit(bids, offers, goneBids, goneOffers, false, seen)
      && Accounted(bids, offers, goneBids, goneOffers, submitted)
    }

    function Book(offer: bool): seq<Order>
      reads this
    {
      if offer then offers else bids
    }

    ghost function Gone(offer: bool): seq<Order>
      reads this
    {
      if offer then goneOffers else goneBids
    }

    constructor ()
      ensures Valid() && bids == [] && offers == [] && goneBids == [] && goneOffers == []
      ensures seen == 0 && submitted == []
    {
      bids, offers, goneBids, goneOffers, seen, submitted := [], [], [], [], 0, [];
    }

    // Trades a new order with the best orders of the other side, and rests what is not filled.
    method ExecuteTrade(newOrder: Order) returns (order: Order, trades: seq<int>)
      requires Valid() && newOrder.traded == 0 && newOrder.count >= seen
      modifies this
      ensures Valid() && seen == newOrder.count + 1 && submitted == old(submitted) + [newOrder]
      ensures var other, hits := old(Book(!newOrder.IsOffer())), |trades|;
        && hits <= |other| && StopsAfter(newOrder, other, hits)
        && order == Filled(newOrder, other, hits)
        && Book(!newOrder.IsOffer()) == Rest(newOrder, other, hits)
        && Gone(!newOrder.IsOffer()) == old(Gone(!newOrder.IsOffer())) + Leaving(newOrder, other, hits)
        && Terms(newOrder, order, other, Book(!newOrder.IsOffer()), trades)
      ensures Book(newOrder.IsOffer())
           == if order.Empty() then old(Book(newOrder.IsOffer())) else Insert(old(Book(newOrder.IsOffer())), order)
      ensures Gone(newOrder.IsOffer()) == old(Gone(newOrder.IsOffer())) + if order.Empty() then [order] else []
    {
      hide Fit, Accounted, StopsAfter, Leaving, Leftover, Matched, Insert, Terms;
      AccountedFromBothSides(bids, offers, goneBids, goneOffers, submitted);
      FitFromBothSides(bids, offers, goneBids, goneOffers, false, seen);
      var rest;
      if newOrder.IsOffer() {
        order, rest, trades := Match(newOrder, bids);
        ghost var gone := Leaving(newOrder, bids, |trades|);
        TradeHasTerms(newOrder, offers, bids, goneOffers, goneBids, seen, trades);
        TradeKeepsFit(newOrder, offers, bids, goneOffers, goneBids, seen, |trades|);
        TradeAccounts(newOrder, offers, bids, goneOffers, goneBids, seen, |trades|, submitted);
        bids, goneBids := rest, goneBids + gone;
        if !order.Empty() {
          offers := Insert(offers, order);
        } else {
          goneOffers := goneOffers + [order];
        }
      } else {
        order, rest, trades := Match(newOrder, offers);
        ghost var gone := Leaving(newOrder, offers, |trades|);
        TradeHasTerms(newOrder, bids, offers, goneBids, goneOffers, seen, trades);
        TradeKeepsFit(newOrder, bids, offers, goneBids, goneOffers, seen, |trades|);
        TradeAccounts(newOrder, bids, offers, goneBids, goneOffers, seen, |trades|, submitted);
        offers, goneOffers := rest, goneOffers + gone;
        if !order.Empty() {
          bids := Insert(bids, order);
        } else {
          goneBids := goneBids + [order];
        }
      }
      seen, submitted := newOrder.count + 1, submitted + [newOrder];
      AccountedFromBothSides(bids, offers, goneBids, goneOffers, submitted);
      FitFromBothSides(bids, offers, goneBids, goneOffers, false, seen);
    }
  }
}
