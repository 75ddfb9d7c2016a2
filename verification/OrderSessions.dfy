/**
  Sessions: what a share's books come to after any sequence of orders, and exactly when every order
  is treated as it should be, trading no more than its size and leaving only when it is filled.
 */
module OrderSessions {
  import opened Sums
  import opened OrderBook

  // The books of a share, and the orders that have left them.
  datatype Ledger = Ledger(bids: seq<Order>, offers: seq<Order>, goneBids: seq<Order>, goneOffers: seq<Order>) {
    function Book(offer: bool): seq<Order> {
      if offer then offers else bids
    }

    function Gone(offer: bool): seq<Order> {
      if offer then goneOffers else goneBids
    }
  }

  const EMPTY := Ledger([], [], [], [])

  // ------------------------------------------------------------------ one order

  // How many orders of the book are hit, the first `k` being known to be.
  function HitsFrom(newOrder: Order, book: seq<Order>, k: nat): (h: nat)
    requires k <= |book|
    ensures k <= h <= |book|
    decreases |book| - k
  {
    if k == |book| || !newOrder.CanTrade(book[k]) then k
    else if Matched(newOrder, book[..k + 1]) == newOrder.size then k + 1
    else HitsFrom(newOrder, book, k + 1)
  }

  function Hits(newOrder: Order, book: seq<Order>): (h: nat)
    ensures h <= |book|
  {
    HitsFrom(newOrder, book, 0)
  }

  lemma {:induction false} HitsFromStops(newOrder: Order, book: seq<Order>, k: nat, hits: nat)
    requires k <= |book| && hits <= |book|
    requires forall j :: 0 <= j < k ==> newOrder.CanTrade(book[j])
    requires forall j :: 0 < j <= k ==> Matched(newOrder, book[..j]) != newOrder.size
    ensures StopsAfter(newOrder, book, hits) <==> hits == HitsFrom(newOrder, book, k)
    decreases |book| - k
  {
    hide Matched, Order.CanTrade;
    if k < |book| && newOrder.CanTrade(book[k]) && Matched(newOrder, book[..k + 1]) != newOrder.size {
      HitsFromStops(newOrder, book, k + 1, hits);
    }
  }

  // There is exactly one number of orders after which the loop stops.
  lemma HitsAreUnique(newOrder: Order, book: seq<Order>, hits: nat)
    requires hits <= |book|
    ensures StopsAfter(newOrder, book, hits) <==> hits == Hits(newOrder, book)
  {
    HitsFromStops(newOrder, book, 0, hits);
  }

  // The ledger after a new order.
  function Executed(l: Ledger, newOrder: Order): Ledger {
    var side := newOrder.IsOffer();
    var other := l.Book(!side);
    var hits := Hits(newOrder, other);
    var order := Filled(newOrder, other, hits);
    var own := if order.Empty() then l.Book(side) else Insert(l.Book(side), order);
    var goneOwn := l.Gone(side) + if order.Empty() then [order] else [];
    var rest, goneOther := Rest(newOrder, other, hits), l.Gone(!side) + Leaving(newOrder, other, hits);
    if side then Ledger(rest, own, goneOther, goneOwn) else Ledger(own, rest, goneOwn, goneOther)
  }

  function Session(orders: seq<Order>): Ledger {
    if orders == [] then EMPTY else Executed(Session(orders[..|orders| - 1]), orders[|orders| - 1])
  }

  // ------------------------------------------------------------------ when every order is treated properly

  // A resting order has traded less than its size, and an order that has left has traded it all.
  ghost predicate Proper(own: seq<Order>, other: seq<Order>, goneOwn: seq<Order>, goneOther: seq<Order>) {
    && (forall o <- own :: 0 <= o.traded < o.size) && (forall o <- other :: 0 <= o.traded < o.size)
    && (forall o <- goneOwn :: o.traded == o.size) && (forall o <- goneOther :: o.traded == o.size)
  }

  ghost predicate IsProper(l: Ledger) {
    Proper(l.bids, l.offers, l.goneBids, l.goneOffers)
  }

  // How many orders of the book can trade with the new one.
  function Reach(newOrder: Order, book: seq<Order>): (t: nat)
    ensures t <= |book| && Tradeable(newOrder, book, t)
  {
    if book == [] || !newOrder.CanTrade(book[0]) then 0
    else
      var t := Reach(newOrder, book[1..]);
      assert forall j :: 0 < j <= t && j < |book| ==> book[j] == book[1..][j - 1];
      1 + t
  }

  // The tradeable orders offer more than is wanted, and nowhere add up to it.
  predicate Overshoots(newOrder: Order, book: seq<Order>) {
    var t := Reach(newOrder, book);
    && Matched(newOrder, book[..t]) > newOrder.size
    && forall j :: 0 < j <= t ==> Matched(newOrder, book[..j]) != newOrder.size
  }

  // No order is in for too much or for too little, seen before the trade.
  predicate Clean(newOrder: Order, book: seq<Order>) {
    && !Overshoots(newOrder, book)
    && forall j :: 0 <= j < Hits(newOrder, book) ==> !Oversold(newOrder, book[j]) && !Abandoned(newOrder, book, j)
  }

  predicate Open(book: seq<Order>) {
    forall o <- book :: o.size > 0 && o.traded >= 0 && !o.Empty()
  }

  lemma {:induction false} MatchedIsNatural(newOrder: Order, book: seq<Order>)
    requires newOrder.size >= 0 && forall e <- book :: e.size > 0
    ensures Matched(newOrder, book) >= 0
    ensures newOrder.size == 0 ==> Matched(newOrder, book) == 0
  {
    if book != [] {
      assert book[|book| - 1] in book;
      MatchedIsNatural(newOrder, book[..|book| - 1]);
    }
  }

  // What a new order leaves to rest, on either side.
  lemma StaysOpen(newOrder: Order, book: seq<Order>)
    requires newOrder.size >= 0 && newOrder.traded == 0 && Open(book)
    ensures Open(Rest(newOrder, book, Hits(newOrder, book)))
    ensures var o := Filled(newOrder, book, Hits(newOrder, book)); o.traded >= 0 && (o.Empty() || o.size > 0)
  {
    hide Matched, Order.CanTrade, Hits;
    var hits := Hits(newOrder, book);
    HitsAreUnique(newOrder, book, hits);
    MatchedIsNatural(newOrder, book[..hits]);
    forall o | o in Rest(newOrder, book, hits) ensures o.size > 0 && o.traded >= 0 && !o.Empty() {
      if o !in book[hits..] {
        assert o == book[hits - 1].Hit(newOrder) && book[hits - 1] in book;
      }
    }
  }

  // A clean order keeps everything proper.
  lemma CleanKeepsProper(newOrder: Order, other: seq<Order>)
    requires newOrder.size >= 0 && newOrder.traded == 0 && Clean(newOrder, other)
    requires forall o <- other :: 0 <= o.traded < o.size
    ensures var hits := Hits(newOrder, other);
      && (forall o <- Rest(newOrder, other, hits) :: 0 <= o.traded < o.size)
      && (forall o <- Leaving(newOrder, other, hits) :: o.traded == o.size)
      && 0 <= Filled(newOrder, other, hits).traded <= newOrder.size
  {
    hide Matched, Order.CanTrade, Hits, Oversold, Abandoned;
    var hits := Hits(newOrder, other);
    HitsAreUnique(newOrder, other, hits);
    StaysOpen(newOrder, other);
    OvertradesExactly(newOrder, other, hits, Reach(newOrder, other));
    forall j | 0 <= j < hits
      ensures var e := other[j].Hit(newOrder);
        e.traded <= e.size && (GoesBack(newOrder, other, hits, j) || e.traded == e.size)
    {
      HitOrderFate(newOrder, other, hits, j);
    }
    forall o | o in Leaving(newOrder, other, hits) ensures o.traded == o.size {
      var j :| 0 <= j < |Leaving(newOrder, other, hits)| && Leaving(newOrder, other, hits)[j] == o;
      LeavesForGood(newOrder, other, hits, j);
    }
    forall o | o in Rest(newOrder, other, hits) ensures 0 <= o.traded < o.size {
      if o !in other[hits..] {
        assert o == other[hits - 1].Hit(newOrder);
      }
    }
  }

  lemma LeavesForGood(newOrder: Order, book: seq<Order>, hits: nat, j: nat)
    requires hits <= |book| && j < |Leaving(newOrder, book, hits)|
    ensures j < hits && !GoesBack(newOrder, book, hits, j)
    ensures Leaving(newOrder, book, hits)[j] == book[j].Hit(newOrder)
  {
    hide Matched;
  }

  // Every hit order is afterwards in the book or among those that left it.
  lemma HitOrdersArePlaced(newOrder: Order, book: seq<Order>, hits: nat, j: nat)
    requires j < hits <= |book|
    ensures var e := book[j].Hit(newOrder);
      if GoesBack(newOrder, book, hits, j) then e in Rest(newOrder, book, hits) else e in Leaving(newOrder, book, hits)
  {
    hide Matched;
    if GoesBack(newOrder, book, hits, j) {
      assert Rest(newOrder, book, hits)[0] == book[j].Hit(newOrder);
    } else {
      assert Leaving(newOrder, book, hits)[j] == book[j].Hit(newOrder);
    }
  }

  // An order that is not clean leaves something improper behind, and so does one that finds it.
  lemma UncleanLeavesTrace(newOrder: Order, other: seq<Order>)
    requires newOrder.size >= 0 && newOrder.traded == 0 && Open(other)
    requires !Clean(newOrder, other) || exists o <- other :: o.traded > o.size
    ensures var hits := Hits(newOrder, other);
      || (exists o <- Rest(newOrder, other, hits) :: o.traded > o.size)
      || (exists o <- Leaving(newOrder, other, hits) :: o.traded != o.size)
      || Filled(newOrder, other, hits).traded > newOrder.size
  {
    hide Matched, Order.CanTrade, Hits;
    var hits := Hits(newOrder, other);
    HitsAreUnique(newOrder, other, hits);
    OvertradesExactly(newOrder, other, hits, Reach(newOrder, other));
    if j :| 0 <= j < hits && (Oversold(newOrder, other[j]) || Abandoned(newOrder, other, j)) {
      HitOrderFate(newOrder, other, hits, j);
      HitOrdersArePlaced(newOrder, other, hits, j);
    } else if !Overshoots(newOrder, other) {
      var k :| 0 <= k < |other| && other[k].traded > other[k].size;
      assert k >= hits && other[hits..][k - hits] == other[k];
      assert other[k] in Rest(newOrder, other, hits);
    }
  }

  // ------------------------------------------------------------------ one step of a session

  lemma InsertedMembers(book: seq<Order>, o: Order)
    requires Sorted(book) && forall p <- book :: p.count != o.count && p.IsOffer() == o.IsOffer()
    ensures o in Insert(book, o) && forall p :: p in Insert(book, o) <==> p in book || p == o
  {
    hide Sorted, Insert;
    InsertKeepsOrder(book, o);
    assert o in multiset(Insert(book, o));
    forall p ensures p in Insert(book, o) <==> p in book || p == o {
      assert p in Insert(book, o) <==> p in multiset(Insert(book, o));
      assert p in book <==> p in multiset(book);
    }
  }

  // What the session knows of the two books besides `Fit`.
  ghost predicate Sound(l: Ledger, n: nat) {
    Fit(l.bids, l.offers, l.goneBids, l.goneOffers, false, n) && Open(l.bids) && Open(l.offers)
  }

  lemma BothSides(l: Ledger, side: bool, n: nat)
    ensures Sound(l, n) <==>
      && Fit(l.Book(side), l.Book(!side), l.Gone(side), l.Gone(!side), side, n)
      && Open(l.Book(side)) && Open(l.Book(!side))
    ensures IsProper(l) <==> Proper(l.Book(side), l.Book(!side), l.Gone(side), l.Gone(!side))
  {
    hide Fit, Open;
    FitFromBothSides(l.bids, l.offers, l.goneBids, l.goneOffers, false, n);
  }

  lemma ExecutedSides(l: Ledger, newOrder: Order)
    ensures var side, l' := newOrder.IsOffer(), Executed(l, newOrder);
      var other := l.Book(!side);
      var hits := Hits(newOrder, other);
      var order := Filled(newOrder, other, hits);
      && l'.Book(!side) == Rest(newOrder, other, hits)
      && l'.Gone(!side) == l.Gone(!side) + Leaving(newOrder, other, hits)
      && l'.Book(side) == (if order.Empty() then l.Book(side) else Insert(l.Book(side), order))
      && l'.Gone(side) == l.Gone(side) + (if order.Empty() then [order] else [])
      && order.IsOffer() == side && order.count == newOrder.count
  {
    hide Rest, Leaving, Matched, Hits, Insert;
  }

  lemma StepIsSound(l: Ledger, newOrder: Order, n: nat)
    requires Sound(l, n) && newOrder.size >= 0 && newOrder.traded == 0 && newOrder.count == n
    ensures Sound(Executed(l, newOrder), n + 1)
  {
    hide *;
    var side := newOrder.IsOffer();
    var own, other := l.Book(side), l.Book(!side);
    var hits := Hits(newOrder, other);
    var order := Filled(newOrder, other, hits);
    ExecutedSides(l, newOrder);
    BothSides(l, side, n);
    BothSides(Executed(l, newOrder), side, n + 1);
    HitsAreUnique(newOrder, other, hits);
    StaysOpen(newOrder, other);
    TradeKeepsFit(newOrder, own, other, l.Gone(side), l.Gone(!side), n, hits);
    assert l.Gone(side) + [] == l.Gone(side);
    if !order.Empty() {
      OwnMembers(l, newOrder, n);
      JoinsOpen(own, Insert(own, order), order);
    }
  }

  lemma JoinsOpen(book: seq<Order>, more: seq<Order>, o: Order)
    requires Open(book) && o.size > 0 && o.traded >= 0 && !o.Empty()
    requires forall p :: p in more <==> p in book || p == o
    ensures Open(more)
  {
  }

  lemma OwnMembers(l: Ledger, newOrder: Order, n: nat)
    requires Sound(l, n) && newOrder.count == n
    ensures var own, book := l.Book(newOrder.IsOffer()), l.Book(!newOrder.IsOffer());
      var order := Filled(newOrder, book, Hits(newOrder, book));
      order in Insert(own, order) && forall p :: p in Insert(own, order) <==> p in own || p == order
  {
    hide Matched, Hits, Insert, Sorted, Uncrossed, Sum, Order.IsOffer;
    var side := newOrder.IsOffer();
    var order := Filled(newOrder, l.Book(!side), Hits(newOrder, l.Book(!side)));
    BothSides(l, side, n);
    SameSide(newOrder, order.traded);
    assert forall p <- l.Book(side) :: p.count < n && p.IsOffer() == side;
    InsertedMembers(l.Book(side), order);
  }

  lemma OrderIsPlaced(l: Ledger, newOrder: Order, n: nat)
    requires Sound(l, n) && newOrder.count == n
    ensures var side, l' := newOrder.IsOffer(), Executed(l, newOrder);
      var order := Filled(newOrder, l.Book(!side), Hits(newOrder, l.Book(!side)));
      if order.Empty() then order in l'.Gone(side) else order in l'.Book(side)
  {
    hide Rest, Leaving, Matched, Hits, Insert, Order.IsOffer, Sound, Executed;
    ExecutedSides(l, newOrder);
    OwnMembers(l, newOrder, n);
  }

  // From a proper ledger the next one is proper if and only if the order is clean; an improper
  // ledger stays improper for good.
  lemma StepIsProper(l: Ledger, newOrder: Order, n: nat)
    requires Sound(l, n) && newOrder.size >= 0 && newOrder.traded == 0 && newOrder.count == n
    ensures IsProper(Executed(l, newOrder)) <==> IsProper(l) && Clean(newOrder, l.Book(!newOrder.IsOffer()))
  {
    hide Fit, Sound, Executed, Rest, Leaving, Matched, Hits, Insert, Clean, Order.IsOffer, IsProper;
    var side := newOrder.IsOffer();
    var own, other, l' := l.Book(side), l.Book(!side), Executed(l, newOrder);
    ExecutedSides(l, newOrder);
    BothSides(l, side, n);
    BothSides(l', side, n + 1);
    OwnMembers(l, newOrder, n);
    var hits := Hits(newOrder, other);
    var order := Filled(newOrder, other, hits);
    if IsProper(l) && Clean(newOrder, other) {
      CleanKeepsProper(newOrder, other);
    } else if IsProper(l') {
      OrderIsPlaced(l, newOrder, n);
      UncleanLeavesTrace(newOrder, other);
      assert false;
    }
  }

  // ------------------------------------------------------------------ whole sessions

  // The orders as they are made: counted from 0, of no negative size, and nothing traded yet.
  ghost predicate AsMade(orders: seq<Order>) {
    forall k :: 0 <= k < |orders| ==> orders[k].count == k && orders[k].size >= 0 && orders[k].traded == 0
  }

  lemma {:induction false} SessionIsSound(orders: seq<Order>)
    requires AsMade(orders)
    ensures Sound(Session(orders), |orders|)
  {
    hide Executed;
    if orders != [] {
      SessionIsSound(orders[..|orders| - 1]);
      StepIsSound(Session(orders[..|orders| - 1]), orders[|orders| - 1], |orders| - 1);
    }
  }

  // Order `k` was clean when it came in.
  ghost predicate CleanAt(orders: seq<Order>, k: nat)
    requires k < |orders|
  {
    Clean(orders[k], Session(orders[..k]).Book(!orders[k].IsOffer()))
  }

  // Every order of a session is treated properly if and only if each was clean when it came in:
  // it did not overshoot, met no partly traded order smaller than itself, and, behind the first one
  // it hit, none that had more left than its own size.
  lemma {:induction false} SessionIsProper(orders: seq<Order>)
    requires AsMade(orders)
    ensures IsProper(Session(orders)) <==> forall k :: 0 <= k < |orders| ==> CleanAt(orders, k)
  {
    hide Executed, Clean, Sound, IsProper;
    if orders == [] {
      NothingIsProper();
    } else {
      var front, last := orders[..|orders| - 1], orders[|orders| - 1];
      SessionIsProper(front);
      SessionIsSound(front);
      StepIsProper(Session(front), last, |front|);
      forall k | 0 <= k < |front| ensures CleanAt(front, k) == CleanAt(orders, k) {
        assert front[..k] == orders[..k];
      }
      assert CleanAt(orders, |front|) == Clean(last, Session(front).Book(!last.IsOffer()));
    }
  }

  lemma NothingIsProper()
    ensures IsProper(EMPTY)
  {
  }

  datatype Request = Request(action: Action, size: int, price: int)

  // Orders are counted as they are made.
  function Orders(requests: seq<Request>): seq<Order> {
    seq(|requests|, i requires 0 <= i < |requests| =>
      Order(requests[i].action, requests[i].size, requests[i].price, i, 0))
  }

  // Executing a trade on a share is executing it on its ledger.
  lemma TradeIsExecuted(
    l: Ledger, l': Ledger, newOrder: Order, order: Order, hits: nat)
    requires var side := newOrder.IsOffer();
      var other := l.Book(!side);
      && hits <= |other| && StopsAfter(newOrder, other, hits)
      && order == Filled(newOrder, other, hits)
      && l'.Book(!side) == Rest(newOrder, other, hits)
      && l'.Gone(!side) == l.Gone(!side) + Leaving(newOrder, other, hits)
      && l'.Book(side) == (if order.Empty() then l.Book(side) else Insert(l.Book(side), order))
      && l'.Gone(side) == l.Gone(side) + if order.Empty() then [order] else []
    ensures l' == Executed(l, newOrder)
  {
    hide StopsAfter, Rest, Leaving, Matched, Hits, Insert;
    HitsAreUnique(newOrder, l.Book(!newOrder.IsOffer()), hits);
  }

  ghost function LedgerOf(share: Share): Ledger
    reads share
  {
    Ledger(share.bids, share.offers, share.goneBids, share.goneOffers)
  }

  // What fit books are, in prices, counts and actions.
  lemma FitInNumbers(bids: seq<Order>, offers: seq<Order>, goneBids: seq<Order>, goneOffers: seq<Order>, seen: nat)
    requires Fit(bids, offers, goneBids, goneOffers, false, seen)
    ensures Sorted(bids) && Sorted(offers) && OnSide(goneBids, false) && OnSide(goneOffers, true)
    ensures (forall b <- bids :: b.action in {Bid, Buy}) && (forall o <- offers :: o.action in {Offer, Sell})
    ensures forall b, o :: b in bids && o in offers ==> b.price < o.price
    ensures forall i, j :: 0 <= i < j < |bids| ==>
      bids[i].price > bids[j].price || (bids[i].price == bids[j].price && bids[i].count < bids[j].count)
    ensures forall i, j :: 0 <= i < j < |offers| ==>
      offers[i].price < offers[j].price || (offers[i].price == offers[j].price && offers[i].count < offers[j].count)
    ensures Sum(bids, Traded) + Sum(goneBids, Traded) == Sum(offers, Traded) + Sum(goneOffers, Traded)
  {
    hide Sum, Sorted, Order.CanTrade;
    PriceThenArrival(bids);
    PriceThenArrival(offers);
    forall b, o | b in bids && o in offers ensures b.price < o.price {
      PricesMeet(b, o);
    }
  }

  // After any sequence of orders the books are those of the session: every resting bid is priced
  // strictly below every resting offer, bids and offers have traded the same quantity, each order is
  // in exactly one place, and all are treated properly if and only if each was clean.
  method Process(requests: seq<Request>) returns (bids: seq<Order>, offers: seq<Order>)
    ensures var l := Session(Orders(requests));
      && bids == l.bids && offers == l.offers
      && Sorted(bids) && Sorted(offers)
      && (forall b <- bids :: b.action in {Bid, Buy}) && (forall o <- offers :: o.action in {Offer, Sell})
      && (forall b, o :: b in bids && o in offers ==> b.price < o.price)
      && OnSide(l.goneBids, false) && OnSide(l.goneOffers, true)
      && Sum(bids, Traded) + Sum(l.goneBids, Traded) == Sum(offers, Traded) + Sum(l.goneOffers, Traded)
      && Accounted(bids, offers, l.goneBids, l.goneOffers, Orders(requests))
    ensures |Orders(requests)| == |requests| && forall i :: 0 <= i < |requests| ==>
      var o := Orders(requests)[i];
      && o.action == requests[i].action && o.size == requests[i].size && o.price == requests[i].price
      && o.count == i && o.traded == 0
    ensures forall i, j :: 0 <= i < j < |bids| ==>
      bids[i].price > bids[j].price || (bids[i].price == bids[j].price && bids[i].count < bids[j].count)
    ensures forall i, j :: 0 <= i < j < |offers| ==>
      offers[i].price < offers[j].price || (offers[i].price == offers[j].price && offers[i].count < offers[j].count)
    ensures (forall r <- requests :: r.size >= 0) ==>
      (IsProper(Session(Orders(requests))) <==> forall k :: 0 <= k < |requests| ==> CleanAt(Orders(requests), k))
  {
    hide Sorted, Accounted, Sum, Rest, Leaving, StopsAfter, Insert, Executed, IsProper, CleanAt, Fit, OnSide, Terms;
    var share := new Share();
    for i := 0 to |requests|
      invariant share.Valid() && fresh(share) && share.seen == i && share.submitted == Orders(requests[..i])
      invariant LedgerOf(share) == Session(Orders(requests[..i]))
    {
      var r := requests[i];
      var newOrder := Order(r.action, r.size, r.price, i, 0);
      ghost var l := LedgerOf(share);
      var order, trades := share.ExecuteTrade(newOrder);
      TradeIsExecuted(l, LedgerOf(share), newOrder, order, |trades|);
      OneMoreOrder(requests, i);
    }
    assert requests[..|requests|] == requests;
    bids, offers := share.bids, share.offers;
    FitInNumbers(bids, offers, share.goneBids, share.goneOffers, |requests|);
    if forall r <- requests :: r.size >= 0 {
      SessionIsProper(Orders(requests));
    }
  }

  lemma OneMoreOrder(requests: seq<Request>, i: nat)
    requires i < |requests|
    ensures var r, orders := requests[i], Orders(requests[..i]);
      && Orders(requests[..i + 1]) == orders + [Order(r.action, r.size, r.price, i, 0)]
      && Session(Orders(requests[..i + 1])) == Executed(Session(orders), Order(r.action, r.size, r.price, i, 0))
  {
    hide Executed;
    var r, orders, more := requests[i], Orders(requests[..i]), Orders(requests[..i + 1]);
    assert more == orders + [Order(r.action, r.size, r.price, i, 0)];
    assert more[..|more| - 1] == orders;
  }

  lemma SessionGoesOn(orders: seq<Order>, o: Order)
    ensures Session(orders + [o]) == Executed(Session(orders), o)
  {
    assert (orders + [o])[..|orders|] == orders;
  }

  lemma FirstOrderRests(o: Order)
    requires o.IsOffer() && o.size > 0 && o.traded == 0
    ensures Executed(EMPTY, o).offers == [o]
  {
  }

  // An offer of 10 and two bids for 6 at the same price: the offer rests with 12 traded.
  lemma OversoldSession()
    ensures var orders := [Order(Offer, 10, 5, 0, 0)] + [Order(Bid, 6, 5, 1, 0)] + [Order(Bid, 6, 5, 2, 0)];
      AsMade(orders) && Session(orders).offers == [Order(Offer, 10, 5, 0, 12)] && !IsProper(Session(orders))
  {
    hide Session, Executed;
    var offer, bid1, bid2 := Order(Offer, 10, 5, 0, 0), Order(Bid, 6, 5, 1, 0), Order(Bid, 6, 5, 2, 0);
    assert Session([]) == EMPTY by {
      NoOrders();
    }
    assert [] + [offer] == [offer];
    SessionGoesOn([], offer);
    FirstOrderRests(offer);
    SessionGoesOn([offer], bid1);
    SmallBidMeetsOffer(Session([offer]), bid1, offer);
    SessionGoesOn([offer] + [bid1], bid2);
    SmallBidMeetsOffer(Session([offer] + [bid1]), bid2, offer.(traded := 6));
    var l := Session([offer] + [bid1] + [bid2]);
    assert l.offers[0] in l.offers;
  }

  lemma NoOrders()
    ensures Session([]) == EMPTY
  {
  }

  lemma SmallBidMeetsOffer(l: Ledger, bid: Order, offer: Order)
    requires bid.action == Bid && offer.action == Offer && bid.price == offer.price && 0 < bid.size < offer.size
    requires l.offers == [offer] && bid.traded == 0 && offer.traded + bid.size != offer.size
    ensures Executed(l, bid).offers == [offer.(traded := offer.traded + bid.size)]
  {
    assert [offer][..1] == [offer] && Matched(bid, [offer][..0]) == 0;
    OneMoreHit(bid, [offer], 0);
  }
}
