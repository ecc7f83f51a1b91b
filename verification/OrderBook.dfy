/** The order book as the program keeps it: two ordered containers, updated in place.
    Each method body is one region under the book's lock, except `GetSpread` and `GetMidPrice`,
    which take the lock twice; what other writers can do in between is the subject of `Crossing`. */
module OrderBooks {
  import opened Options
  import opened Levels
  import opened Sums
  import opened BookSpec
  import opened Crossing
  import opened Volume

  class OrderBook {
    const symbol: string
    var bids: seq<Level>
    var asks: seq<Level>

    ghost predicate Valid()
      reads this
    {
      Sorted(Bid, bids) && Sorted(Ask, asks)
    }

    ghost function View(): Book
      reads this
    {
      Book(ToMap(bids), ToMap(asks))
    }

    constructor (symbol: string)
      ensures Valid() && View() == EMPTY_BOOK && this.symbol == symbol
      ensures bids == [] && asks == []
    {
      this.symbol := symbol;
      bids, asks := [], [];
    }

    method UpdateBid(price: Price, size: Size)
      requires Valid()
      modifies this`bids
      ensures Valid() && View() == Apply(old(View()), Update(Bid, price, size))
      ensures View() == if forall q | q in old(View()).asks :: price < q
                        then Book(old(View()).bids[price := size], old(View()).asks) else old(View())
    {
      GuardAgainstFront(Bid, price, asks);
      PutRefines(Bid, bids, price, size);
      if |asks| == 0 || price < asks[0].price {
        bids := Put(Bid, bids, price, size);
      }
    }

    method UpdateAsk(price: Price, size: Size)
      requires Valid()
      modifies this`asks
      ensures Valid() && View() == Apply(old(View()), Update(Ask, price, size))
      ensures View() == if forall p | p in old(View()).bids :: price > p
                        then Book(old(View()).bids, old(View()).asks[price := size]) else old(View())
    {
      GuardAgainstFront(Ask, price, bids);
      PutRefines(Ask, asks, price, size);
      if |bids| == 0 || price > bids[0].price {
        asks := Put(Ask, asks, price, size);
      }
    }

    method RemoveBid(price: Price)
      requires Valid()
      modifies this`bids
      ensures Valid() && View() == Apply(old(View()), Remove(Bid, price))
      ensures View() == Book(old(View()).bids - {price}, old(View()).asks)
    {
      EraseRefines(Bid, bids, price);
      bids := Erase(Bid, bids, price);
    }

    method RemoveAsk(price: Price)
      requires Valid()
      modifies this`asks
      ensures Valid() && View() == Apply(old(View()), Remove(Ask, price))
      ensures View() == Book(old(View()).bids, old(View()).asks - {price})
    {
      EraseRefines(Ask, asks, price);
      asks := Erase(Ask, asks, price);
    }

    /** Both arguments come in ascending order, as maps with the default order do. */
    method SetSnapshot(newBids: seq<Level>, newAsks: seq<Level>)
      requires Sorted(Ask, newBids) && Sorted(Ask, newAsks)
      modifies this`bids, this`asks
      ensures Valid() && View() == Apply(old(View()), BookSpec.SetSnapshot(ToMap(newBids), ToMap(newAsks)))
      ensures View() == Book(ToMap(newBids), ToMap(newAsks))
    {
      ReverseRefines(Ask, newBids);
      bids := Reverse(newBids);
      asks := newAsks;
    }

    method Clear()
      modifies this`bids, this`asks
      ensures Valid() && View() == Apply(old(View()), BookSpec.Clear)
      ensures bids == [] && asks == [] && View() == Book(map[], map[])
    {
      bids, asks := [], [];
    }

    method GetBestBid() returns (price: Price)
      requires Valid()
      ensures price == BestOf(View(), Bid)
      ensures if bids == [] then price == 0.0 else price in View().bids && forall p | p in View().bids :: p <= price
    {
      FrontIsBest(Bid, bids);
      price := if |bids| == 0 then 0.0 else bids[0].price;
    }

    method GetBestAsk() returns (price: Price)
      requires Valid()
      ensures price == BestOf(View(), Ask)
      ensures if asks == [] then price == 0.0 else price in View().asks && forall q | q in View().asks :: price <= q
    {
      FrontIsBest(Ask, asks);
      price := if |asks| == 0 then 0.0 else asks[0].price;
    }

    /** Two separate reads; with no writer in between it is the spread of one book. */
    method GetSpread() returns (spread: real)
      requires Valid()
      ensures spread == Spread(View(), View()) == BestOf(View(), Ask) - BestOf(View(), Bid)
    {
      var ask := GetBestAsk();
      var bid := GetBestBid();
      spread := ask - bid;
    }

    method GetMidPrice() returns (mid: real)
      requires Valid()
      ensures 2.0 * mid == BestOf(View(), Bid) + BestOf(View(), Ask)
    {
      var bid := GetBestBid();
      var ask := GetBestAsk();
      mid := (bid + ask) / 2.0;
    }

    method GetBidVolume(price: Price) returns (size: Size)
      requires Valid()
      ensures size == ValueAt(View().bids, price) == if price in View().bids then View().bids[price] else 0.0
    {
      FindRefines(Bid, bids, price);
      var level := Find(Bid, bids, price);
      size := if level.Some? then level.value else 0.0;
    }

    method GetAskVolume(price: Price) returns (size: Size)
      requires Valid()
      ensures size == ValueAt(View().asks, price) == if price in View().asks then View().asks[price] else 0.0
    {
      FindRefines(Ask, asks, price);
      var level := Find(Ask, asks, price);
      size := if level.Some? then level.value else 0.0;
    }

    method GetCumulativeBidVolume(price: Price) returns (volume: Size)
      requires Valid()
      ensures volume == VolumeBeyond(Bid, View().bids, price)
      ensures (forall p | p in View().bids :: p <= price) ==> volume == 0.0
    {
      volume := 0.0;
      var i := 0;
      while i < |bids|
        invariant i <= |bids|
        invariant volume == Total(ToMap(bids[..i]))
        invariant forall j | 0 <= j < i :: Before(Bid, bids[j].price, price)
      {
        if bids[i].price <= price {
          break;
        }
        PrefixGrows(Bid, bids, i);
        volume := volume + bids[i].size;
        i := i + 1;
      }
      PrefixIsBeyond(Bid, bids, i, price);
    }

    method GetCumulativeAskVolume(price: Price) returns (volume: Size)
      requires Valid()
      ensures volume == VolumeBeyond(Ask, View().asks, price)
      ensures (forall q | q in View().asks :: price <= q) ==> volume == 0.0
    {
      volume := 0.0;
      var i := 0;
      while i < |asks|
        invariant i <= |asks|
        invariant volume == Total(ToMap(asks[..i]))
        invariant forall j | 0 <= j < i :: Before(Ask, asks[j].price, price)
      {
        if asks[i].price >= price {
          break;
        }
        PrefixGrows(Ask, asks, i);
        volume := volume + asks[i].size;
        i := i + 1;
      }
      PrefixIsBeyond(Ask, asks, i, price);
    }

    /** The bids as a map with the default order, hence ascending. */
    method GetBids() returns (levels: seq<Level>)
      requires Valid()
      ensures Sorted(Ask, levels) && ToMap(levels) == View().bids
    {
      ReverseRefines(Bid, bids);
      levels := Reverse(bids);
    }

    method GetAsks() returns (levels: seq<Level>)
      requires Valid()
      ensures Sorted(Ask, levels) && ToMap(levels) == View().asks
    {
      levels := asks;
    }
  }

  /** Copying a book out through `GetBids` and `GetAsks` and back in through `SetSnapshot`
      restores its containers, although the bids change their order twice. */
  method CopyOutAndIn(source: OrderBook, target: OrderBook)
    requires source.Valid()
    modifies target
    ensures target.Valid() && target.View() == old(source.View())
    ensures target.bids == old(source.bids) && target.asks == old(source.asks)
  {
    var bids := source.GetBids();
    var asks := source.GetAsks();
    target.SetSnapshot(bids, asks);
    SortedCanonical(Bid, target.bids, old(source.bids));
    SortedCanonical(Ask, target.asks, old(source.asks));
  }
}
