/** The messages exchange adapters pass to the engine, and the one the engine publishes. */
module Messages {
  import opened Levels

  datatype OrderBookSnapshot = OrderBookSnapshot(symbol: string, bids: seq<Level>, asks: seq<Level>, timestamp: int)

  datatype OrderBookDelta = OrderBookDelta(
    symbol: string, bidUpdates: seq<Level>, askUpdates: seq<Level>, timestamp: int)

  datatype MarketUpdate = MarketUpdate(
    symbol: string, bidPrice: Price, bidSize: Size, askPrice: Price, askSize: Size, timestamp: int, isSnapshot: bool)
}
