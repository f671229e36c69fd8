/**
 * Stream set-up on the exchange side (exchange/binance.go): the trade record
 * handed to the aggregator, the buyer-is-maker direction rule, the
 * TRADING/USDT symbol filter, the split of the symbol list into groups of at
 * most 150 streams per connection and the combined-stream URL suffix.
 */
module Binance {
  import opened Strings

  /** At most this many streams share one WebSocket connection. */
  const MaxStreamsPerConnection: int := 150

  /** The stream kind every symbol subscribes to. */
  const AggTradeStream: string := "@aggTrade"

  /** One entry of the exchange-info listing. */
  datatype SymbolInfo = SymbolInfo(symbol: string, status: string, quoteAsset: string)

  /** A parsed trade: direction is +1 for an aggressive buy and -1 for an
      aggressive sell; the timestamp is in Unix milliseconds. */
  datatype AggTrade = AggTrade(symbol: string, quantity: real, direction: int, timestampMs: int, price: real)

  /** The conditional expression Go lacks: a when cond holds, b otherwise. */
  function IfThenElse(cond: bool, a: int, b: int): (r: int)
    ensures cond ==> r == a
    ensures !cond ==> r == b
  {
    if cond then a else b
  }

  /** The sign of a trade from the message's "m" flag (the buyer is the
      maker, so the aggressor sold). */
  function Direction(buyerIsMaker: bool): (d: int)
    ensures d == 1 || d == -1
    ensures d == -1 <==> buyerIsMaker
  {
    IfThenElse(buyerIsMaker, -1, 1)
  }

  /** The trade built from one stream message once its quantity and price
      have been parsed. */
  function TradeFromMessage(symbol: string, quantity: real, price: real, buyerIsMaker: bool, timeMs: int): (t: AggTrade)
    ensures t.direction == 1 || t.direction == -1
    ensures t.direction == -1 <==> buyerIsMaker
    ensures t.symbol == symbol && t.quantity == quantity && t.price == price
    ensures t.timestampMs == timeMs
  {
    AggTrade(symbol, quantity, Direction(buyerIsMaker), timeMs, price)
  }

  // ---------------------------------------------------------------------
  // Symbol filter

  predicate IsTradableUsdt(info: SymbolInfo)
  {
    info.status == "TRADING" && info.quoteAsset == "USDT"
  }

  /** The symbols of the TRADING entries quoted in USDT, in listing order. */
  function TradableSymbols(infos: seq<SymbolInfo>): (names: seq<string>)
    ensures |names| <= |infos|
    ensures |names| == |infos| <==> forall i :: 0 <= i < |infos| ==> IsTradableUsdt(infos[i])
  {
    if infos == [] then []
    else
      var init := infos[..|infos| - 1];
      var last := infos[|infos| - 1];
      assert forall i :: 0 <= i < |init| ==> init[i] == infos[i];
      TradableSymbols(init) + (if IsTradableUsdt(last) then [last.symbol] else [])
  }

  /** The filter keeps exactly the qualifying entries. */
  lemma {:induction false} TradableSymbolsMembership(infos: seq<SymbolInfo>, name: string)
    ensures name in TradableSymbols(infos) <==>
              exists i :: 0 <= i < |infos| && IsTradableUsdt(infos[i]) && infos[i].symbol == name
  {
    if infos != [] {
      var init := infos[..|infos| - 1];
      TradableSymbolsMembership(init, name);
      if exists i :: 0 <= i < |init| && IsTradableUsdt(init[i]) && init[i].symbol == name {
        var i :| 0 <= i < |init| && IsTradableUsdt(init[i]) && init[i].symbol == name;
        assert infos[i] == init[i];
      }
      if exists i :: 0 <= i < |infos| && IsTradableUsdt(infos[i]) && infos[i].symbol == name {
        var i :| 0 <= i < |infos| && IsTradableUsdt(infos[i]) && infos[i].symbol == name;
        if i < |init| {
          assert init[i] == infos[i];
        }
      }
    }
  }

  /** The filter preserves order: it distributes over concatenation. */
  lemma {:induction false} TradableSymbolsAppend(a: seq<SymbolInfo>, b: seq<SymbolInfo>)
    ensures TradableSymbols(a + b) == TradableSymbols(a) + TradableSymbols(b)
    decreases |b|
  {
    if b == [] {
      assert a + b == a;
    } else {
      var init := b[..|b| - 1];
      assert (a + b)[..|a + b| - 1] == a + init;
      TradableSymbolsAppend(a, init);
    }
  }

  /** The filtering loop of DownloadSymbols, applied to the decoded listing. */
  method DownloadSymbols(infos: seq<SymbolInfo>) returns (result: seq<string>)
    ensures result == TradableSymbols(infos)
    ensures |result| <= |infos|
  {
    result := [];
    var i := 0;
    while i < |infos|
      invariant 0 <= i <= |infos|
      invariant result == TradableSymbols(infos[..i])
      invariant |result| <= i
    {
      var s := infos[i];
      assert infos[..i + 1][..i] == infos[..i];
      if s.status == "TRADING" && s.quoteAsset == "USDT" {
        result := result + [s.symbol];
      }
      i := i + 1;
    }
    assert infos[..i] == infos;
  }

  // ---------------------------------------------------------------------
  // Symbol chunking

  /** Splits symbols into consecutive groups of `size`, the last one
      possibly shorter. */
  method ChunkSymbols(symbols: seq<string>, size: int) returns (chunks: seq<seq<string>>)
    requires size > 0
    ensures Concat(chunks) == symbols
    ensures forall k :: 0 <= k < |chunks| ==> 0 < |chunks[k]| <= size
    ensures forall k :: 0 <= k < |chunks| - 1 ==> |chunks[k]| == size
    ensures |chunks| * size >= |symbols| > (|chunks| - 1) * size
  {
    chunks := [];
    var i := 0;
    while i < |symbols|
      invariant 0 <= i && i == |chunks| * size
      invariant Concat(chunks) == symbols[..if i < |symbols| then i else |symbols|]
      invariant forall k :: 0 <= k < |chunks| ==> 0 < |chunks[k]| <= size
      invariant forall k :: 0 <= k < |chunks| - 1 ==> |chunks[k]| == size
      invariant i <= |symbols| ==> forall k :: 0 <= k < |chunks| ==> |chunks[k]| == size
      invariant i > |symbols| ==> i - size < |symbols|
    {
      var end := i + size;
      if end > |symbols| {
        end := |symbols|;
      }
      ConcatAppend(chunks, symbols[i..end]);
      PrefixSlices(symbols, i, end);
      MulSucc(|chunks|, size);
      chunks := chunks + [symbols[i..end]];
      i := i + size;
    }
    MulSucc(|chunks| - 1, size);
  }

  lemma MulSucc(a: int, b: int)
    ensures (a + 1) * b == a * b + b
  {
  }

  lemma MulMonotone(a: int, b: int, c: int)
    requires a <= b && c > 0
    ensures a * c <= b * c
  {
  }

  /** The number of chunks is the ceiling of |symbols| / size. */
  lemma ChunkCount(n: nat, size: int, count: nat)
    requires size > 0
    requires count * size >= n > (count - 1) * size
    ensures count == (n + size - 1) / size
  {
    var q := (n + size - 1) / size;
    var r := (n + size - 1) % size;
    assert n + size - 1 == q * size + r && 0 <= r < size;
    if q < count {
      MulMonotone(q + 1, count, size);
      assert false;
    } else if q > count {
      MulMonotone(count + 1, q, size);
      assert false;
    }
  }

  /** StartStream: the groups handed to one connection each. Every symbol is
      streamed, in order, by exactly one connection of at most 150 streams. */
  method StartStream(symbols: seq<string>) returns (groups: seq<seq<string>>)
    ensures Concat(groups) == symbols
    ensures forall k :: 0 <= k < |groups| ==> 0 < |groups[k]| <= MaxStreamsPerConnection
    ensures |groups| == (|symbols| + MaxStreamsPerConnection - 1) / MaxStreamsPerConnection
  {
    groups := ChunkSymbols(symbols, MaxStreamsPerConnection);
    ChunkCount(|symbols|, MaxStreamsPerConnection, |groups|);
  }

  // ---------------------------------------------------------------------
  // Combined-stream URL suffix

  /** The stream name of one symbol: lower-cased, with "@aggTrade". */
  function StreamName(symbol: string): (name: string)
    ensures |name| == |symbol| + |AggTradeStream|
    ensures forall i :: 0 <= i < |symbol| ==> !('A' <= name[i] <= 'Z')
    ensures name[|symbol|..] == AggTradeStream
  {
    ToLower(symbol) + AggTradeStream
  }

  function StreamNames(symbols: seq<string>): (names: seq<string>)
    ensures |names| == |symbols|
    ensures forall i :: 0 <= i < |symbols| ==> names[i] == StreamName(symbols[i])
  {
    seq(|symbols|, i requires 0 <= i < |symbols| => StreamName(symbols[i]))
  }

  /** The stream names joined by "/", in input order. */
  method BuildStreamSuffix(symbols: seq<string>) returns (suffix: string)
    ensures suffix == Join(StreamNames(symbols), '/')
    ensures symbols == [] ==> suffix == ""
  {
    var parts: seq<string> := [];
    var i := 0;
    while i < |symbols|
      invariant 0 <= i <= |symbols|
      invariant parts == StreamNames(symbols[..i])
    {
      parts := parts + [ToLower(symbols[i]) + AggTradeStream];
      i := i + 1;
    }
    assert symbols[..i] == symbols;
    suffix := Join(parts, '/');
  }

  lemma StreamNameHasNoSlash(symbol: string)
    requires '/' !in symbol
    ensures '/' !in StreamName(symbol)
  {
    var lower := ToLower(symbol);
    forall j | 0 <= j < |lower| ensures lower[j] != '/' {
      assert symbol[j] != '/';
    }
  }

  /** The suffix names every symbol's stream and nothing else: splitting it at
      "/" gives back the stream names one by one (symbols never contain "/"). */
  lemma StreamSuffixSplits(symbols: seq<string>)
    requires |symbols| > 0
    requires forall i :: 0 <= i < |symbols| ==> '/' !in symbols[i]
    ensures var parts := Split(Join(StreamNames(symbols), '/'), '/');
            |parts| == |symbols| &&
            forall i :: 0 <= i < |symbols| ==> parts[i] == ToLower(symbols[i]) + "@aggTrade"
  {
    var names := StreamNames(symbols);
    forall i | 0 <= i < |names| ensures '/' !in names[i] {
      StreamNameHasNoSlash(symbols[i]);
    }
    SplitJoin(names, '/');
  }
}
