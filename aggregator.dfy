/**
 * The per-symbol minute-bucket aggregator of exchange/aggregator.go.
 *
 * Each trade adds its signed notional (direction * quantity * price) to a
 * running per-symbol total and to a bucket keyed by (symbol, minute). The
 * map `lastFlush` holds, per symbol, the minute that is currently open; when
 * a trade of a strictly later minute arrives, the open bucket is handed to
 * storage (one MinuteCVD record) and deleted, and the new minute becomes the
 * open one. Trades of an earlier minute are absorbed into a bucket that is
 * never handed on.
 *
 * `Step` is the transition as a function on the three maps; `Run` folds it
 * over a history of trades from empty maps. The class MinuteAggregator holds
 * the maps as fields and updates them in place, and is proved to follow
 * `Step`. The lemmas state what every run guarantees.
 */
module Aggregator {
  import opened Strings
  import opened Binance

  /** One minute, in milliseconds. */
  const MinuteMs: int := 60000

  /** A closed minute bucket, as handed to storage.SaveMinuteCVD. */
  datatype MinuteCVD = MinuteCVD(timestamp: int, symbol: string, value: real)

  /** The three maps of handleTrade. A minute bucket is keyed by the pair
      (symbol, minute start) instead of the symbol followed by the minute
      formatted as twelve digits; see BucketKeyInjective. */
  datatype State = State(
    cvdPerSymbol: map<string, real>,
    minuteAgg: map<(string, int), real>,
    lastFlush: map<string, int>)

  const Initial: State := State(map[], map[], map[])

  /** time.Time.Truncate(time.Minute) on a Unix-millisecond timestamp. */
  function TruncateToMinute(t: int): (r: int)
    ensures r % MinuteMs == 0
    ensures r <= t < r + MinuteMs
  {
    t - t % MinuteMs
  }

  /** The minute of a timestamp is the only multiple of a minute within the
      minute that ends after it. */
  lemma TruncateUnique(t: int, r: int)
    requires r % MinuteMs == 0 && r <= t < r + MinuteMs
    ensures r == TruncateToMinute(t)
  {
    var r' := TruncateToMinute(t);
    var a, b := r / MinuteMs, r' / MinuteMs;
    assert r == a * MinuteMs && r' == b * MinuteMs;
  }

  /** The string key of the source, symbol followed by a twelve-digit minute,
      identifies the pair of symbol and minute digits: two keys are equal only
      for the same symbol and digits. Two different minutes can still share
      their digits in local time (a repeated hour when clocks go back); the
      pair key of State keeps them apart where the source does not. */
  lemma BucketKeyInjective(s1: string, d1: string, s2: string, d2: string)
    requires |d1| == 12 && |d2| == 12
    requires s1 + d1 == s2 + d2
    ensures s1 == s2 && d1 == d2
  {
    assert |s1| == |s2|;
    assert s1 == (s1 + d1)[..|s1|];
    assert s2 == (s2 + d2)[..|s2|];
    assert d1 == (s1 + d1)[|s1|..];
    assert d2 == (s2 + d2)[|s2|..];
  }

  /** The signed notional of one trade: quantity times price, counted
      positive for an aggressive buy and negative for an aggressive sell. */
  function Notional(t: AggTrade): (v: real)
    ensures t.direction == 1 ==> v == t.quantity * t.price
    ensures t.direction == -1 ==> v == -(t.quantity * t.price)
  {
    t.direction as real * t.quantity * t.price
  }

  /** Reading a Go map: the value, or zero for a missing key. */
  function Get<K>(m: map<K, real>, k: K): (v: real)
    ensures k in m ==> v == m[k]
    ensures k !in m ==> v == 0.0
  {
    if k in m then m[k] else 0.0
  }

  /** The records a step hands to storage: none or one. */
  function Flushes(flushed: Option<MinuteCVD>): seq<MinuteCVD>
  {
    if flushed.Some? then [flushed.value] else []
  }

  /** handleTrade as a transition: the new maps and the record (if any)
      handed to storage. A trade opens its minute when its symbol has no
      open minute yet or its minute is later than the open one; in the
      latter case it also closes the open minute, whose bucket is removed
      and handed on. */
  function Step(st: State, t: AggTrade): (r: (State, Option<MinuteCVD>))
    ensures r.1.Some? <==>
              t.symbol in st.lastFlush && TruncateToMinute(t.timestampMs) > st.lastFlush[t.symbol]
    ensures r.1.Some? ==>
              r.1.value.symbol == t.symbol && r.1.value.timestamp == st.lastFlush[t.symbol]
              && (t.symbol, st.lastFlush[t.symbol]) !in r.0.minuteAgg
    ensures Get(r.0.cvdPerSymbol, t.symbol) == Get(st.cvdPerSymbol, t.symbol) + Notional(t)
    ensures t.symbol in r.0.lastFlush && r.0.lastFlush[t.symbol] >= TruncateToMinute(t.timestampMs)
  {
    var rounded := TruncateToMinute(t.timestampMs);
    var key := (t.symbol, rounded);
    var value := Notional(t);
    var cvd := st.cvdPerSymbol[t.symbol := Get(st.cvdPerSymbol, t.symbol) + value];
    var agg := st.minuteAgg[key := Get(st.minuteAgg, key) + value];
    var hasLast := t.symbol in st.lastFlush;
    var last := if hasLast then st.lastFlush[t.symbol] else 0;
    var opens := !hasLast || rounded > last;
    var closes := hasLast && rounded > last;
    var prevKey := (t.symbol, last);
    var record := MinuteCVD(last, t.symbol, Get(agg, prevKey));
    (State(cvd,
           if closes then agg - {prevKey} else agg,
           if opens then st.lastFlush[t.symbol := rounded] else st.lastFlush),
     if closes then Some(record) else None)
  }

  /** The maps after a history of trades, starting from empty maps, and
      every record handed to storage on the way, in order. */
  function Run(trades: seq<AggTrade>): (seq<MinuteCVD>, State)
  {
    if trades == [] then ([], Initial)
    else
      var before := Run(trades[..|trades| - 1]);
      var after := Step(before.1, trades[|trades| - 1]);
      (before.0 + Flushes(after.1), after.0)
  }

  /** Handling one more trade extends the run by one step. */
  lemma RunExtends(trades: seq<AggTrade>, log: seq<MinuteCVD>, st: State, t: AggTrade, log': seq<MinuteCVD>, st': State)
    requires Run(trades) == (log, st)
    requires st' == Step(st, t).0 && log' == log + Flushes(Step(st, t).1)
    ensures Run(trades + [t]) == (log', st')
  {
    RunSnoc(trades, t);
  }

  lemma RunSnoc(trades: seq<AggTrade>, t: AggTrade)
    ensures Run(trades + [t]) ==
              (Run(trades).0 + Flushes(Step(Run(trades).1, t).1), Step(Run(trades).1, t).0)
  {
    assert (trades + [t])[..|trades|] == trades;
  }

  // ---------------------------------------------------------------------
  // Sums over a history of trades and over the records handed to storage

  /** Every trade's notional for one symbol. */
  function SymbolSum(trades: seq<AggTrade>, symbol: string): real
  {
    if trades == [] then 0.0
    else
      var t := trades[|trades| - 1];
      SymbolSum(trades[..|trades| - 1], symbol) + (if t.symbol == symbol then Notional(t) else 0.0)
  }

  /** The notional of the trades of one symbol whose timestamp falls in one
      minute, in whatever order they arrived. */
  function MinuteSum(trades: seq<AggTrade>, symbol: string, minute: int): real
  {
    if trades == [] then 0.0
    else
      var t := trades[|trades| - 1];
      MinuteSum(trades[..|trades| - 1], symbol, minute)
        + (if t.symbol == symbol && TruncateToMinute(t.timestampMs) == minute then Notional(t) else 0.0)
  }

  /** The values handed to storage for one symbol and minute. */
  function StoredSum(log: seq<MinuteCVD>, symbol: string, minute: int): real
  {
    if log == [] then 0.0
    else
      var r := log[|log| - 1];
      StoredSum(log[..|log| - 1], symbol, minute)
        + (if r.symbol == symbol && r.timestamp == minute then r.value else 0.0)
  }

  lemma SymbolSumSnoc(trades: seq<AggTrade>, t: AggTrade, symbol: string)
    ensures SymbolSum(trades + [t], symbol)
              == SymbolSum(trades, symbol) + (if t.symbol == symbol then Notional(t) else 0.0)
  {
    assert (trades + [t])[..|trades|] == trades;
  }

  lemma MinuteSumSnoc(trades: seq<AggTrade>, t: AggTrade, symbol: string, minute: int)
    ensures MinuteSum(trades + [t], symbol, minute)
              == MinuteSum(trades, symbol, minute)
                 + (if t.symbol == symbol && TruncateToMinute(t.timestampMs) == minute then Notional(t) else 0.0)
  {
    assert (trades + [t])[..|trades|] == trades;
  }

  lemma StoredSumSnoc(log: seq<MinuteCVD>, more: seq<MinuteCVD>, symbol: string, minute: int)
    requires |more| <= 1
    ensures StoredSum(log + more, symbol, minute)
              == StoredSum(log, symbol, minute)
                 + (if |more| == 1 && more[0].symbol == symbol && more[0].timestamp == minute then more[0].value else 0.0)
  {
    if |more| == 1 {
      assert (log + more)[..|log|] == log;
    } else {
      assert log + more == log;
    }
  }

  lemma {:induction false} SymbolSumOfOthers(trades: seq<AggTrade>, symbol: string)
    requires forall i :: 0 <= i < |trades| ==> trades[i].symbol != symbol
    ensures SymbolSum(trades, symbol) == 0.0
  {
    if trades != [] {
      SymbolSumOfOthers(trades[..|trades| - 1], symbol);
    }
  }

  lemma {:induction false} MinuteSumOfOthers(trades: seq<AggTrade>, symbol: string, minute: int)
    requires forall i :: 0 <= i < |trades| ==>
               trades[i].symbol != symbol || TruncateToMinute(trades[i].timestampMs) != minute
    ensures MinuteSum(trades, symbol, minute) == 0.0
  {
    if trades != [] {
      MinuteSumOfOthers(trades[..|trades| - 1], symbol, minute);
    }
  }

  lemma {:induction false} StoredSumOfOthers(log: seq<MinuteCVD>, symbol: string, minute: int)
    requires forall i :: 0 <= i < |log| ==> log[i].symbol != symbol || log[i].timestamp != minute
    ensures StoredSum(log, symbol, minute) == 0.0
  {
    if log != [] {
      StoredSumOfOthers(log[..|log| - 1], symbol, minute);
    }
  }

  // ---------------------------------------------------------------------
  // The invariant of a run

  /** What holds of the maps and of the records handed to storage after any
      history. */
  ghost predicate Inv(st: State, trades: seq<AggTrade>, log: seq<MinuteCVD>)
  {
    // symbols are registered in cvdPerSymbol and lastFlush together
    && st.cvdPerSymbol.Keys == st.lastFlush.Keys
    // the running total is the sum of all of the symbol's trades
    && (forall s :: s in st.cvdPerSymbol ==> st.cvdPerSymbol[s] == SymbolSum(trades, s))
    // every trade seen is of a registered symbol, at or before its open minute
    && (forall i :: 0 <= i < |trades| ==>
          trades[i].symbol in st.lastFlush
          && TruncateToMinute(trades[i].timestampMs) <= st.lastFlush[trades[i].symbol])
    // buckets exist only at or before their symbol's open minute
    && (forall k :: k in st.minuteAgg ==> k.0 in st.lastFlush && k.1 <= st.lastFlush[k.0])
    // the open minute always has its bucket
    && (forall s :: s in st.lastFlush ==> (s, st.lastFlush[s]) in st.minuteAgg)
    // every minute handed on lies strictly before its symbol's open minute
    && (forall i :: 0 <= i < |log| ==>
          log[i].symbol in st.lastFlush && log[i].timestamp < st.lastFlush[log[i].symbol])
    // per symbol, the minutes handed on strictly increase
    && (forall i, j :: 0 <= i < j < |log| && log[i].symbol == log[j].symbol ==>
          log[i].timestamp < log[j].timestamp)
    // nothing is lost: each minute's notional is handed on or still in its bucket
    && (forall s, m :: MinuteSum(trades, s, m) == StoredSum(log, s, m) + Get(st.minuteAgg, (s, m)))
  }

  lemma InvInitial()
    ensures Inv(Initial, [], [])
  {
  }

  /** What a step adds to the bucket of (s, m) is either still there or in
      the record it hands to storage. */
  lemma StepBucketBalance(st: State, t: AggTrade, s: string, m: int)
    ensures var next := Step(st, t);
            var added := if t.symbol == s && TruncateToMinute(t.timestampMs) == m then Notional(t) else 0.0;
            var more := Flushes(next.1);
            var stored := if |more| == 1 && more[0].symbol == s && more[0].timestamp == m then more[0].value else 0.0;
            Get(st.minuteAgg, (s, m)) + added == stored + Get(next.0.minuteAgg, (s, m))
  {
    var next := Step(st, t);
    var rounded := TruncateToMinute(t.timestampMs);
    var key := (t.symbol, rounded);
    var agg := st.minuteAgg[key := Get(st.minuteAgg, key) + Notional(t)];
    if t.symbol in st.lastFlush && rounded > st.lastFlush[t.symbol] {
      var prevKey := (t.symbol, st.lastFlush[t.symbol]);
      assert next.0.minuteAgg == agg - {prevKey};
      assert Flushes(next.1) == [MinuteCVD(prevKey.1, t.symbol, Get(agg, prevKey))];
    } else {
      assert next.0.minuteAgg == agg;
      assert Flushes(next.1) == [];
    }
  }

  /** One step moves each minute's notional between the buckets and the
      records handed to storage without losing or duplicating any of it. */
  lemma StepConservesMinute(st: State, trades: seq<AggTrade>, log: seq<MinuteCVD>, t: AggTrade, s: string, m: int)
    requires MinuteSum(trades, s, m) == StoredSum(log, s, m) + Get(st.minuteAgg, (s, m))
    ensures var next := Step(st, t);
            MinuteSum(trades + [t], s, m) == StoredSum(log + Flushes(next.1), s, m) + Get(next.0.minuteAgg, (s, m))
  {
    var next := Step(st, t);
    MinuteSumSnoc(trades, t, s, m);
    StoredSumSnoc(log, Flushes(next.1), s, m);
    StepBucketBalance(st, t, s, m);
  }

  lemma StepKeepsConservation(st: State, trades: seq<AggTrade>, log: seq<MinuteCVD>, t: AggTrade)
    requires forall s, m :: MinuteSum(trades, s, m) == StoredSum(log, s, m) + Get(st.minuteAgg, (s, m))
    ensures var next := Step(st, t);
            forall s, m :: MinuteSum(trades + [t], s, m)
                             == StoredSum(log + Flushes(next.1), s, m) + Get(next.0.minuteAgg, (s, m))
  {
    forall s, m
      ensures MinuteSum(trades + [t], s, m)
                == StoredSum(log + Flushes(Step(st, t).1), s, m) + Get(Step(st, t).0.minuteAgg, (s, m))
    {
      StepConservesMinute(st, trades, log, t, s, m);
    }
  }

  lemma StepKeepsOrder(st: State, trades: seq<AggTrade>, log: seq<MinuteCVD>, t: AggTrade)
    requires Inv(st, trades, log)
    ensures var next := Step(st, t);
            var log' := log + Flushes(next.1);
            && (forall i :: 0 <= i < |log'| ==>
                  log'[i].symbol in next.0.lastFlush && log'[i].timestamp < next.0.lastFlush[log'[i].symbol])
            && (forall i, j :: 0 <= i < j < |log'| && log'[i].symbol == log'[j].symbol ==>
                  log'[i].timestamp < log'[j].timestamp)
  {
    var next := Step(st, t);
    var log' := log + Flushes(next.1);
    forall i | 0 <= i < |log'|
      ensures log'[i].symbol in next.0.lastFlush && log'[i].timestamp < next.0.lastFlush[log'[i].symbol]
    {
      if i < |log| {
        assert log'[i] == log[i];
      }
    }
    forall i, j | 0 <= i < j < |log'| && log'[i].symbol == log'[j].symbol
      ensures log'[i].timestamp < log'[j].timestamp
    {
      assert log'[i] == log[i];
      if j < |log| {
        assert log'[j] == log[j];
      }
    }
  }

  lemma StepKeepsTotals(st: State, trades: seq<AggTrade>, t: AggTrade)
    requires st.cvdPerSymbol.Keys == st.lastFlush.Keys
    requires forall s :: s in st.cvdPerSymbol ==> st.cvdPerSymbol[s] == SymbolSum(trades, s)
    requires forall i :: 0 <= i < |trades| ==> trades[i].symbol in st.lastFlush
    ensures var next := Step(st, t).0;
            && next.cvdPerSymbol.Keys == next.lastFlush.Keys
            && (forall s :: s in next.cvdPerSymbol ==> next.cvdPerSymbol[s] == SymbolSum(trades + [t], s))
  {
    var next := Step(st, t).0;
    if t.symbol !in st.lastFlush {
      SymbolSumOfOthers(trades, t.symbol);
    }
    forall s | s in next.cvdPerSymbol
      ensures next.cvdPerSymbol[s] == SymbolSum(trades + [t], s)
    {
      SymbolSumSnoc(trades, t, s);
    }
  }

  lemma StepKeepsTradeBound(st: State, trades: seq<AggTrade>, t: AggTrade)
    requires forall i :: 0 <= i < |trades| ==>
               trades[i].symbol in st.lastFlush
               && TruncateToMinute(trades[i].timestampMs) <= st.lastFlush[trades[i].symbol]
    ensures var next := Step(st, t).0;
            var trades' := trades + [t];
            forall i :: 0 <= i < |trades'| ==>
              trades'[i].symbol in next.lastFlush
              && TruncateToMinute(trades'[i].timestampMs) <= next.lastFlush[trades'[i].symbol]
  {
    var next := Step(st, t).0;
    var trades' := trades + [t];
    forall i | 0 <= i < |trades'|
      ensures trades'[i].symbol in next.lastFlush
      ensures TruncateToMinute(trades'[i].timestampMs) <= next.lastFlush[trades'[i].symbol]
    {
      if i < |trades| {
        assert trades'[i] == trades[i];
      }
    }
  }

  lemma StepKeepsBuckets(st: State, t: AggTrade)
    requires forall k :: k in st.minuteAgg ==> k.0 in st.lastFlush && k.1 <= st.lastFlush[k.0]
    requires forall s :: s in st.lastFlush ==> (s, st.lastFlush[s]) in st.minuteAgg
    ensures var next := Step(st, t).0;
            && (forall k :: k in next.minuteAgg ==> k.0 in next.lastFlush && k.1 <= next.lastFlush[k.0])
            && (forall s :: s in next.lastFlush ==> (s, next.lastFlush[s]) in next.minuteAgg)
  {
  }

  /** Each step keeps the invariant. */
  lemma StepKeepsInv(st: State, trades: seq<AggTrade>, log: seq<MinuteCVD>, t: AggTrade)
    requires Inv(st, trades, log)
    ensures var next := Step(st, t);
            Inv(next.0, trades + [t], log + Flushes(next.1))
  {
    StepKeepsTotals(st, trades, t);
    StepKeepsTradeBound(st, trades, t);
    StepKeepsBuckets(st, t);
    StepKeepsOrder(st, trades, log, t);
    StepKeepsConservation(st, trades, log, t);
  }

  /** Every history of trades leads to maps and records satisfying Inv. */
  lemma {:induction false} RunKeepsInv(trades: seq<AggTrade>)
    ensures Inv(Run(trades).1, trades, Run(trades).0)
  {
    if trades == [] {
      InvInitial();
    } else {
      var init := trades[..|trades| - 1];
      var t := trades[|trades| - 1];
      var (log, st) := Run(init);
      RunKeepsInv(init);
      StepKeepsInv(st, init, log, t);
      InitLast(trades);
    }
  }

  // ---------------------------------------------------------------------
  // What one step does

  /** A symbol's first trade opens its minute, hands nothing on, and counts
      in the running total and in its minute's bucket. */
  lemma StepFirstTrade(st: State, t: AggTrade)
    requires t.symbol !in st.lastFlush
    ensures var next := Step(st, t);
            var key := (t.symbol, TruncateToMinute(t.timestampMs));
            && next.1 == None
            && next.0.lastFlush == st.lastFlush[t.symbol := TruncateToMinute(t.timestampMs)]
            && next.0.cvdPerSymbol == st.cvdPerSymbol[t.symbol := Get(st.cvdPerSymbol, t.symbol) + Notional(t)]
            && next.0.minuteAgg == st.minuteAgg[key := Get(st.minuteAgg, key) + Notional(t)]
  {
  }

  /** A trade of the open minute, or of an earlier one, hands nothing on and
      leaves the open minute alone; it still counts in the running total and
      in its minute's bucket. */
  lemma StepSameOrLateMinute(st: State, t: AggTrade)
    requires t.symbol in st.lastFlush
    requires TruncateToMinute(t.timestampMs) <= st.lastFlush[t.symbol]
    ensures var next := Step(st, t);
            var key := (t.symbol, TruncateToMinute(t.timestampMs));
            && next.1 == None
            && next.0.lastFlush == st.lastFlush
            && next.0.cvdPerSymbol == st.cvdPerSymbol[t.symbol := Get(st.cvdPerSymbol, t.symbol) + Notional(t)]
            && next.0.minuteAgg == st.minuteAgg[key := Get(st.minuteAgg, key) + Notional(t)]
  {
  }

  /** A trade of a later minute hands on exactly one record for the open
      minute, deletes that minute's bucket and opens its own minute. */
  lemma StepLaterMinute(st: State, t: AggTrade)
    requires t.symbol in st.lastFlush
    requires TruncateToMinute(t.timestampMs) > st.lastFlush[t.symbol]
    ensures var next := Step(st, t);
            var last := st.lastFlush[t.symbol];
            var rounded := TruncateToMinute(t.timestampMs);
            && next.1 == Some(MinuteCVD(last, t.symbol, Get(st.minuteAgg, (t.symbol, last))))
            && (t.symbol, last) !in next.0.minuteAgg
            && next.0.minuteAgg[(t.symbol, rounded)] == Get(st.minuteAgg, (t.symbol, rounded)) + Notional(t)
            && next.0.minuteAgg == st.minuteAgg[(t.symbol, rounded) := Get(st.minuteAgg, (t.symbol, rounded)) + Notional(t)]
                                   - {(t.symbol, last)}
            && next.0.lastFlush == st.lastFlush[t.symbol := rounded]
            && next.0.cvdPerSymbol == st.cvdPerSymbol[t.symbol := Get(st.cvdPerSymbol, t.symbol) + Notional(t)]
  {
  }

  /** A step touches no other symbol's entries. */
  lemma StepOtherSymbolsUnchanged(st: State, t: AggTrade, s: string, m: int)
    requires s != t.symbol
    ensures var next := Step(st, t).0;
            && (s in next.cvdPerSymbol <==> s in st.cvdPerSymbol)
            && Get(next.cvdPerSymbol, s) == Get(st.cvdPerSymbol, s)
            && (s in next.lastFlush <==> s in st.lastFlush)
            && (s in st.lastFlush ==> next.lastFlush[s] == st.lastFlush[s])
            && ((s, m) in next.minuteAgg <==> (s, m) in st.minuteAgg)
            && Get(next.minuteAgg, (s, m)) == Get(st.minuteAgg, (s, m))
  {
  }

  /** The open minute of a symbol never moves back. */
  lemma StepLastFlushMonotone(st: State, t: AggTrade, s: string)
    requires s in st.lastFlush
    ensures var next := Step(st, t).0;
            s in next.lastFlush && next.lastFlush[s] >= st.lastFlush[s]
  {
  }

  // ---------------------------------------------------------------------
  // What every run guarantees

  /** The running total of a symbol is the sum of all its trades, late ones
      included; symbols without trades have no entry. */
  lemma RunningTotalIsSymbolSum(trades: seq<AggTrade>, s: string)
    ensures var st := Run(trades).1;
            (s in st.cvdPerSymbol <==> exists i :: 0 <= i < |trades| && trades[i].symbol == s)
            && (s in st.cvdPerSymbol ==> st.cvdPerSymbol[s] == SymbolSum(trades, s))
  {
    RunKeepsInv(trades);
    var st := Run(trades).1;
    if s in st.cvdPerSymbol {
      if !exists i :: 0 <= i < |trades| && trades[i].symbol == s {
        SymbolSumOfOthers(trades, s);
        OpenBucketNeedsTrade(trades, s);
      }
    }
  }

  /** A symbol has an open minute only once a trade for it was seen. */
  lemma {:induction false} OpenBucketNeedsTrade(trades: seq<AggTrade>, s: string)
    requires s in Run(trades).1.lastFlush
    ensures exists i :: 0 <= i < |trades| && trades[i].symbol == s
  {
    if trades != [] {
      var init := trades[..|trades| - 1];
      var t := trades[|trades| - 1];
      assert init + [t] == trades;
      RunSnoc(init, t);
      if t.symbol != s {
        OpenBucketNeedsTrade(init, s);
        var i :| 0 <= i < |init| && init[i].symbol == s;
        assert trades[i] == init[i];
      } else {
        assert trades[|trades| - 1].symbol == s;
      }
    }
  }

  /** The open minute's bucket is always present and holds exactly the sum of
      every trade of that symbol and minute seen so far: the zero default
      read of a missing bucket never happens. */
  lemma OpenBucketIsMinuteSum(trades: seq<AggTrade>, s: string)
    requires s in Run(trades).1.lastFlush
    ensures var st := Run(trades).1;
            (s, st.lastFlush[s]) in st.minuteAgg
            && st.minuteAgg[(s, st.lastFlush[s])] == MinuteSum(trades, s, st.lastFlush[s])
  {
    RunKeepsInv(trades);
    InvOpenBucket(Run(trades).1, trades, Run(trades).0, s);
  }

  lemma InvOpenBucket(st: State, trades: seq<AggTrade>, log: seq<MinuteCVD>, s: string)
    requires Inv(st, trades, log)
    requires s in st.lastFlush
    ensures (s, st.lastFlush[s]) in st.minuteAgg
    ensures st.minuteAgg[(s, st.lastFlush[s])] == MinuteSum(trades, s, st.lastFlush[s])
  {
    StoredSumOfOthers(log, s, st.lastFlush[s]);
  }

  /** The record handed on when a minute closes carries the exact sum of every
      trade of that symbol and minute seen before it, and closes a minute
      strictly before the new trade's minute. */
  lemma FlushedValueIsMinuteSum(trades: seq<AggTrade>, t: AggTrade)
    requires Step(Run(trades).1, t).1.Some?
    ensures var st := Run(trades).1;
            var r := Step(st, t).1.value;
            && r.symbol == t.symbol
            && t.symbol in st.lastFlush
            && r.timestamp == st.lastFlush[t.symbol]
            && r.timestamp < TruncateToMinute(t.timestampMs)
            && r.value == MinuteSum(trades, t.symbol, r.timestamp)
  {
    OpenBucketIsMinuteSum(trades, t.symbol);
  }

  /** Per symbol, the minutes handed on are strictly increasing. */
  lemma FlushesOrdered(trades: seq<AggTrade>, i: int, j: int)
    requires 0 <= i < j < |Run(trades).0|
    requires Run(trades).0[i].symbol == Run(trades).0[j].symbol
    ensures Run(trades).0[i].timestamp < Run(trades).0[j].timestamp
  {
    RunKeepsInv(trades);
  }

  /** No (symbol, minute) is handed on twice. */
  lemma FlushedAtMostOnce(trades: seq<AggTrade>, i: int, j: int)
    requires 0 <= i < |Run(trades).0| && 0 <= j < |Run(trades).0| && i != j
    ensures (Run(trades).0[i].symbol, Run(trades).0[i].timestamp)
              != (Run(trades).0[j].symbol, Run(trades).0[j].timestamp)
  {
    RunKeepsInv(trades);
  }

  /** Nothing is lost: the notional of each (symbol, minute) is either in a
      record handed to storage or still in its bucket. */
  lemma NothingLost(trades: seq<AggTrade>, s: string, m: int)
    ensures MinuteSum(trades, s, m) == StoredSum(Run(trades).0, s, m) + Get(Run(trades).1.minuteAgg, (s, m))
  {
    RunKeepsInv(trades);
  }

  /** Records handed on are never changed or withdrawn by later trades. */
  lemma {:induction false} RunLogExtends(trades: seq<AggTrade>, more: seq<AggTrade>)
    ensures |Run(trades).0| <= |Run(trades + more).0|
    ensures Run(trades + more).0[..|Run(trades).0|] == Run(trades).0
    decreases |more|
  {
    if more == [] {
      assert trades + more == trades;
    } else {
      var init := more[..|more| - 1];
      var t := more[|more| - 1];
      RunLogExtends(trades, init);
      InitLast(more);
      assert trades + more == (trades + init) + [t];
      RunSnoc(trades + init, t);
      var mid := Run(trades + init);
      PrefixOfAppend(mid.0, Flushes(Step(mid.1, t).1), Run(trades).0);
    }
  }

  /** A late trade never reopens a minute that was handed on: once
      (symbol, minute) is handed to storage, no later trade hands it on
      again. */
  lemma LateTradesNeverReflushed(trades: seq<AggTrade>, more: seq<AggTrade>, i: int, j: int)
    requires 0 <= i < |Run(trades).0|
    requires |Run(trades).0| <= j < |Run(trades + more).0|
    ensures var r := Run(trades).0[i];
            var later := Run(trades + more).0[j];
            (later.symbol, later.timestamp) != (r.symbol, r.timestamp)
  {
    RunLogExtends(trades, more);
    assert Run(trades + more).0[i] == Run(trades).0[i];
    FlushedAtMostOnce(trades + more, i, j);
  }

  /** The concrete scenario: +1 x 100 at 00:00:10, -2 x 100 at 00:00:50 and
      +1 x 100 at 00:01:05 hand on one record, -100 for minute 00:00, and leave
      minute 00:01 open. */
  lemma WorkedExample()
    ensures var t1 := AggTrade("BTCUSDT", 1.0, 1, 10000, 100.0);
            var t2 := AggTrade("BTCUSDT", 2.0, -1, 50000, 100.0);
            var t3 := AggTrade("BTCUSDT", 1.0, 1, 65000, 100.0);
            var (log, st) := Run([t1, t2, t3]);
            && log == [MinuteCVD(0, "BTCUSDT", -100.0)]
            && st.lastFlush == map["BTCUSDT" := 60000]
            && st.minuteAgg == map[("BTCUSDT", 60000) := 100.0]
            && st.cvdPerSymbol == map["BTCUSDT" := 0.0]
  {
    var t1 := AggTrade("BTCUSDT", 1.0, 1, 10000, 100.0);
    var t2 := AggTrade("BTCUSDT", 2.0, -1, 50000, 100.0);
    var t3 := AggTrade("BTCUSDT", 1.0, 1, 65000, 100.0);
    var s2 := State(map["BTCUSDT" := -100.0], map[("BTCUSDT", 0) := -100.0], map["BTCUSDT" := 0]);
    var s3 := State(map["BTCUSDT" := 0.0], map[("BTCUSDT", 60000) := 100.0], map["BTCUSDT" := 60000]);
    var record := MinuteCVD(0, "BTCUSDT", -100.0);
    ExampleTwoTrades(t1, t2, s2);
    ExampleThirdStep(s2, t3, s3, record);
    RunExtends([t1, t2], [], s2, t3, [record], s3);
    assert [t1, t2] + [t3] == [t1, t2, t3];
  }

  lemma ExampleTwoTrades(t1: AggTrade, t2: AggTrade, s2: State)
    requires t1 == AggTrade("BTCUSDT", 1.0, 1, 10000, 100.0)
    requires t2 == AggTrade("BTCUSDT", 2.0, -1, 50000, 100.0)
    requires s2 == State(map["BTCUSDT" := -100.0], map[("BTCUSDT", 0) := -100.0], map["BTCUSDT" := 0])
    ensures Run([t1, t2]) == ([], s2)
  {
    var s1 := State(map["BTCUSDT" := 100.0], map[("BTCUSDT", 0) := 100.0], map["BTCUSDT" := 0]);
    ExampleOneTrade(t1, s1);
    ExampleSecondStep(s1, t2, s2);
    RunExtends([t1], [], s1, t2, [], s2);
    assert [t1] + [t2] == [t1, t2];
  }

  lemma ExampleOneTrade(t1: AggTrade, s1: State)
    requires t1 == AggTrade("BTCUSDT", 1.0, 1, 10000, 100.0)
    requires s1 == State(map["BTCUSDT" := 100.0], map[("BTCUSDT", 0) := 100.0], map["BTCUSDT" := 0])
    ensures Run([t1]) == ([], s1)
  {
    ExampleFirstStep(t1, s1);
    RunExtends([], [], Initial, t1, [], s1);
    assert [] + [t1] == [t1];
  }

  lemma ExampleFirstStep(t1: AggTrade, s1: State)
    requires t1 == AggTrade("BTCUSDT", 1.0, 1, 10000, 100.0)
    requires s1 == State(map["BTCUSDT" := 100.0], map[("BTCUSDT", 0) := 100.0], map["BTCUSDT" := 0])
    ensures Step(Initial, t1) == (s1, None)
  {
    assert TruncateToMinute(10000) == 0;
  }

  lemma ExampleSecondStep(s1: State, t2: AggTrade, s2: State)
    requires s1 == State(map["BTCUSDT" := 100.0], map[("BTCUSDT", 0) := 100.0], map["BTCUSDT" := 0])
    requires t2 == AggTrade("BTCUSDT", 2.0, -1, 50000, 100.0)
    requires s2 == State(map["BTCUSDT" := -100.0], map[("BTCUSDT", 0) := -100.0], map["BTCUSDT" := 0])
    ensures Step(s1, t2) == (s2, None)
  {
    assert TruncateToMinute(50000) == 0;
    assert Notional(t2) == -200.0;
    assert Step(s1, t2).0.cvdPerSymbol == s2.cvdPerSymbol;
    assert Step(s1, t2).0.minuteAgg == s2.minuteAgg;
  }

  lemma ExampleThirdStep(s2: State, t3: AggTrade, s3: State, record: MinuteCVD)
    requires s2 == State(map["BTCUSDT" := -100.0], map[("BTCUSDT", 0) := -100.0], map["BTCUSDT" := 0])
    requires t3 == AggTrade("BTCUSDT", 1.0, 1, 65000, 100.0)
    requires s3 == State(map["BTCUSDT" := 0.0], map[("BTCUSDT", 60000) := 100.0], map["BTCUSDT" := 60000])
    requires record == MinuteCVD(0, "BTCUSDT", -100.0)
    ensures Step(s2, t3) == (s3, Some(record))
  {
    assert TruncateToMinute(65000) == 60000;
    assert Notional(t3) == 100.0;
    assert Step(s2, t3).0.cvdPerSymbol == s3.cvdPerSymbol;
    assert Step(s2, t3).0.lastFlush == s3.lastFlush;
    assert Step(s2, t3).1 == Some(record);
    assert map[("BTCUSDT", 0) := -100.0][("BTCUSDT", 60000) := 100.0] - {("BTCUSDT", 0)}
             == map[("BTCUSDT", 60000) := 100.0];
  }

  // ---------------------------------------------------------------------
  // The aggregator object

  /** The package-level maps of aggregator.go as fields, with the records
      handed to storage.SaveMinuteCVD in `emitted`. */
  class MinuteAggregator {
    var cvdPerSymbol: map<string, real>
    var minuteAgg: map<(string, int), real>
    var lastFlush: map<string, int>
    var emitted: seq<MinuteCVD>
    ghost var trades: seq<AggTrade>

    function Maps(): State
      reads this
    {
      State(cvdPerSymbol, minuteAgg, lastFlush)
    }

    /** The fields are those of the run over every trade handled so far. */
    ghost predicate Valid()
      reads this
    {
      Run(trades) == (emitted, Maps())
    }

    constructor ()
      ensures Valid() && trades == []
      ensures cvdPerSymbol == map[] && minuteAgg == map[] && lastFlush == map[] && emitted == []
    {
      cvdPerSymbol := map[];
      minuteAgg := map[];
      lastFlush := map[];
      emitted := [];
      trades := [];
    }

    /** The body of handleTrade: one atomic update of the three maps,
        storing the record of the minute it closes, if any. */
    method Apply(t: AggTrade)
      modifies this
      ensures Maps() == Step(old(Maps()), t).0
      ensures emitted == old(emitted) + Flushes(Step(old(Maps()), t).1)
      ensures trades == old(trades)
    {
      ghost var next := Step(Maps(), t);
      var rounded := TruncateToMinute(t.timestampMs);
      var key := (t.symbol, rounded);
      var value := Notional(t);

      cvdPerSymbol := cvdPerSymbol[t.symbol := Get(cvdPerSymbol, t.symbol) + value];
      minuteAgg := minuteAgg[key := Get(minuteAgg, key) + value];

      if t.symbol !in lastFlush {
        StepFirstTrade(old(Maps()), t);
        lastFlush := lastFlush[t.symbol := rounded];
      } else if rounded > lastFlush[t.symbol] {
        StepLaterMinute(old(Maps()), t);
        var last := lastFlush[t.symbol];
        var prevKey := (t.symbol, last);
        var val := Get(minuteAgg, prevKey);
        emitted := emitted + [MinuteCVD(last, t.symbol, val)];
        minuteAgg := minuteAgg - {prevKey};
        lastFlush := lastFlush[t.symbol := rounded];
      } else {
        StepSameOrLateMinute(old(Maps()), t);
      }
    }

    /** handleTrade: the update above, after which the object is the run of
        one more trade. */
    method HandleTrade(t: AggTrade)
      requires Valid()
      modifies this
      ensures Valid() && trades == old(trades) + [t]
      ensures Maps() == Step(old(Maps()), t).0
      ensures emitted == old(emitted) + Flushes(Step(old(Maps()), t).1)
    {
      Apply(t);
      RunExtends(trades, old(emitted), old(Maps()), t, emitted, Maps());
      trades := trades + [t];
    }
  }
}
