# cvd-bot core, modelled in Dafny

The cvd bot subscribes to Binance futures aggregated-trade streams, computes a
cumulative volume delta (CVD) per symbol in dollars, closes one record per
symbol and minute and hands it to storage, and answers `/cvd` and `/topcvd` on Telegram.
This project models three parts of it and proves what they guarantee:

- `aggregator.dfy` (module `Aggregator`): the trade handler of
  `exchange/aggregator.go`. The three package maps are the fields of the class
  `MinuteAggregator`. Its `HandleTrade` updates them in place (the update is
  the method `Apply`) and is proved to follow the transition function
  `Step`. `Run` folds `Step` over a trade history. The invariant `Inv` is
  proved for every history. From it follow:
  - running totals are the sums of the trades;
  - the open minute's bucket is exact;
  - records handed to storage carry the exact sum of their minute;
  - per symbol, the minutes handed to storage strictly increase and none is
    handed on twice;
  - every minute's notional is either handed to storage or still held in its
    bucket.
- `binance.dfy` (module `Binance`): the pure helpers of
  `exchange/binance.go`:
  - the trade direction from the buyer-is-maker flag;
  - the TRADING/USDT symbol filter;
  - `chunkSymbols` and `StartStream`'s split into groups of at most 150
    streams;
  - the combined-stream suffix.
- `telegram.dfy` (module `Telegram`): the pure parts of
  `telegram/client.go`:
  - `formatNumber`'s grouping of digits by thousands;
  - the sign and absolute value shown;
  - ticker normalisation to the USDT pair;
  - the argument checks of `/cvd` and `/topcvd`.
- `strings.dfy` (module `Strings`): the Go standard-library string functions
  the core relies on, written over `seq<char>`:
  - `strings.ToLower` and `strings.ToUpper`, `strings.HasSuffix`,
    `strings.Join`, `strings.Fields` and `strings.TrimSpace` (white space as
    `unicode.IsSpace` defines it);
  - `strconv.Atoi`, with its 64-bit range.

  `Fields` is pinned down completely: the words separated by any non-empty
  runs of white space, with any white space before and after, come back
  unchanged (`FieldsOfSpaced`), and every text has that form for the words
  `Fields` returns (`SpacedFields`).

Some values arrive from I/O in the source. In the model they are parameters:
- `DownloadSymbols` receives the decoded exchange-info listing.
- `TradeFromMessage` receives the fields of a decoded stream message, with
  quantity and price already parsed.
- `FormatNumber` receives the text `strconv.FormatFloat(n, 'f', 0, 64)`
  produced.
- A trade's time is its Unix-millisecond timestamp.
- Amounts are `real`.
- Storage's `SaveMinuteCVD` is modelled by the records a step returns, which
  `MinuteAggregator` appends to `emitted`. `emitted` is what is handed to
  storage, not what storage keeps (see "Left out").

## Model

| member | source | states |
|---|---|---|
| Aggregator.TruncateToMinute | exchange/aggregator.go:32 | the bucket minute is a multiple of 60000 ms and is the start of the minute holding the trade's time |
| Aggregator.TruncateUnique | exchange/aggregator.go:32 | that minute start is the only one with this property |
| Aggregator.BucketKeyInjective | exchange/aggregator.go:33 | a symbol followed by a 12-character minute stamp determines both parts; the model keys buckets by the pair (symbol, minute), which departs from the source when two minutes format alike (see "Left out") |
| Aggregator.Get | exchange/aggregator.go:39-40 | reading a map gives the stored value, or Go's zero value 0 for a missing key (also at exchange/aggregator.go:51-54) |
| Aggregator.Notional | exchange/aggregator.go:36 | an aggressive buy counts quantity x price, an aggressive sell its negation |
| Aggregator.Step | exchange/aggregator.go:32-65 | a record is handed on exactly when the symbol has an open minute and the trade's minute is later; it is for that symbol and the open minute, whose bucket is then gone; the symbol's running total grows by the trade's notional; the symbol's open minute is afterwards at least the trade's minute |
| Aggregator.InvInitial | exchange/aggregator.go:16-22 | the empty maps satisfy the aggregator invariant for the empty history |
| Aggregator.StepKeepsInv | exchange/aggregator.go:28-66 | one handled trade preserves the invariant (shared keys, exact totals, open bucket present, ordered and conserved records) |
| Aggregator.RunKeepsInv | exchange/aggregator.go:28-66 | after any history of trades the maps and the records handed to storage satisfy the invariant |
| Aggregator.StepFirstTrade | exchange/aggregator.go:36-64 | a symbol's first trade hands nothing to storage and opens the trade's minute; its notional is added to the running total and to its minute's bucket, and no other entry changes |
| Aggregator.StepSameOrLateMinute | exchange/aggregator.go:36-48 | a trade of the open or an earlier minute hands nothing to storage and keeps the open minute; its notional is added to the running total and to its minute's bucket, and no other entry changes |
| Aggregator.StepLaterMinute | exchange/aggregator.go:36-65 | a trade of a later minute hands exactly the open minute's bucket to storage, deletes it and opens the trade's minute; its notional is added to the running total and to its minute's bucket, and no other entry changes |
| Aggregator.StepOtherSymbolsUnchanged | exchange/aggregator.go:28-66 | a trade changes no entry of any other symbol |
| Aggregator.StepLastFlushMonotone | exchange/aggregator.go:48-65 | a symbol's open minute never moves back |
| Aggregator.RunningTotalIsSymbolSum | exchange/aggregator.go:36-39 | a symbol has a running total iff one of its trades was seen, and the total is the sum of direction x quantity x price over all of them |
| Aggregator.OpenBucketNeedsTrade | exchange/aggregator.go:42-64 | a symbol has an open minute only after one of its trades |
| Aggregator.OpenBucketIsMinuteSum | exchange/aggregator.go:40-64 | the open minute's bucket always exists and holds the sum of that symbol's trades in that minute |
| Aggregator.FlushedValueIsMinuteSum | exchange/aggregator.go:49-61 | a record handed to storage is for the trade's symbol and its previous open minute, which lies before the trade's minute, and carries that minute's exact sum |
| Aggregator.FlushesOrdered | exchange/aggregator.go:48-64 | per symbol, the minutes handed to storage strictly increase |
| Aggregator.FlushedAtMostOnce | exchange/aggregator.go:48-64 | no (symbol, minute) is handed to storage twice |
| Aggregator.NothingLost | exchange/aggregator.go:40-62 | each (symbol, minute)'s total notional equals what was handed to storage for it plus what its bucket still holds |
| Aggregator.RunLogExtends | exchange/aggregator.go:56-61 | later trades only append records; earlier ones are never changed |
| Aggregator.LateTradesNeverReflushed | exchange/aggregator.go:48-64 | once a minute is handed to storage, no later trade hands it on again |
| Aggregator.WorkedExample | exchange/aggregator.go:28-66 | +100 $ and -200 $ in minute 0 and +100 $ in minute 1 hand one record of -100 $ for minute 0, leaving minute 1 open with 100 $ and the running total at 0 |
| Aggregator.MinuteAggregator.constructor | exchange/aggregator.go:16-22 | the maps start empty, nothing has been handed to storage, and the object is the run of no trades |
| Aggregator.MinuteAggregator.Apply | exchange/aggregator.go:32-65 | the in-place update of the three maps leaves them equal to `Step` of the old maps and appends the record `Step` hands to storage, if any |
| Aggregator.MinuteAggregator.HandleTrade | exchange/aggregator.go:28-66 | after the update the object is still the run of every trade handled, now one longer |
| Binance.IfThenElse | exchange/binance.go:159-164 | the first value when the condition holds, the second otherwise |
| Binance.Direction | exchange/binance.go:125 | the direction is -1 exactly when the buyer is the maker, otherwise +1 |
| Binance.TradeFromMessage | exchange/binance.go:121-127 | the trade copies symbol, quantity, price and time from the message, with that direction |
| Binance.TradableSymbols | exchange/binance.go:79-83 | the filter keeps at most one name per entry, and drops none exactly when every entry is TRADING and quoted in USDT |
| Binance.TradableSymbolsMembership | exchange/binance.go:78-84 | a name is listed iff some listing entry with that name is TRADING and quoted in USDT |
| Binance.TradableSymbolsAppend | exchange/binance.go:79-83 | filtering a concatenation filters each part, so listing order is kept |
| Binance.DownloadSymbols | exchange/binance.go:78-84 | the loop returns exactly the filtered symbols in order, no more of them than entries |
| Binance.ChunkSymbols | exchange/binance.go:143-153 | the chunks concatenate to the input, each holds 1 to size symbols, all but the last exactly size |
| Binance.ChunkCount | exchange/binance.go:143-153 | the number of such chunks is the ceiling of n / size |
| Binance.StartStream | exchange/binance.go:52-57 | the connection groups cover every symbol once, in order, each with at most 150 streams, and there are ceiling(n / 150) of them |
| Binance.StreamName | exchange/binance.go:138 | the name is as long as the symbol plus "@aggTrade", holds no upper-case ASCII letter in the symbol part, and ends in "@aggTrade" |
| Binance.StreamNames | exchange/binance.go:136-139 | one stream name per symbol: the lower-cased symbol followed by "@aggTrade" |
| Binance.BuildStreamSuffix | exchange/binance.go:135-141 | the suffix is the stream names joined by "/", empty for no symbols |
| Binance.StreamNameHasNoSlash | exchange/binance.go:138 | a stream name contains no "/" when its symbol has none |
| Binance.StreamSuffixSplits | exchange/binance.go:135-141 | splitting the suffix at "/" gives back each symbol's stream name, in order |
| Strings.ToLower | exchange/binance.go:138 | ASCII only: same length, no upper-case ASCII letter left, every other character kept, and each upper-case letter replaced by the letter that upper-cases back to it |
| Strings.ToUpper | telegram/client.go:79 | ASCII only: same length, no lower-case ASCII letter left, every other character kept, and each lower-case letter replaced by the letter that lower-cases back to it |
| Strings.HasSuffixSplits | telegram/client.go:81 | a text has the suffix exactly when it is some text followed by the suffix |
| Strings.HasSuffixOfAppend | telegram/client.go:81-83 | any text followed by the suffix has it, so appending "USDT" makes the check succeed |
| Strings.Join | exchange/binance.go:140 | no parts give the empty text; otherwise the result begins with the first part |
| Strings.SplitJoin | exchange/binance.go:140 | joining parts free of the separator is undone by splitting at it |
| Strings.TrimLeft | telegram/client.go:46 | the result is a suffix of the input that begins with no white space, and everything removed is white space |
| Strings.TrimRight | telegram/client.go:46 | the result is a prefix of the input that ends with no white space, and everything removed is white space |
| Strings.TrimSpace | telegram/client.go:46 | the result is no longer than the input, neither begins nor ends with white space, and is empty exactly when the input is all white space |
| Strings.TrimLeftSpaces | telegram/client.go:46 | TrimLeft removes exactly the white space in front of a text that starts with no white space |
| Strings.TrimRightSpaces | telegram/client.go:46 | TrimRight removes exactly the white space after a text that ends with no white space |
| Strings.TrimSpacePadded | telegram/client.go:46 | TrimSpace gives back a word whatever white space surrounds it |
| Strings.Fields | telegram/client.go:73 | every field is a non-empty run of non-space characters |
| Strings.FieldsSkipSpaces | telegram/client.go:73 | leading white space does not change the fields |
| Strings.FieldsOfSpaced | telegram/client.go:73 | words separated by non-empty runs of white space, with any white space before and after, come back unchanged from Fields |
| Strings.SpacedFields | telegram/client.go:73 | every text is the words Fields returns with such runs of white space around and between them |
| Strings.Atoi | telegram/client.go:46 | a result lies within the 64-bit range; the empty text fails; a result needs a first character that is a digit, or a sign with more after it, and only digits after the first character; a negative result needs a leading "-" |
| Strings.AtoiDecimal | telegram/client.go:85 | Atoi reads back the decimal spelling of every non-negative 64-bit value |
| Strings.AtoiDigits | telegram/client.go:85 | a digit string reads as its value when that fits in 64 bits, and is refused otherwise |
| Strings.AtoiPlusDigits | telegram/client.go:85 | a "+" in front of digits changes nothing |
| Strings.AtoiMinusDigits | telegram/client.go:85 | a "-" in front of digits negates their value, down to the smallest 64-bit value, and is refused beyond it |
| Strings.DecimalValueLeadingZeros | telegram/client.go:85 | leading zeros do not change the value of a digit string |
| Strings.AtoiLeadingZeros | telegram/client.go:85 | leading zeros, with or without a sign, do not change what Atoi reads |
| Strings.AtoiOutOfRange | telegram/client.go:85 | a decimal value beyond the 64-bit range is refused, with or without a sign |
| Strings.AtoiSigned | telegram/client.go:85 | Atoi reads back a "+" or "-" followed by a decimal spelling, down to the smallest 64-bit value |
| Strings.ToUpperIdempotent | telegram/client.go:79 | upper-casing twice is upper-casing once |
| Telegram.FormatNumber | telegram/client.go:115-129 | the right-to-left loop produces the digits grouped by thousands and joined by single spaces |
| Telegram.Grouped | telegram/client.go:115-129 | n digits gain (n - 1) / 3 spaces, and the output begins with the first digit and ends with the last, so it never begins or ends with a space |
| Telegram.GroupedIsJoin | telegram/client.go:119-127 | the grouping is the groups of three, counted from the right, joined by single spaces |
| Telegram.GroupedCons | telegram/client.go:121-126 | one more leading digit either starts a new group (adding a space) or joins the first group |
| Telegram.ThousandGroupsShape | telegram/client.go:119-127 | the groups concatenate to the digits; the first has 1 to 3 digits, every other exactly 3 |
| Telegram.GroupedSplits | telegram/client.go:119-128 | splitting the output at spaces gives exactly the groups, and joining those gives back the digits |
| Telegram.GroupedShort | telegram/client.go:121-127 | up to three digits are returned unchanged |
| Telegram.Abs | telegram/client.go:131-136 | the result is non-negative and is the argument or its negation |
| Telegram.Sign | telegram/client.go:97-100 | the sign is "-" exactly for negative sums, "+" otherwise |
| Telegram.SignAndAbsGiveSum | telegram/client.go:97-102 | the shown sign and absolute amount determine the sum |
| Telegram.NormalizeSymbol | telegram/client.go:79-83 | the result always ends in "USDT"; it is the upper-cased ticker, with "USDT" appended exactly when not already there |
| Telegram.NormalizeSymbolIdempotent | telegram/client.go:79-83 | normalising an already normalised ticker changes nothing |
| Telegram.ParseCvdArgs | telegram/client.go:73-89 | the usage reply iff there are not exactly two fields; the bad-period reply iff the second field is not a positive int; otherwise a query for the normalised first field over that many minutes |
| Telegram.CvdQueryOfWords | telegram/client.go:73-89 | a ticker word and a positive decimal minute count, with any white space before, between and after them, query exactly that ticker, normalised, over exactly that many minutes |
| Telegram.CvdUsageOfWords | telegram/client.go:73-77 | any other number of words than two, however spaced, gets the usage reply |
| Telegram.ParseTopCvdArgs | telegram/client.go:43-51 | limit 20; the period is the trimmed argument when it is a positive int, otherwise 10 |
| Telegram.TopCvdOfMinutes | telegram/client.go:43-49 | a positive decimal minute count, with any white space around it, is taken as the period unchanged |

## Left out

- The mutex around `handleTrade` is not modelled. Concurrent calls are serialised by it, so each call is one atomic `HandleTrade`.
- The goroutine per connection in `StartStream` is not modelled; the model returns the symbol groups.
- The WebSocket dialing and read loop of `connectToStream`, the HTTP GET and JSON decoding of `DownloadSymbols`, and the log messages are not modelled. Their inputs are parameters.
- `parseFloat` (`strconv.ParseFloat`) is not modelled.
- `strconv.FormatFloat` is not modelled: `FormatNumber` takes its output text.
- Amounts are unbounded `real`s. IEEE rounding, overflow and negative zero are not modelled.
- `Aggregator.Step` uses map membership for "no minute opened yet" instead of Go's zero `time.Time`. A trade stamped at the zero time itself is not told apart.
- `Aggregator.BucketKeyInjective`: the model keys a bucket by the pair (symbol, minute) instead of by the symbol concatenated with the minute formatted in local time. The lemma proves only that a symbol and a 12-character stamp can be read back from their concatenation; calendar formatting and time zones are not modelled. The pair key departs from the source when two different minutes format alike. Across a daylight-saving fall-back the repeated local hour gives a later minute the same stamp as the open one. The source's `key` then equals `prevKey`: the trade's notional lands in the bucket that is handed to storage, and the delete leaves the newly opened minute without a bucket. The model keeps the two minutes apart.
- `Strings.ToUpper`, `Strings.ToLower`: ASCII letters only. Go's Unicode case mapping of other letters is not modelled.
- `Binance.ChunkSymbols` requires a positive size; the only caller passes 150. In Go, a size of 0 makes the loop run forever on a non-empty list, and a negative size makes `symbols[i:end]` panic on one. For an empty list both return no chunks.
- Buckets of a minute earlier than the open one are filled by late trades but never handed to storage or deleted. The model keeps them in `minuteAgg`, as the source does, and `Aggregator.NothingLost` accounts for them.
- `storage.SaveMinuteCVD` (storage/sqlite.go:41-47) logs a failed insert and drops the record. The model's `emitted` holds every record handed to storage, and the properties about it say nothing about what the database keeps.
- `StartTelegramBot`, `reply`, `handleUnknownCommand`, the reply texts and the storage queries (`storage/sqlite.go`) are not modelled. The model stops at the query parameters and the formatted amount.
- `main.go` is not part of this model.
