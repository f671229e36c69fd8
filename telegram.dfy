/**
 * The pure parts of the bot's command handlers (telegram/client.go):
 * grouping the digits of an amount by thousands, the sign and absolute value
 * shown for a sum, the normalisation of a ticker to its USDT pair, and the
 * argument checks of /cvd and /topcvd.
 */
module Telegram {
  import opened Strings

  /** /topcvd looks back this many minutes unless told otherwise. */
  const DefaultTopMinutes: int := 10

  /** /topcvd asks storage for this many symbols. */
  const TopLimit: int := 20

  const QuoteAsset: string := "USDT"

  // ---------------------------------------------------------------------
  // formatNumber

  /** The digits split into groups of three counted from the right; the
      first group keeps the remaining one to three digits. */
  function ThousandGroups(s: string): (groups: seq<string>)
    ensures |groups| >= 1
    decreases |s|
  {
    if |s| <= 3 then [s] else ThousandGroups(s[..|s| - 3]) + [s[|s| - 3..]]
  }

  /** The digits with a space in front of every third one counted from the
      right, except the first digit: n digits gain (n - 1) / 3 spaces, and
      the output begins with the first digit and ends with the last, so it
      never begins or ends with a space. */
  function Grouped(s: string): (r: string)
    ensures |s| > 0 ==> |r| == |s| + (|s| - 1) / 3
    ensures |s| > 0 ==> r[0] == s[0] && r[|r| - 1] == s[|s| - 1]
    decreases |s|
  {
    if |s| <= 3 then s else Grouped(s[..|s| - 3]) + " " + s[|s| - 3..]
  }

  /** Grouping is joining the groups of three with single spaces. */
  lemma {:induction false} GroupedIsJoin(s: string)
    ensures Grouped(s) == Join(ThousandGroups(s), ' ')
    decreases |s|
  {
    if |s| > 3 {
      var init := s[..|s| - 3];
      GroupedIsJoin(init);
      JoinAppend(ThousandGroups(init), s[|s| - 3..], ' ');
    }
  }

  /** One more digit in front either starts a new group or widens the first. */
  lemma {:induction false} ThousandGroupsCons(c: char, t: string)
    requires |t| > 0
    ensures |t| % 3 == 0 ==> ThousandGroups([c] + t) == [[c]] + ThousandGroups(t)
    ensures |t| % 3 != 0 ==>
              ThousandGroups([c] + t) == [[c] + ThousandGroups(t)[0]] + ThousandGroups(t)[1..]
    decreases |t|
  {
    var ct := [c] + t;
    if |t| < 3 {
      assert ThousandGroups(ct) == [ct];
      assert ThousandGroups(t) == [t];
    } else if |t| == 3 {
      assert ct[..|ct| - 3] == [c];
      assert ct[|ct| - 3..] == t;
      assert ThousandGroups(ct) == ThousandGroups([c]) + [t];
      assert ThousandGroups([c]) == [[c]];
    } else {
      var init := t[..|t| - 3];
      var last := t[|t| - 3..];
      ThousandGroupsCons(c, init);
      assert ct[..|ct| - 3] == [c] + init;
      assert ct[|ct| - 3..] == last;
      assert ThousandGroups(ct) == ThousandGroups([c] + init) + [last];
      assert ThousandGroups(t) == ThousandGroups(init) + [last];
      var gi := ThousandGroups(init);
      if |t| % 3 == 0 {
        assert ThousandGroups([c] + init) == [[c]] + gi;
      } else {
        assert ThousandGroups([c] + init) == [[c] + gi[0]] + gi[1..];
        assert (gi + [last])[1..] == gi[1..] + [last];
      }
    }
  }

  lemma GroupedCons(c: char, t: string)
    ensures Grouped([c] + t) == if |t| % 3 == 0 && |t| > 0 then [c] + [' '] + Grouped(t) else [c] + Grouped(t)
  {
    GroupedIsJoin([c] + t);
    GroupedIsJoin(t);
    if |t| == 0 {
      AppendEmpty([c]);
    } else if |t| % 3 == 0 {
      ThousandGroupsCons(c, t);
      var gs := ThousandGroups(t);
      JoinCons([[c]] + gs, ' ');
      assert ([[c]] + gs)[1..] == gs;
      AppendAssoc([c], [' '], Join(gs, ' '));
    } else {
      ThousandGroupsCons(c, t);
      var gs := ThousandGroups(t);
      JoinConsHead(c, gs[0], gs[1..], ' ');
      HeadTail(gs);
    }
  }

  /** The space formatNumber still owes in front of the digits from index
      i + 1 on, once |text| - 1 - i of them have been copied. */
  function PendingSpace(text: string, i: int): string
  {
    var count := |text| - 1 - i;
    if count % 3 == 0 && count > 0 && i >= 0 then " " else ""
  }

  /** Copying digit i in front of what the loop has built, together with
      the space owed, gives the grouping of the digits from i on. */
  lemma FormatNumberStep(text: string, i: int)
    requires 0 <= i < |text|
    ensures [text[i]] + (PendingSpace(text, i) + Grouped(text[i + 1..])) == Grouped(text[i..])
  {
    var c, t := text[i], text[i + 1..];
    ConsSlice(text, i);
    GroupedCons(c, t);
    if |t| % 3 == 0 && |t| > 0 {
      assert PendingSpace(text, i) == " ";
      AppendAssoc([c], " ", Grouped(t));
    } else {
      assert PendingSpace(text, i) == "";
      EmptyAppend("", Grouped(t));
    }
  }

  /** formatNumber on the text FormatFloat produced: walks the digits from
      the right and puts a space in front of every third one except the
      first digit. */
  method FormatNumber(text: string) returns (r: string)
    ensures r == Grouped(text)
  {
    var result: string := [];
    var count := 0;
    var i := |text| - 1;
    while i >= 0
      invariant -1 <= i < |text|
      invariant count == |text| - 1 - i
      invariant result == PendingSpace(text, i) + Grouped(text[i + 1..])
    {
      FormatNumberStep(text, i);
      result := [text[i]] + result;
      count := count + 1;
      if count % 3 == 0 && i != 0 {
        result := [' '] + result;
        assert PendingSpace(text, i - 1) == " ";
      } else {
        assert PendingSpace(text, i - 1) == "";
        EmptyAppend("", result);
      }
      i := i - 1;
    }
    assert text[0..] == text;
    r := result;
  }

  /** The groups give back the digits; the first has one to three of them,
      every other exactly three. */
  lemma {:induction false} ThousandGroupsShape(s: string)
    requires |s| > 0
    ensures var gs := ThousandGroups(s);
            && Concat(gs) == s
            && 1 <= |gs[0]| <= 3
            && forall i :: 1 <= i < |gs| ==> |gs[i]| == 3
    decreases |s|
  {
    if |s| <= 3 {
      assert Concat([s]) == Concat([]) + s;
    } else {
      var init := s[..|s| - 3];
      ThousandGroupsShape(init);
      ConcatAppend(ThousandGroups(init), s[|s| - 3..]);
      assert init + s[|s| - 3..] == s;
    }
  }

  /** Splitting the output at its spaces gives exactly the groups, so
      removing the spaces gives back the digits. */
  lemma GroupedSplits(s: string)
    requires |s| > 0
    requires ' ' !in s
    ensures Split(Grouped(s), ' ') == ThousandGroups(s)
    ensures Concat(Split(Grouped(s), ' ')) == s
  {
    GroupedIsJoin(s);
    ThousandGroupsShape(s);
    ThousandGroupsAvoid(s, ' ');
    SplitJoin(ThousandGroups(s), ' ');
  }

  /** A character missing from the digits is missing from every group. */
  lemma {:induction false} ThousandGroupsAvoid(s: string, c: char)
    requires c !in s
    ensures forall i :: 0 <= i < |ThousandGroups(s)| ==> c !in ThousandGroups(s)[i]
    decreases |s|
  {
    if |s| > 3 {
      var init := s[..|s| - 3];
      var last := s[|s| - 3..];
      assert s == init + last;
      assert c !in init && c !in last;
      ThousandGroupsAvoid(init, c);
    }
  }

  /** Up to three digits are left as they are. */
  lemma GroupedShort(s: string)
    requires |s| <= 3
    ensures Grouped(s) == s
  {
  }

  // ---------------------------------------------------------------------
  // Sign and absolute value

  function Abs(f: real): (r: real)
    ensures r >= 0.0
    ensures r == f || r == -f
  {
    if f < 0.0 then -f else f
  }

  /** The sign shown in front of an amount. */
  function Sign(sum: real): (sign: string)
    ensures sign == "-" || sign == "+"
    ensures sign == "-" <==> sum < 0.0
  {
    if sum < 0.0 then "-" else "+"
  }

  /** The shown sign and amount determine the sum. */
  lemma SignAndAbsGiveSum(sum: real)
    ensures (if Sign(sum) == "-" then -Abs(sum) else Abs(sum)) == sum
  {
  }

  // ---------------------------------------------------------------------
  // Ticker normalisation

  /** The ticker upper-cased, with "USDT" appended unless already there. */
  function NormalizeSymbol(arg: string): (sym: string)
    ensures HasSuffix(sym, QuoteAsset)
    ensures sym == ToUpper(arg) <==> HasSuffix(ToUpper(arg), QuoteAsset)
    ensures sym == ToUpper(arg) || sym == ToUpper(arg) + QuoteAsset
  {
    var upper := ToUpper(arg);
    if HasSuffix(upper, QuoteAsset) then upper else upper + QuoteAsset
  }

  /** Normalising twice is normalising once. */
  lemma NormalizeSymbolIdempotent(arg: string)
    ensures NormalizeSymbol(NormalizeSymbol(arg)) == NormalizeSymbol(arg)
  {
    var upper := ToUpper(arg);
    var sym := NormalizeSymbol(arg);
    ToUpperIdempotent(arg);
    if sym != upper {
      ToUpperAppend(upper, QuoteAsset);
      assert ToUpper(QuoteAsset) == QuoteAsset;
    }
    assert ToUpper(sym) == sym;
  }

  // ---------------------------------------------------------------------
  // Command arguments

  /** What /cvd does with its arguments: the usage reply, the bad-period
      reply, or a query for a symbol over a number of minutes. */
  datatype CvdAction = Usage | BadPeriod | Query(symbol: string, minutes: int)

  /** The argument checks of handleCVD. */
  function ParseCvdArgs(args: string): (action: CvdAction)
    ensures action == Usage <==> |Fields(args)| != 2
    ensures action == BadPeriod <==>
              |Fields(args)| == 2 && !(Atoi(Fields(args)[1]).Some? && Atoi(Fields(args)[1]).value > 0)
    ensures action.Query? ==>
              && action.minutes > 0
              && Atoi(Fields(args)[1]) == Some(action.minutes)
              && action.symbol == NormalizeSymbol(Fields(args)[0])
  {
    var fields := Fields(args);
    if |fields| != 2 then Usage
    else
      var symbol := NormalizeSymbol(fields[0]);
      match Atoi(fields[1])
      case None => BadPeriod
      case Some(minutes) => if minutes <= 0 then BadPeriod else Query(symbol, minutes)
  }

  lemma DecimalIsWord(n: nat)
    ensures IsWord(Decimal(n))
  {
    var d := Decimal(n);
    forall j | 0 <= j < |d| ensures !IsSpace(d[j]) {
      assert IsDigit(d[j]);
    }
  }

  /** "/cvd <ticker> <minutes>" queries the normalised ticker over exactly
      that many minutes, for every ticker word, positive minute count and
      white space before, between and after the two. */
  lemma CvdQueryOfWords(ticker: string, minutes: nat, gaps: seq<string>)
    requires IsWord(ticker)
    requires 0 < minutes <= MaxInt64
    requires ValidGaps(gaps, 2)
    ensures ParseCvdArgs(Spaced([ticker, Decimal(minutes)], gaps)) == Query(NormalizeSymbol(ticker), minutes)
  {
    var words := [ticker, Decimal(minutes)];
    DecimalIsWord(minutes);
    FieldsOfSpaced(words, gaps);
    AtoiDecimal(minutes);
  }

  /** Any other number of words than two gets the usage reply. */
  lemma CvdUsageOfWords(words: seq<string>, gaps: seq<string>)
    requires forall i :: 0 <= i < |words| ==> IsWord(words[i])
    requires ValidGaps(gaps, |words|)
    requires |words| != 2
    ensures ParseCvdArgs(Spaced(words, gaps)) == Usage
  {
    FieldsOfSpaced(words, gaps);
  }

  /** The minutes and limit /topcvd asks storage for. */
  datatype TopCvdQuery = TopCvdQuery(minutes: int, limit: int)

  /** The argument handling of handleTopCVD. */
  function ParseTopCvdArgs(args: string): (q: TopCvdQuery)
    ensures q.limit == TopLimit
    ensures q.minutes > 0
    ensures var v := Atoi(TrimSpace(args));
            q.minutes == if v.Some? && v.value > 0 then v.value else DefaultTopMinutes
  {
    var minutes :=
      if args != "" then
        match Atoi(TrimSpace(args))
        case Some(v) => if v > 0 then v else DefaultTopMinutes
        case None => DefaultTopMinutes
      else DefaultTopMinutes;
    TopCvdQuery(minutes, TopLimit)
  }

  /** "/topcvd <minutes>" looks back exactly that many minutes, whatever
      white space surrounds the number. */
  lemma TopCvdOfMinutes(minutes: nat, pre: string, post: string)
    requires 0 < minutes <= MaxInt64
    requires AllSpace(pre) && AllSpace(post)
    ensures ParseTopCvdArgs(pre + Decimal(minutes) + post) == TopCvdQuery(minutes, TopLimit)
  {
    DecimalIsWord(minutes);
    TrimSpacePadded(pre, Decimal(minutes), post);
    AtoiDecimal(minutes);
  }
}
