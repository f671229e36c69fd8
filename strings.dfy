/**
 * The parts of Go's `strings` and `strconv` packages that the bot's helpers
 * rely on, written out as functions over `seq<char>`: ASCII case mapping,
 * `HasSuffix`, `Join`, `Split`, `Fields`, `TrimSpace` and `Atoi`.
 */
module Strings {

  datatype Option<+T> = None | Some(value: T)

  /** The concatenation of a sequence of sequences, first to last. */
  function Concat<T>(xs: seq<seq<T>>): seq<T>
  {
    if xs == [] then [] else Concat(xs[..|xs| - 1]) + xs[|xs| - 1]
  }

  lemma ConcatAppend<T>(xs: seq<seq<T>>, x: seq<T>)
    ensures Concat(xs + [x]) == Concat(xs) + x
  {
    assert (xs + [x])[..|xs|] == xs;
  }

  /** A non-empty sequence is its front followed by its last element. */
  lemma InitLast<T>(s: seq<T>)
    requires |s| > 0
    ensures s[..|s| - 1] + [s[|s| - 1]] == s
  {
  }

  /** Appending to a sequence keeps each of its prefixes. */
  lemma PrefixOfAppend<T>(a: seq<T>, b: seq<T>, p: seq<T>)
    requires |p| <= |a| && a[..|p|] == p
    ensures |p| <= |a + b| && (a + b)[..|p|] == p
  {
    assert (a + b)[..|p|] == a[..|p|];
  }

  lemma ConsSlice<T>(s: seq<T>, i: nat)
    requires i < |s|
    ensures [s[i]] + s[i + 1..] == s[i..]
  {
  }

  lemma PrefixSlices<T>(s: seq<T>, i: nat, j: nat)
    requires i <= j <= |s|
    ensures s[..i] + s[i..j] == s[..j]
  {
  }

  lemma SplitAt<T>(s: seq<T>, i: nat)
    requires i <= |s|
    ensures s == s[..i] + s[i..]
  {
  }

  lemma AppendEmpty<T>(a: seq<T>)
    ensures a + [] == a
  {
  }

  lemma HeadTail<T>(s: seq<T>)
    requires |s| > 0
    ensures [s[0]] + s[1..] == s
  {
  }

  lemma EmptyAppend<T>(a: seq<T>, b: seq<T>)
    requires a == []
    ensures a + b == b
  {
  }

  lemma ConsSplit<T>(a: seq<T>, b: seq<T>)
    requires |a| > 0
    ensures a + b == [a[0]] + (a[1..] + b)
  {
  }

  lemma AppendAssoc<T>(a: seq<T>, b: seq<T>, c: seq<T>)
    ensures a + b + c == a + (b + c)
  {
  }

  // ---------------------------------------------------------------------
  // Case mapping (ASCII only)

  function LowerChar(c: char): char
  {
    if 'A' <= c <= 'Z' then (c as int + 32) as char else c
  }

  function UpperChar(c: char): char
  {
    if 'a' <= c <= 'z' then (c as int - 32) as char else c
  }

  /** strings.ToLower restricted to ASCII letters. */
  function ToLower(s: string): (r: string)
    ensures |r| == |s|
    ensures forall i :: 0 <= i < |s| ==> !('A' <= r[i] <= 'Z')
    ensures forall i :: 0 <= i < |s| && !('A' <= s[i] <= 'Z') ==> r[i] == s[i]
    ensures forall i :: 0 <= i < |s| && 'A' <= s[i] <= 'Z' ==> UpperChar(r[i]) == s[i]
  {
    seq(|s|, i requires 0 <= i < |s| => LowerChar(s[i]))
  }

  /** strings.ToUpper restricted to ASCII letters. */
  function ToUpper(s: string): (r: string)
    ensures |r| == |s|
    ensures forall i :: 0 <= i < |s| ==> !('a' <= r[i] <= 'z')
    ensures forall i :: 0 <= i < |s| && !('a' <= s[i] <= 'z') ==> r[i] == s[i]
    ensures forall i :: 0 <= i < |s| && 'a' <= s[i] <= 'z' ==> LowerChar(r[i]) == s[i]
  {
    seq(|s|, i requires 0 <= i < |s| => UpperChar(s[i]))
  }

  lemma ToUpperIdempotent(s: string)
    ensures ToUpper(ToUpper(s)) == ToUpper(s)
  {
  }

  lemma ToUpperAppend(a: string, b: string)
    ensures ToUpper(a + b) == ToUpper(a) + ToUpper(b)
  {
  }

  /** strings.HasSuffix. */
  predicate HasSuffix(s: string, suffix: string)
  {
    |suffix| <= |s| && s[|s| - |suffix|..] == suffix
  }

  /** A text has a suffix exactly when it is something followed by it. */
  lemma HasSuffixSplits(s: string, suffix: string)
    ensures HasSuffix(s, suffix) <==> |suffix| <= |s| && s == s[..|s| - |suffix|] + suffix
  {
    if |suffix| <= |s| {
      assert s == s[..|s| - |suffix|] + s[|s| - |suffix|..];
    }
  }

  lemma HasSuffixOfAppend(p: string, suffix: string)
    ensures HasSuffix(p + suffix, suffix)
  {
    assert (p + suffix)[|p|..] == suffix;
  }

  // ---------------------------------------------------------------------
  // Join and Split with a one-character separator

  /** strings.Join(parts, string(sep)). */
  function Join(parts: seq<string>, sep: char): (r: string)
    ensures |parts| == 0 ==> r == ""
    ensures |parts| > 0 ==> |parts[0]| <= |r| && r[..|parts[0]|] == parts[0]
  {
    if |parts| == 0 then ""
    else if |parts| == 1 then parts[0]
    else parts[0] + [sep] + Join(parts[1..], sep)
  }

  /** strings.Split(s, string(sep)): never empty; "" splits into [""]. */
  function Split(s: string, sep: char): (r: seq<string>)
    ensures |r| >= 1
    decreases |s|
  {
    if |s| == 0 then [""]
    else
      var rest := Split(s[1..], sep);
      if s[0] == sep then [""] + rest else [[s[0]] + rest[0]] + rest[1..]
  }

  lemma {:induction false} JoinAppend(parts: seq<string>, part: string, sep: char)
    requires |parts| > 0
    ensures Join(parts + [part], sep) == Join(parts, sep) + [sep] + part
    decreases |parts|
  {
    if |parts| == 1 {
      assert parts + [part] == [parts[0], part];
    } else {
      assert (parts + [part])[1..] == parts[1..] + [part];
      JoinAppend(parts[1..], part, sep);
    }
  }

  lemma JoinCons(parts: seq<string>, sep: char)
    requires |parts| > 1
    ensures Join(parts, sep) == parts[0] + ([sep] + Join(parts[1..], sep))
  {
  }

  lemma JoinConsHead(c: char, head: string, rest: seq<string>, sep: char)
    ensures Join([[c] + head] + rest, sep) == [c] + Join([head] + rest, sep)
  {
    if |rest| > 0 {
      assert ([[c] + head] + rest)[1..] == rest;
      assert ([head] + rest)[1..] == rest;
    }
  }

  /** Splitting a text that begins with a separator-free word glues that
      word to the first piece of the rest. */
  lemma {:induction false} SplitPrefix(p: string, tail: string, sep: char)
    requires sep !in p
    ensures Split(p + tail, sep) == [p + Split(tail, sep)[0]] + Split(tail, sep)[1..]
    decreases |p|
  {
    if |p| == 0 {
      assert p + tail == tail;
      assert p + Split(tail, sep)[0] == Split(tail, sep)[0];
      assert Split(tail, sep) == [Split(tail, sep)[0]] + Split(tail, sep)[1..];
    } else {
      assert (p + tail)[1..] == p[1..] + tail;
      SplitPrefix(p[1..], tail, sep);
      assert [p[0]] + (p[1..] + Split(tail, sep)[0]) == p + Split(tail, sep)[0];
    }
  }

  /** Splitting undoes joining when no part holds the separator. */
  lemma {:induction false} SplitJoin(parts: seq<string>, sep: char)
    requires |parts| > 0
    requires forall i :: 0 <= i < |parts| ==> sep !in parts[i]
    ensures Split(Join(parts, sep), sep) == parts
    decreases |parts|
  {
    if |parts| == 1 {
      SplitPrefix(parts[0], "", sep);
      assert parts[0] + "" == parts[0];
    } else {
      var rest := Join(parts[1..], sep);
      SplitJoin(parts[1..], sep);
      assert ([sep] + rest)[1..] == rest;
      assert Split([sep] + rest, sep) == [""] + parts[1..];
      assert parts[0] + [sep] + rest == parts[0] + ([sep] + rest);
      SplitPrefix(parts[0], [sep] + rest, sep);
      assert parts[0] + "" == parts[0];
    }
  }

  // ---------------------------------------------------------------------
  // White space, Fields and TrimSpace

  /** unicode.IsSpace: the Latin-1 white space characters and the other
      code points of Unicode's White_Space property. */
  predicate IsSpace(c: char)
  {
    || c == ' ' || c == '\t' || c == '\n' || c == '\r'
    || c == '\U{B}' || c == '\U{C}' || c == '\U{85}' || c == '\U{A0}'
    || c == '\U{1680}' || ('\U{2000}' <= c <= '\U{200A}')
    || c == '\U{2028}' || c == '\U{2029}' || c == '\U{202F}' || c == '\U{205F}'
    || c == '\U{3000}'
  }

  /** A non-empty run of non-space characters. */
  predicate IsWord(w: string)
  {
    |w| > 0 && forall j :: 0 <= j < |w| ==> !IsSpace(w[j])
  }

  /** The text after its leading white space. */
  function TrimLeft(s: string): (r: string)
    ensures |r| <= |s| && r == s[|s| - |r|..]
    ensures r == [] || !IsSpace(r[0])
    ensures forall j :: 0 <= j < |s| - |r| ==> IsSpace(s[j])
  {
    if |s| == 0 || !IsSpace(s[0]) then s else TrimLeft(s[1..])
  }

  /** The text before its trailing white space. */
  function TrimRight(s: string): (r: string)
    ensures |r| <= |s| && r == s[..|r|]
    ensures r == [] || !IsSpace(r[|r| - 1])
    ensures forall j :: |r| <= j < |s| ==> IsSpace(s[j])
  {
    if |s| == 0 || !IsSpace(s[|s| - 1]) then s else TrimRight(s[..|s| - 1])
  }

  /** strings.TrimSpace. */
  function TrimSpace(s: string): (r: string)
    ensures |r| <= |s|
    ensures r == [] || (!IsSpace(r[0]) && !IsSpace(r[|r| - 1]))
    ensures r == [] <==> forall j :: 0 <= j < |s| ==> IsSpace(s[j])
  {
    TrimRight(TrimLeft(s))
  }

  /** The longest prefix of s without white space. */
  function LeadingWord(s: string): (w: string)
    ensures |w| <= |s| && w == s[..|w|]
    ensures forall j :: 0 <= j < |w| ==> !IsSpace(w[j])
    ensures |w| < |s| ==> IsSpace(s[|w|])
  {
    if |s| == 0 || IsSpace(s[0]) then "" else [s[0]] + LeadingWord(s[1..])
  }

  /** strings.Fields: the maximal runs of non-space characters, in order. */
  function Fields(s: string): (r: seq<string>)
    ensures forall i :: 0 <= i < |r| ==> IsWord(r[i])
    decreases |s|
  {
    var t := TrimLeft(s);
    if t == [] then []
    else
      var w := LeadingWord(t);
      assert |w| > 0;
      var r := [w] + Fields(t[|w|..]);
      assert r[0] == w;
      r
  }

  lemma FieldsSkipSpace(c: char, s: string)
    requires IsSpace(c)
    ensures Fields([c] + s) == Fields(s)
  {
    assert ([c] + s)[1..] == s;
  }

  lemma LeadingWordOfWord(w: string, tail: string)
    requires IsWord(w)
    requires tail == [] || IsSpace(tail[0])
    ensures LeadingWord(w + tail) == w
    decreases |w|
  {
    if |w| == 1 {
      assert (w + tail)[1..] == tail;
    } else {
      assert (w + tail)[1..] == w[1..] + tail;
      LeadingWordOfWord(w[1..], tail);
    }
  }

  lemma FieldsOfWordThen(w: string, tail: string)
    requires IsWord(w)
    requires tail == [] || IsSpace(tail[0])
    ensures Fields(w + tail) == [w] + Fields(tail)
  {
    var s := w + tail;
    assert TrimLeft(s) == s;
    LeadingWordOfWord(w, tail);
    assert s[|w|..] == tail;
  }

  /** A run of white space, possibly empty. */
  predicate AllSpace(s: string)
  {
    forall j :: 0 <= j < |s| ==> IsSpace(s[j])
  }

  /** The words with the gaps around and between them:
      gaps[0] + words[0] + gaps[1] + ... + words[n - 1] + gaps[n]. */
  function Spaced(words: seq<string>, gaps: seq<string>): string
    requires |gaps| == |words| + 1
    decreases |words|
  {
    if words == [] then gaps[0] else gaps[0] + words[0] + Spaced(words[1..], gaps[1..])
  }

  /** Gaps of white space around n words: the outer two may be empty, the
      ones between two words may not. */
  predicate ValidGaps(gaps: seq<string>, n: nat)
  {
    && |gaps| == n + 1
    && (forall i :: 0 <= i < |gaps| ==> AllSpace(gaps[i]))
    && (forall i :: 0 < i < n ==> |gaps[i]| > 0)
  }

  lemma {:induction false} FieldsSkipSpaces(pad: string, s: string)
    requires AllSpace(pad)
    ensures Fields(pad + s) == Fields(s)
    decreases |pad|
  {
    if pad == [] {
      EmptyAppend(pad, s);
    } else {
      calc {
        Fields(pad + s);
      == { ConsSplit(pad, s); }
        Fields([pad[0]] + (pad[1..] + s));
      == { FieldsSkipSpace(pad[0], pad[1..] + s); }
        Fields(pad[1..] + s);
      == { FieldsSkipSpaces(pad[1..], s); }
        Fields(s);
      }
    }
  }

  lemma SpacedCons(words: seq<string>, gaps: seq<string>)
    requires |gaps| == |words| + 1 && |words| > 0
    ensures Spaced(words, gaps) == gaps[0] + (words[0] + Spaced(words[1..], gaps[1..]))
  {
  }

  /** Spaced words begin with their leading gap, or with the first word
      when that gap is empty. */
  lemma SpacedFirst(words: seq<string>, gaps: seq<string>)
    requires |gaps| == |words| + 1
    ensures words == [] ==> Spaced(words, gaps) == gaps[0]
    ensures |gaps[0]| > 0 ==> |Spaced(words, gaps)| > 0 && Spaced(words, gaps)[0] == gaps[0][0]
    ensures |gaps[0]| == 0 && |words| > 0 && |words[0]| > 0 ==>
              |Spaced(words, gaps)| > 0 && Spaced(words, gaps)[0] == words[0][0]
  {
    if words != [] {
      SpacedCons(words, gaps);
    }
  }

  lemma ValidGapsTail(gaps: seq<string>, n: nat)
    requires n > 0 && ValidGaps(gaps, n)
    ensures ValidGaps(gaps[1..], n - 1)
  {
    assert forall i :: 0 <= i < |gaps| - 1 ==> gaps[1..][i] == gaps[i + 1];
  }

  /** Spaced words after their first word begin with white space, or are
      empty. */
  lemma SpacedAfterFirst(words: seq<string>, gaps: seq<string>)
    requires |words| > 0 && ValidGaps(gaps, |words|)
    ensures var rest := Spaced(words[1..], gaps[1..]);
            rest == [] || IsSpace(rest[0])
  {
    SpacedFirst(words[1..], gaps[1..]);
    assert AllSpace(gaps[1]);
  }

  /** Fields gives back the words whatever white space surrounds and
      separates them: runs of several characters, tabs, newlines, leading
      and trailing space. */
  lemma {:induction false} FieldsOfSpaced(words: seq<string>, gaps: seq<string>)
    requires forall i :: 0 <= i < |words| ==> IsWord(words[i])
    requires ValidGaps(gaps, |words|)
    ensures Fields(Spaced(words, gaps)) == words
    decreases |words|
  {
    if words == [] {
      calc {
        Fields(Spaced(words, gaps));
      == { SpacedFirst(words, gaps); AppendEmpty(gaps[0]); }
        Fields(gaps[0] + []);
      == { FieldsSkipSpaces(gaps[0], []); }
        Fields([]);
      }
    } else {
      var rest := Spaced(words[1..], gaps[1..]);
      calc {
        Fields(Spaced(words, gaps));
      == { SpacedCons(words, gaps); }
        Fields(gaps[0] + (words[0] + rest));
      == { FieldsSkipSpaces(gaps[0], words[0] + rest); }
        Fields(words[0] + rest);
      == { SpacedAfterFirst(words, gaps); FieldsOfWordThen(words[0], rest); }
        [words[0]] + Fields(rest);
      == { ValidGapsTail(gaps, |words|);
           assert forall i :: 0 <= i < |words| - 1 ==> words[1..][i] == words[i + 1];
           FieldsOfSpaced(words[1..], gaps[1..]); }
        [words[0]] + words[1..];
      == { HeadTail(words); }
        words;
      }
    }
  }

  /** One more word in front of spaced words, after a leading gap. */
  lemma SpacedPrepend(pad: string, w: string, words: seq<string>, gaps: seq<string>)
    requires |gaps| == |words| + 1
    ensures Spaced([w] + words, [pad] + gaps) == pad + w + Spaced(words, gaps)
  {
    assert ([w] + words)[1..] == words;
    assert ([pad] + gaps)[1..] == gaps;
    SpacedCons([w] + words, [pad] + gaps);
  }

  lemma ValidGapsPrepend(pad: string, gaps: seq<string>, n: nat)
    requires AllSpace(pad) && ValidGaps(gaps, n)
    requires n > 0 ==> |gaps[0]| > 0
    ensures ValidGaps([pad] + gaps, n + 1)
  {
    var gs := [pad] + gaps;
    forall i | 0 <= i < |gs| ensures AllSpace(gs[i]) {
      if i > 0 {
        assert gs[i] == gaps[i - 1];
      }
    }
    forall i | 0 < i < n + 1 ensures |gs[i]| > 0 {
      assert gs[i] == gaps[i - 1];
    }
  }

  /** One step of Fields: the white space in front, the first word, the rest. */
  lemma FieldsUnfold(s: string)
    ensures TrimLeft(s) == [] ==> Fields(s) == []
    ensures TrimLeft(s) != [] ==>
              var t := TrimLeft(s);
              Fields(s) == [LeadingWord(t)] + Fields(t[|LeadingWord(t)|..])
  {
  }

  lemma SpacedFieldsStep(pad: string, w: string, fr: seq<string>, gs: seq<string>)
    requires AllSpace(pad) && ValidGaps(gs, |fr|)
    requires |fr| > 0 ==> |gs[0]| > 0
    ensures ValidGaps([pad] + gs, |[w] + fr|)
    ensures Spaced([w] + fr, [pad] + gs) == pad + w + Spaced(fr, gs)
  {
    ValidGapsPrepend(pad, gs, |fr|);
    SpacedPrepend(pad, w, fr, gs);
  }

  /** The white space around and between the words Fields returns. */
  function Gaps(s: string): (g: seq<string>)
    ensures |g| > 0
    decreases |s|
  {
    var t := TrimLeft(s);
    if t == [] then [s]
    else
      var w := LeadingWord(t);
      assert |w| > 0;
      [s[..|s| - |t|]] + Gaps(t[|w|..])
  }

  lemma GapsUnfold(s: string)
    ensures TrimLeft(s) == [] ==> Gaps(s) == [s]
    ensures TrimLeft(s) != [] ==>
              var t := TrimLeft(s);
              Gaps(s) == [s[..|s| - |t|]] + Gaps(t[|LeadingWord(t)|..])
  {
  }

  /** Every text is the words Fields returns with the gaps of white space
      Gaps returns around and between them, so together with FieldsOfSpaced
      this fixes Fields completely. */
  lemma {:induction false} SpacedFields(s: string)
    ensures ValidGaps(Gaps(s), |Fields(s)|)
    ensures Spaced(Fields(s), Gaps(s)) == s
    decreases |s|, 1
  {
    if TrimLeft(s) == [] {
      FieldsUnfold(s);
      GapsUnfold(s);
      SpacedFirst([], [s]);
      assert ValidGaps([s], 0);
    } else {
      SpacedFieldsWord(s);
    }
  }

  lemma {:induction false} SpacedFieldsWord(s: string)
    requires TrimLeft(s) != []
    ensures ValidGaps(Gaps(s), |Fields(s)|)
    ensures Spaced(Fields(s), Gaps(s)) == s
    decreases |s|, 0
  {
    var t := TrimLeft(s);
    var pad := s[..|s| - |t|];
    var w := LeadingWord(t);
    var rest := t[|w|..];
    SplitAt(s, |s| - |t|);
    SplitAt(t, |w|);
    SpacedFields(rest);
    SpacedFieldsCons(s, pad, t, w, rest, Fields(rest), Gaps(rest));
    FieldsUnfold(s);
    GapsUnfold(s);
  }

  lemma SpacedFieldsCons(s: string, pad: string, t: string, w: string, rest: string,
                         fr: seq<string>, gs: seq<string>)
    requires s == pad + t && AllSpace(pad)
    requires t == w + rest && |w| > 0 && (rest == [] || IsSpace(rest[0]))
    requires forall i :: 0 <= i < |fr| ==> IsWord(fr[i])
    requires ValidGaps(gs, |fr|) && Spaced(fr, gs) == rest
    ensures ValidGaps([pad] + gs, |[w] + fr|)
    ensures Spaced([w] + fr, [pad] + gs) == s
  {
    if |fr| > 0 {
      SpacedFirst(fr, gs);
    }
    SpacedFieldsStep(pad, w, fr, gs);
    AppendAssoc(pad, w, rest);
  }

  /** TrimLeft removes exactly the leading white space. */
  lemma {:induction false} TrimLeftSpaces(pad: string, s: string)
    requires AllSpace(pad) && (s == [] || !IsSpace(s[0]))
    ensures TrimLeft(pad + s) == s
    decreases |pad|
  {
    if pad == [] {
      EmptyAppend(pad, s);
    } else {
      calc {
        TrimLeft(pad + s);
      == { ConsSplit(pad, s); }
        TrimLeft([pad[0]] + (pad[1..] + s));
      == { assert ([pad[0]] + (pad[1..] + s))[1..] == pad[1..] + s; }
        TrimLeft(pad[1..] + s);
      == { TrimLeftSpaces(pad[1..], s); }
        s;
      }
    }
  }

  /** TrimRight removes exactly the trailing white space. */
  lemma {:induction false} TrimRightSpaces(s: string, pad: string)
    requires AllSpace(pad) && (s == [] || !IsSpace(s[|s| - 1]))
    ensures TrimRight(s + pad) == s
    decreases |pad|
  {
    if pad == [] {
      AppendEmpty(s);
    } else {
      var init := pad[..|pad| - 1];
      calc {
        TrimRight(s + pad);
      == { assert (s + pad)[..|s + pad| - 1] == s + init; }
        TrimRight(s + init);
      == { TrimRightSpaces(s, init); }
        s;
      }
    }
  }

  /** TrimSpace gives back a word whatever white space surrounds it. */
  lemma TrimSpacePadded(pre: string, w: string, post: string)
    requires IsWord(w) && AllSpace(pre) && AllSpace(post)
    ensures TrimSpace(pre + w + post) == w
  {
    AppendAssoc(pre, w, post);
    TrimLeftSpaces(pre, w + post);
    TrimRightSpaces(w, post);
  }

  // ---------------------------------------------------------------------
  // Decimal integers: strconv.Atoi

  const MinInt64: int := -0x8000_0000_0000_0000
  const MaxInt64: int := 0x7FFF_FFFF_FFFF_FFFF

  predicate IsDigit(c: char)
  {
    '0' <= c <= '9'
  }

  predicate AllDigits(s: string)
  {
    forall j :: 0 <= j < |s| ==> IsDigit(s[j])
  }

  /** The value of a string of decimal digits, most significant first. */
  function DecimalValue(s: string): (v: nat)
    requires AllDigits(s)
  {
    if s == [] then 0
    else DecimalValue(s[..|s| - 1]) * 10 + (s[|s| - 1] as int - '0' as int)
  }

  /** The shortest decimal spelling of n (strconv.Itoa for n >= 0). */
  function Decimal(n: nat): (s: string)
    ensures |s| > 0 && AllDigits(s)
  {
    if n < 10 then [('0' as int + n) as char]
    else Decimal(n / 10) + [('0' as int + n % 10) as char]
  }

  /** strconv.Atoi: an optional sign and at least one decimal digit, whose
      value lies within the range of a 64-bit int; anything else fails. */
  function Atoi(s: string): (r: Option<int>)
    ensures s == [] ==> r == None
    ensures r.Some? ==> MinInt64 <= r.value <= MaxInt64
    ensures r.Some? ==> IsDigit(s[0]) || ((s[0] == '+' || s[0] == '-') && |s| > 1)
    ensures r.Some? ==> forall j :: 0 < j < |s| ==> IsDigit(s[j])
    ensures r.Some? && r.value < 0 ==> s[0] == '-'
  {
    if |s| == 0 then None
    else
      var digits := if s[0] == '+' || s[0] == '-' then s[1..] else s;
      if |digits| == 0 || !AllDigits(digits) then None
      else
        var v: int := if s[0] == '-' then -(DecimalValue(digits) as int) else DecimalValue(digits);
        if MinInt64 <= v <= MaxInt64 then Some(v) else None
  }

  lemma {:induction false} DecimalValueOfDecimal(n: nat)
    ensures DecimalValue(Decimal(n)) == n
  {
    if n >= 10 {
      var s := Decimal(n);
      assert s[..|s| - 1] == Decimal(n / 10);
      DecimalValueOfDecimal(n / 10);
    }
  }

  /** Atoi reads back every non-negative int64 written in decimal. */
  lemma AtoiDecimal(n: nat)
    requires n <= MaxInt64
    ensures Atoi(Decimal(n)) == Some(n)
  {
    var s := Decimal(n);
    DecimalValueOfDecimal(n);
    assert IsDigit(s[0]);
  }

  /** Atoi accepts an explicit sign in front of the digits, down to the
      smallest int64. */
  lemma AtoiSigned(n: nat)
    ensures n <= MaxInt64 ==> Atoi("+" + Decimal(n)) == Some(n)
    ensures n <= -MinInt64 ==> Atoi("-" + Decimal(n)) == Some(-(n as int))
  {
    DecimalValueOfDecimal(n);
    assert ("+" + Decimal(n))[1..] == Decimal(n);
    assert ("-" + Decimal(n))[1..] == Decimal(n);
  }

  /** A string of zeros has the value zero. */
  lemma {:induction false} DecimalValueOfZeros(z: string)
    requires forall j :: 0 <= j < |z| ==> z[j] == '0'
    ensures AllDigits(z) && DecimalValue(z) == 0
    decreases |z|
  {
    if z != [] {
      DecimalValueOfZeros(z[..|z| - 1]);
    }
  }

  /** Leading zeros do not change the value of a digit string. */
  lemma {:induction false} DecimalValueLeadingZeros(z: string, d: string)
    requires forall j :: 0 <= j < |z| ==> z[j] == '0'
    requires AllDigits(d)
    ensures AllDigits(z + d) && DecimalValue(z + d) == DecimalValue(d)
    decreases |d|
  {
    DecimalValueOfZeros(z);
    if d == [] {
      AppendEmpty(z);
    } else {
      var zd := z + d;
      assert zd[..|zd| - 1] == z + d[..|d| - 1];
      assert zd[|zd| - 1] == d[|d| - 1];
      DecimalValueLeadingZeros(z, d[..|d| - 1]);
    }
  }

  /** Atoi reads a digit string by its value, refusing one beyond the
      64-bit range. */
  lemma AtoiDigits(d: string)
    requires |d| > 0 && AllDigits(d)
    ensures Atoi(d) == if DecimalValue(d) <= MaxInt64 then Some(DecimalValue(d)) else None
  {
    assert IsDigit(d[0]);
  }

  /** The same after a "+". */
  lemma AtoiPlusDigits(d: string)
    requires |d| > 0 && AllDigits(d)
    ensures Atoi("+" + d) == Atoi(d)
  {
    var s := "+" + d;
    assert s[0] == '+' && s[1..] == d;
    AtoiDigits(d);
  }

  /** After a "-" the value is negated, down to the smallest int64. */
  lemma AtoiMinusDigits(d: string)
    requires |d| > 0 && AllDigits(d)
    ensures DecimalValue(d) <= -MinInt64 ==> Atoi("-" + d) == Some(-(DecimalValue(d) as int))
    ensures DecimalValue(d) > -MinInt64 ==> Atoi("-" + d) == None
  {
    var s := "-" + d;
    assert s[0] == '-' && s[1..] == d;
  }

  /** Atoi ignores leading zeros, with or without a sign in front. */
  lemma AtoiLeadingZeros(z: string, n: nat)
    requires forall j :: 0 <= j < |z| ==> z[j] == '0'
    ensures Atoi(z + Decimal(n)) == Atoi(Decimal(n))
    ensures Atoi("+" + z + Decimal(n)) == Atoi("+" + Decimal(n))
    ensures Atoi("-" + z + Decimal(n)) == Atoi("-" + Decimal(n))
  {
    var d := Decimal(n);
    DecimalValueLeadingZeros(z, d);
    AtoiDigits(d);
    AtoiDigits(z + d);
    AtoiPlusDigits(d);
    AtoiPlusDigits(z + d);
    AtoiMinusDigits(d);
    AtoiMinusDigits(z + d);
    AppendAssoc("+", z, d);
    AppendAssoc("-", z, d);
  }

  /** A value beyond the 64-bit range is refused (strconv.ErrRange). */
  lemma AtoiOutOfRange(n: nat)
    ensures n > MaxInt64 ==> Atoi(Decimal(n)) == None && Atoi("+" + Decimal(n)) == None
    ensures n > -MinInt64 ==> Atoi("-" + Decimal(n)) == None
  {
    DecimalValueOfDecimal(n);
    assert IsDigit(Decimal(n)[0]);
    assert ("+" + Decimal(n))[1..] == Decimal(n);
    assert ("-" + Decimal(n))[1..] == Decimal(n);
  }
}
