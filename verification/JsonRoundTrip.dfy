/**
 Parsing undoes printing: whatever the printer writes for a tree, in either
 style and at any depth, the parser reads back as that tree.
 */
module JsonRoundTrip {
  import opened Decimals
  import opened JsonText
  import opened JsonSyntax

  // --- strings ----------------------------------------------------------

  lemma PrefixOf(c: string, i: nat, a: string, b: string)
    requires StartsWith(c, i, a + b)
    ensures StartsWith(c, i, a) && StartsWith(c, i + |a|, b)
  {
    StartsWithIsSlice(c, i, a + b);
    assert c[i..i + |a|] == (a + b)[..|a|];
    assert c[i + |a|..i + |a| + |b|] == (a + b)[|a|..];
    StartsWithIsSlice(c, i, a);
    StartsWithIsSlice(c, i + |a|, b);
  }

  lemma Glue(c: string, i: nat, a: string, b: string)
    requires StartsWith(c, i, a) && StartsWith(c, i + |a|, b)
    ensures StartsWith(c, i, a + b)
  {
    StartsWithIsSlice(c, i, a);
    StartsWithIsSlice(c, i + |a|, b);
    assert c[i..i + |a + b|] == c[i..i + |a|] + c[i + |a|..i + |a| + |b|];
    StartsWithIsSlice(c, i, a + b);
  }

  lemma CharAt(c: string, i: nat, w: string, k: nat)
    requires StartsWith(c, i, w) && k < |w|
    ensures c[i + k] == w[k]
  {
    StartsWithIsSlice(c, i, w);
    assert c[i..i + |w|][k] == c[i + k];
  }

  lemma Chars(c: string, i: nat, w: string)
    requires StartsWith(c, i, w)
    ensures |w| > 0 ==> c[i] == w[0]
    ensures |w| > 1 ==> c[i + 1] == w[1]
    ensures |w| > 2 ==> c[i + 2] == w[2]
    ensures |w| > 3 ==> c[i + 3] == w[3]
    ensures |w| > 4 ==> c[i + 4] == w[4]
    ensures |w| > 5 ==> c[i + 5] == w[5]
  {
    StartsWithIsSlice(c, i, w);
    assert w == c[i..i + |w|];
  }

  lemma EscapeIsOneStep(ch: char, c: string, i: nat, end: nat)
    requires StartsWith(c, i, Escape(ch)) && i + |Escape(ch)| <= end < |c|
    ensures DecodeStep(c, i, end) == Parsed([ch], |Escape(ch)|)
  {
    var e := Escape(ch);
    Chars(c, i, e);
    if |e| == 6 {
      assert Hex4(c, i + 2) == ch as int by {
        assert c[i + 2] == '0' && c[i + 3] == '0';
        assert HexValue(c[i + 4]) == ch as int / 16;
        assert HexValue(c[i + 5]) == ch as int % 16;
      }
      assert Utf8(ch as int) == [ch];
    }
  }

  lemma EscapeIsSkipped(ch: char, c: string, i: nat)
    requires StartsWith(c, i, Escape(ch))
    ensures ClosingQuote(c, i) == ClosingQuote(c, i + |Escape(ch)|)
  {
    var e := Escape(ch);
    Chars(c, i, e);
    if |e| == 6 {
      assert ClosingQuote(c, i) == ClosingQuote(c, i + 2);
      assert ClosingQuote(c, i + 2) == ClosingQuote(c, i + 3);
      assert ClosingQuote(c, i + 3) == ClosingQuote(c, i + 4);
      assert ClosingQuote(c, i + 4) == ClosingQuote(c, i + 5);
    }
  }

  /** The sizing pass stops at the quote that ends the escaped text. */
  lemma {:induction false} SizingFindsTheQuote(s: string, c: string, i: nat)
    requires StartsWith(c, i, EscapeAll(s) + "\"")
    ensures ClosingQuote(c, i) == Parsed((), i + |EscapeAll(s)|)
    decreases |s|
  {
    PrefixOf(c, i, EscapeAll(s), "\"");
    Chars(c, i + |EscapeAll(s)|, "\"");
    if s == [] {
    } else {
      assert EscapeAll(s) + "\"" == Escape(s[0]) + (EscapeAll(s[1..]) + "\"");
      PrefixOf(c, i, Escape(s[0]), EscapeAll(s[1..]) + "\"");
      EscapeIsSkipped(s[0], c, i);
      SizingFindsTheQuote(s[1..], c, i + |Escape(s[0])|);
    }
  }

  /** The decoding pass gives back the string that was escaped. */
  lemma {:induction false} DecodeUndoesEscape(s: string, c: string, i: nat)
    requires StartsWith(c, i, EscapeAll(s)) && i + |EscapeAll(s)| < |c|
    ensures Decode(c, i, i + |EscapeAll(s)|) == Parsed(s, i + |EscapeAll(s)|)
    decreases |s|
  {
    hide Escape, StartsWith, Decode, DecodeStep;
    if s == [] {
      DecodeEnds(c, i);
    } else {
      hide EscapeAll;
      EscapeAllParts(s);
      PrefixOf(c, i, Escape(s[0]), EscapeAll(s[1..]));
      EscapeIsOneStep(s[0], c, i, i + |EscapeAll(s)|);
      DecodeUndoesEscape(s[1..], c, i + |Escape(s[0])|);
      DecodeOneMore(s, c, i, |Escape(s[0])|, i + |EscapeAll(s)|);
    }
  }

  lemma DecodeEnds(c: string, i: nat)
    requires i < |c|
    ensures Decode(c, i, i) == Parsed([], i)
  {
  }

  lemma EscapeAllParts(s: string)
    requires s != []
    ensures EscapeAll(s) == Escape(s[0]) + EscapeAll(s[1..]) && Escape(s[0]) != []
  {
  }

  lemma DecodeOneMore(s: string, c: string, i: nat, n: nat, end: nat)
    requires s != [] && i < end < |c|
    requires DecodeStep(c, i, end) == Parsed([s[0]], n) && Decode(c, i + n, end) == Parsed(s[1..], end)
    ensures Decode(c, i, end) == Parsed(s, end)
  {
    hide DecodeStep;
    assert s == [s[0]] + s[1..];
  }

  lemma {:induction false} NoNulToStopAt(s: CString)
    ensures UntilNul(s) == s
    decreases |s|
  {
    if s != [] {
      NoNulToStopAt(s[1..]);
    }
  }

  lemma StringRoundTrip(s: CString, c: string, i: nat)
    requires StartsWith(c, i, Quoted(s))
    ensures StringAt(c, i) == Parsed(s, i + |Quoted(s)|)
  {
    var e := EscapeAll(s);
    var end := i + 1 + |e|;
    QuotePieces(c, i, e);
    assert ClosingQuote(c, i + 1) == Parsed((), end) by {
      SizingFindsTheQuote(s, c, i + 1);
    }
    assert Decode(c, i + 1, end) == Parsed(s, end) by {
      DecodeUndoesEscape(s, c, i + 1);
    }
    NoNulToStopAt(s);
  }

  lemma {:induction false} QuotePieces(c: string, i: nat, e: string)
    requires StartsWith(c, i, "\"" + e + "\"")
    ensures StartsWith(c, i + 1, e) && StartsWith(c, i + 1, e + "\"")
    ensures i + 1 + |e| < |c| && c[i] == '\"'
  {
    assert "\"" + e + "\"" == "\"" + (e + "\"");
    PrefixOf(c, i, "\"", e + "\"");
    PrefixOf(c, i + 1, e, "\"");
    Chars(c, i, "\"");
  }

  // --- numbers ----------------------------------------------------------

  lemma {:induction false} DigitsRoundTrip(n: nat)
    ensures DigitsValue(Digits(n)) == n
  {
    if n < 10 {
      assert Digits(n)[..0] == [];
    } else {
      DigitsRoundTrip(n / 10);
      assert Digits(n)[..|Digits(n)| - 1] == Digits(n / 10);
    }
  }

  lemma StrtodReadsDecimal(n: int)
    ensures Strtod(Decimal(n)) == Parsed(n as real, |Decimal(n)|)
  {
    hide Strtod, Span, DigitsValue, Digits;
    var s := Decimal(n);
    var m := if n < 0 then -n else n;
    var a := if n < 0 then 1 else 0;
    assert s[a..] == Digits(m);
    forall k | a <= k < |s| ensures IsDigit(s[k]) {
      assert s[k] == Digits(m)[k - a];
    }
    SpanIs(s, a, |s|, DigitClass);
    assert SignEnd(s, 0) == a;
    StrtodOfDigits(s, a);
    DigitsRoundTrip(m);
  }

  /** With no point and no exponent, the value is that of the digits. */
  lemma StrtodOfDigits(s: string, a: nat)
    requires a < |s| && a == SignEnd(s, 0) && Span(s, a, DigitClass) == |s|
    ensures var n := DigitsValue(s[a..]) as real;
            Strtod(s) == Parsed(if s[0] == '-' then -n else n, |s|)
  {
    hide DigitsValue, Pow10, Exponent, Span, SignEnd;
    assert s[a..|s|] + s[|s|..|s|] == s[a..];
    NoExponent(s);
    TimesOne(DigitsValue(s[a..]) as real);
  }

  lemma NoExponent(s: string)
    ensures Exponent(s, |s|) == (|s|, 0) && Pow10(0) == 1.0
  {
  }

  lemma TimesOne(n: real)
    ensures n * 1.0 == n
  {
  }

  lemma DecimalIsNumber(n: int)
    ensures Decimal(n) != "" && forall k :: 0 <= k < |Decimal(n)| ==> IsNumberChar(Decimal(n)[k])
  {
  }

  /** A run of number bytes that is followed by something else is scanned as a whole. */
  lemma NumberSpan(s: string, c: string, i: nat)
    requires StartsWith(c, i, s) && forall k :: 0 <= k < |s| ==> IsNumberChar(s[k])
    requires i + |s| == |c| || !IsNumberChar(c[i + |s|])
    ensures Span(c, i, NumberClass) == i + |s| && c[i..i + |s|] == s
  {
    hide IsNumberChar;
    forall k | i <= k < i + |s| ensures IsNumberChar(c[k]) {
      CharAt(c, i, s, k - i);
    }
    SpanIs(c, i, i + |s|, NumberClass);
    StartsWithIsSlice(c, i, s);
  }

  lemma NumberRoundTrip(n: int, c: string, i: nat)
    requires StartsWith(c, i, Decimal(n))
    requires i + |Decimal(n)| == |c| || !IsNumberChar(c[i + |Decimal(n)|])
    ensures NumberAt(c, i) == Parsed(Number(n as real), i + |Decimal(n)|)
  {
    DecimalIsNumber(n);
    hide Span, Strtod, Decimal, StartsWith, IsNumberChar;
    NumberSpan(Decimal(n), c, i);
    StrtodReadsDecimal(n);
  }

  // --- values -----------------------------------------------------------

  lemma SkipNothing(c: string, i: nat)
    requires i < |c| && !IsSpace(c[i])
    ensures SkipSpace(c, i) == i
  {
  }

  lemma SkipTo(c: string, i: nat, w: string)
    requires StartsWith(c, i, w) && forall k :: 0 <= k < |w| ==> IsSpace(w[k])
    requires i + |w| < |c| && !IsSpace(c[i + |w|])
    ensures SkipSpace(c, i) == i + |w|
  {
    forall k | i <= k < i + |w| ensures IsSpace(c[k]) {
      CharAt(c, i, w, k - i);
    }
    SpanIs(c, i, i + |w|, SpaceClass);
  }

  lemma FirstChar(c: string, i: nat, w: string)
    requires StartsWith(c, i, w) && |w| > 0
    ensures i < |c| && c[i] == w[0]
  {
  }

  /** A printed value starts with a byte the whitespace skipper stops at. */
  lemma TextStart(v: Json, st: Style, depth: nat)
    requires IntNumbers(v)
    ensures var t := Text(v, st, depth); |t| > 0 && !IsSpace(t[0])
  {
  }

  lemma Keywords(c: string, i: nat)
    ensures StartsWith(c, i, "null") ==> c[i] == 'n'
    ensures StartsWith(c, i, "true") ==> c[i] == 't'
    ensures StartsWith(c, i, "false") ==> c[i] == 'f'
  {
  }

  predicate EndsNumber(c: string, i: nat)
    requires i <= |c|
  {
    i == |c| || !IsNumberChar(c[i])
  }

  /** The main result: at any offset, any depth and in either style. */
  lemma {:induction false} ValueRoundTrip(v: Json, st: Style, depth: nat, c: string, i: nat)
    requires IntNumbers(v) && CanPrint(v, st, depth)
    requires StartsWith(c, i, Text(v, st, depth)) && EndsNumber(c, i + |Text(v, st, depth)|)
    ensures ValueAt(c, i, depth) == Parsed(v, i + |Text(v, st, depth)|)
    decreases v, 5
  {
    hide Text, ValueAt, ArrayAt, ObjectAt, NumberAt, StringAt, StartsWith, Quoted, Decimal;
    TextCases(v, st, depth);
    TextStart(v, st, depth);
    Chars(c, i, Text(v, st, depth));
    Dispatch(c, i, depth);
    match v {
      case Null =>
      case False =>
      case True =>
      case Number(d) => NumberRoundTrip(ValueInt(d), c, i);
      case String(s) => StringRoundTrip(s, c, i);
      case Array(items) => ArrayRoundTrip(items, st, depth, c, i);
      case Object(members) => ObjectRoundTrip(members, st, depth, c, i);
    }
  }

  lemma TextCases(v: Json, st: Style, depth: nat)
    requires IntNumbers(v)
    ensures v.Null? ==> Text(v, st, depth) == "null"
    ensures v.False? ==> Text(v, st, depth) == "false"
    ensures v.True? ==> Text(v, st, depth) == "true"
    ensures v.Number? ==> Text(v, st, depth) == Decimal(ValueInt(v.value))
    ensures v.Number? ==> Text(v, st, depth)[0] == '-' || IsDigit(Text(v, st, depth)[0])
    ensures v.String? ==> Text(v, st, depth) == Quoted(v.text) && Quoted(v.text)[0] == '\"'
    ensures v.Array? ==> Text(v, st, depth)[0] == '['
    ensures v.Object? ==> Text(v, st, depth)[0] == '{'
  {
  }

  /** The first byte decides which kind of value is parsed. */
  lemma Dispatch(c: string, i: nat, depth: nat)
    requires i < |c|
    ensures StartsWith(c, i, "null") ==> ValueAt(c, i, depth) == Parsed(Null, i + 4)
    ensures StartsWith(c, i, "false") ==> ValueAt(c, i, depth) == Parsed(False, i + 5)
    ensures StartsWith(c, i, "true") ==> ValueAt(c, i, depth) == Parsed(True, i + 4)
    ensures c[i] == '-' || IsDigit(c[i]) ==> ValueAt(c, i, depth) == NumberAt(c, i)
    ensures c[i] == '\"' && StringAt(c, i).Parsed? ==>
              ValueAt(c, i, depth) == Parsed(String(StringAt(c, i).value), StringAt(c, i).next)
    ensures c[i] == '[' ==> ValueAt(c, i, depth) == ArrayAt(c, i, depth)
    ensures c[i] == '{' ==> ValueAt(c, i, depth) == ObjectAt(c, i, depth)
  {
    Keywords(c, i);
  }

  lemma {:induction false} ArrayRoundTrip(items: seq<Json>, st: Style, depth: nat, c: string, i: nat)
    requires IntNumbers(Array(items)) && CanPrint(Array(items), st, depth)
    requires StartsWith(c, i, Text(Array(items), st, depth))
    ensures ArrayAt(c, i, depth) == Parsed(Array(items), i + |Text(Array(items), st, depth)|)
    decreases items, 3
  {
    hide Text, ItemsText, ItemsAt, MoreItems, SkipSpace, StartsWith, ArrayAt, IntNumbers, CanPrint;
    TextOfArray(items, st, depth);
    var inner := ItemsText(items, st, depth + 1);
    var e := i + 1 + |inner|;
    ArrayPieces(c, i, inner);
    if items == [] {
      BracketAfterLast(c, e, depth);
      EmptyArray(c, i, depth);
    } else {
      ItemsStart(items, st, depth + 1, c, i + 1);
      SkipNothing(c, i + 1);
      ItemsRoundTrip(items, st, depth + 1, c, i + 1, e);
      ArrayFromParts(c, i, depth, items, e + 1);
    }
  }

  lemma TextOfArray(items: seq<Json>, st: Style, depth: nat)
    requires IntNumbers(Array(items)) && CanPrint(Array(items), st, depth)
    ensures Text(Array(items), st, depth) == "[" + ItemsText(items, st, depth + 1) + "]"
    ensures depth < NESTING_LIMIT && (items == [] ==> ItemsText(items, st, depth + 1) == [])
    ensures forall k :: 0 <= k < |items| ==> IntNumbers(items[k]) && CanPrint(items[k], st, depth + 1)
  {
  }

  lemma EmptyArray(c: string, i: nat, depth: nat)
    requires i + 1 < |c| && depth < NESTING_LIMIT && SkipSpace(c, i + 1) == i + 1 && c[i + 1] == ']'
    ensures ArrayAt(c, i, depth) == Parsed(Array([]), i + 2)
  {
  }

  lemma ArrayFromParts(c: string, i: nat, depth: nat, items: seq<Json>, q: nat)
    requires i + 1 < |c| && depth < NESTING_LIMIT && SkipSpace(c, i + 1) == i + 1 && c[i + 1] != ']'
    requires ItemsAt(c, i + 1, depth + 1) == Parsed(items, q)
    ensures ArrayAt(c, i, depth) == Parsed(Array(items), q)
  {
  }

  lemma ArrayPieces(c: string, i: nat, inner: string)
    requires StartsWith(c, i, "[" + inner + "]")
    ensures i + 1 + |inner| < |c| && c[i] == '[' && c[i + 1 + |inner|] == ']'
    ensures StartsWith(c, i + 1, inner) && StartsWith(c, i + 1 + |inner|, "]")
  {
    assert "[" + inner + "]" == "[" + (inner + "]");
    PrefixOf(c, i, "[", inner + "]");
    PrefixOf(c, i + 1, inner, "]");
  }

  lemma {:induction false} ItemsRoundTrip(items: seq<Json>, st: Style, depth: nat, c: string, i: nat, e: nat)
    requires |items| > 0
    requires forall k :: 0 <= k < |items| ==> IntNumbers(items[k]) && CanPrint(items[k], st, depth)
    requires StartsWith(c, i, ItemsText(items, st, depth))
    requires e == i + |ItemsText(items, st, depth)| && StartsWith(c, e, "]")
    ensures ItemsAt(c, i, depth) == Parsed(items, e + 1)
    decreases items, 2
  {
    hide Text, ItemsText, ItemsAt, MoreItems, ValueAt, StartsWith, SkipSpace;
    var j := i + |Text(items[0], st, depth)|;
    assert i < |c| && SkipSpace(c, i) == i && ValueAt(c, i, depth) == Parsed(items[0], j) by {
      ItemPieces(items, st, depth, c, i, e);
      ValueRoundTrip(items[0], st, depth, c, i);
    }
    assert j <= |c| && MoreItems(c, j, depth) == Parsed(items[1..], e + 1) by {
      if |items| == 1 {
        ItemPieces(items, st, depth, c, i, e);
        BracketAfterLast(c, e, depth);
        assert items[1..] == [];
      } else {
        MoreItemsRoundTrip(items, st, depth, c, i, e, j);
      }
    }
    ItemsFromParts(c, i, depth, items, j, e + 1);
  }

  lemma {:induction false} MoreItemsRoundTrip(items: seq<Json>, st: Style, depth: nat, c: string, i: nat, e: nat,
                                              j: nat)
    requires |items| > 1
    requires forall k :: 0 <= k < |items| ==> IntNumbers(items[k]) && CanPrint(items[k], st, depth)
    requires StartsWith(c, i, ItemsText(items, st, depth))
    requires e == i + |ItemsText(items, st, depth)| && StartsWith(c, e, "]")
    requires j == i + |Text(items[0], st, depth)|
    ensures j <= |c| && MoreItems(c, j, depth) == Parsed(items[1..], e + 1)
    decreases items, 1
  {
    hide Text, ItemsText, ItemsAt, MoreItems, StartsWith, ItemSeparator;
    var k := j + |ItemSeparator(st)|;
    assert k <= |c| && MoreItems(c, j, depth) == ItemsAt(c, k, depth) by {
      ItemPieces(items, st, depth, c, i, e);
      ItemsAfterSeparator(items[1..], st, depth, c, j);
    }
    assert ItemsAt(c, k, depth) == Parsed(items[1..], e + 1) by {
      ItemPieces(items, st, depth, c, i, e);
      ItemsRoundTrip(items[1..], st, depth, c, k, e);
    }
  }

  lemma ItemPieces(items: seq<Json>, st: Style, depth: nat, c: string, i: nat, e: nat)
    requires |items| > 0 && IntNumbers(items[0])
    requires StartsWith(c, i, ItemsText(items, st, depth))
    requires e == i + |ItemsText(items, st, depth)| && StartsWith(c, e, "]")
    ensures i < |c| && SkipSpace(c, i) == i
    ensures StartsWith(c, i, Text(items[0], st, depth))
    ensures var j := i + |Text(items[0], st, depth)|; j <= |c| && EndsNumber(c, j)
    ensures var j := i + |Text(items[0], st, depth)|;
            if |items| == 1 then j == e
            else
              && StartsWith(c, j, ItemSeparator(st))
              && StartsWith(c, j + |ItemSeparator(st)|, ItemsText(items[1..], st, depth))
              && e == j + |ItemSeparator(st)| + |ItemsText(items[1..], st, depth)|
  {
    hide Text;
    ItemsStart(items, st, depth, c, i);
    SkipNothing(c, i);
    FirstChar(c, e, "]");
    if |items| > 1 {
      var first, rest := Text(items[0], st, depth), ItemsText(items[1..], st, depth);
      PrefixOf(c, i, first, ItemSeparator(st) + rest);
      PrefixOf(c, i + |first|, ItemSeparator(st), rest);
      FirstChar(c, i + |first|, ItemSeparator(st));
    }
  }

  lemma BracketAfterLast(c: string, e: nat, depth: nat)
    requires StartsWith(c, e, "]")
    ensures MoreItems(c, e, depth) == Parsed([], e + 1) && SkipSpace(c, e) == e
  {
    FirstChar(c, e, "]");
    SkipNothing(c, e);
  }

  lemma ItemsFromParts(c: string, i: nat, depth: nat, items: seq<Json>, n: nat, q: nat)
    requires i < |c| && SkipSpace(c, i) == i && |items| > 0
    requires ValueAt(c, i, depth) == Parsed(items[0], n)
    requires n <= |c| && MoreItems(c, n, depth) == Parsed(items[1..], q)
    ensures ItemsAt(c, i, depth) == Parsed(items, q)
  {
    hide ValueAt, MoreItems, SkipSpace;
    assert items == [items[0]] + items[1..];
  }

  lemma ItemsAfterSeparator(items: seq<Json>, st: Style, depth: nat, c: string, j: nat)
    requires |items| > 0 && IntNumbers(items[0])
    requires StartsWith(c, j, ItemSeparator(st))
    requires StartsWith(c, j + |ItemSeparator(st)|, ItemsText(items, st, depth))
    ensures j < |c| && MoreItems(c, j, depth) == ItemsAt(c, j + |ItemSeparator(st)|, depth)
  {
    ItemsStart(items, st, depth, c, j + |ItemSeparator(st)|);
    Chars(c, j, ItemSeparator(st));
    SkipNothing(c, j);
    ItemsAfterSpace(c, j + 1, ItemSeparator(st)[1..], depth);
  }

  lemma ItemsStart(items: seq<Json>, st: Style, depth: nat, c: string, i: nat)
    requires |items| > 0 && IntNumbers(items[0])
    requires StartsWith(c, i, ItemsText(items, st, depth))
    ensures i < |c| && !IsSpace(c[i]) && c[i] != ']'
  {
    TextStart(items[0], st, depth);
    FirstChar(c, i, ItemsText(items, st, depth));
  }

  /** Whitespace before the first item makes no difference. */
  lemma ItemsAfterSpace(c: string, i: nat, w: string, depth: nat)
    requires StartsWith(c, i, w) && forall k :: 0 <= k < |w| ==> IsSpace(w[k])
    requires i + |w| < |c| && !IsSpace(c[i + |w|])
    ensures ItemsAt(c, i, depth) == ItemsAt(c, i + |w|, depth)
  {
    SkipTo(c, i, w);
    SkipNothing(c, i + |w|);
  }

  /** Whitespace before the first member makes no difference. */
  lemma MembersAfterSpace(c: string, i: nat, w: string, depth: nat)
    requires StartsWith(c, i, w) && forall k :: 0 <= k < |w| ==> IsSpace(w[k])
    requires i + |w| < |c| && !IsSpace(c[i + |w|])
    ensures MembersAt(c, i, depth) == MembersAt(c, i + |w|, depth)
  {
    MemberAfterSpace(c, i, w, depth);
    hide MemberAt, MoreMembers, StartsWith;
  }

  lemma MemberAfterSpace(c: string, i: nat, w: string, depth: nat)
    requires StartsWith(c, i, w) && forall k :: 0 <= k < |w| ==> IsSpace(w[k])
    requires i + |w| < |c| && !IsSpace(c[i + |w|])
    ensures MemberAt(c, i, depth) == MemberAt(c, i + |w|, depth)
  {
    hide MemberAt, SkipSpace, StartsWith;
    SkipTo(c, i, w);
    SkipNothing(c, i + |w|);
    SameMember(c, i, i + |w|, depth);
  }

  /** A member is read from where the space ends. */
  lemma SameMember(c: string, i: nat, j: nat, depth: nat)
    requires i < |c| && j < |c| && SkipSpace(c, i) == SkipSpace(c, j)
    ensures MemberAt(c, i, depth) == MemberAt(c, j, depth)
  {
    hide SkipSpace, StringAt, ValueAt;
  }

  lemma IndentIsSpace(st: Style, depth: nat)
    ensures forall k :: 0 <= k < |Indent(st, depth)| ==> IsSpace(Indent(st, depth)[k])
    ensures var w := Newline(st) + Indent(st, depth); forall k :: 0 <= k < |w| ==> IsSpace(w[k])
  {
  }

  lemma ColonIsColon(st: Style)
    ensures Colon(st) != "" && Colon(st) == ":" + Colon(st)[1..]
    ensures forall k :: 0 <= k < |Colon(st)[1..]| ==> IsSpace(Colon(st)[1..][k])
  {
  }

  /** Where the pieces of a printed member stand. */
  ghost predicate MemberSits(m: Member, st: Style, depth: nat, more: bool, c: string, i: nat) {
    var key := i + |Indent(st, depth)|;
    var colon := key + |Quoted(m.key)|;
    var value := colon + |Colon(st)|;
    var comma := value + |Text(m.value, st, depth)|;
    && StartsWith(c, i, Indent(st, depth))
    && StartsWith(c, key, Quoted(m.key))
    && StartsWith(c, colon, Colon(st))
    && StartsWith(c, value, Text(m.value, st, depth))
    && StartsWith(c, comma, Comma(more)) && (more ==> c[comma] == ',')
    && StartsWith(c, comma + |Comma(more)|, Newline(st))
    && i + |MemberText(m, st, depth, more)| == comma + |Comma(more)| + |Newline(st)|
  }

  lemma SixPieces(c: string, i: nat, p: string, q: string, r: string, s: string, t: string, u: string)
    requires StartsWith(c, i, p + (q + (r + (s + (t + u)))))
    ensures StartsWith(c, i, p) && StartsWith(c, i + |p|, q) && StartsWith(c, i + |p| + |q|, r)
    ensures StartsWith(c, i + |p| + |q| + |r|, s)
    ensures StartsWith(c, i + |p| + |q| + |r| + |s|, t)
    ensures StartsWith(c, i + |p| + |q| + |r| + |s| + |t|, u)
    ensures |p + (q + (r + (s + (t + u))))| == |p| + |q| + |r| + |s| + |t| + |u|
  {
    PrefixOf(c, i, p, q + (r + (s + (t + u))));
    PrefixOf(c, i + |p|, q, r + (s + (t + u)));
    PrefixOf(c, i + |p| + |q|, r, s + (t + u));
    PrefixOf(c, i + |p| + |q| + |r|, s, t + u);
    PrefixOf(c, i + |p| + |q| + |r| + |s|, t, u);
  }

  lemma MemberPieces(m: Member, st: Style, depth: nat, more: bool, c: string, i: nat)
    requires StartsWith(c, i, MemberText(m, st, depth, more))
    ensures MemberSits(m, st, depth, more, c, i)
  {
    hide Text, Quoted, Indent, Colon, Newline, StartsWith;
    SixPieces(c, i, Indent(st, depth), Quoted(m.key), Colon(st), Text(m.value, st, depth),
              Comma(more), Newline(st));
  }

  lemma QuotedStart(s: string)
    ensures |Quoted(s)| > 0 && Quoted(s)[0] == '\"'
  {
  }

  /** From the indentation over the key and the colon to the value. */
  lemma MemberKey(m: Member, st: Style, depth: nat, c: string, i: nat, value: nat)
    requires IntNumbers(m.value)
    requires value == i + |Indent(st, depth)| + |Quoted(m.key)| + |Colon(st)|
    requires StartsWith(c, i, Indent(st, depth))
    requires StartsWith(c, i + |Indent(st, depth)|, Quoted(m.key))
    requires StartsWith(c, value - |Colon(st)|, Colon(st))
    requires StartsWith(c, value, Text(m.value, st, depth))
    ensures i < |c| && StringAt(c, SkipSpace(c, i)) == Parsed(m.key, value - |Colon(st)|)
    ensures var p := value - |Colon(st)|;
            p < |c| && SkipSpace(c, p) == p && c[p] == ':' && SkipSpace(c, p + 1) == value
  {
    hide Text, SkipSpace, StringAt, Quoted, Indent, Colon;
    TextStart(m.value, st, depth);
    FirstChar(c, value, Text(m.value, st, depth));
    hide *;
    OverIndent(m.key, st, depth, c, i);
    OverColon(st, c, value - |Colon(st)|);
  }

  /** The indentation and the key. */
  lemma OverIndent(key: CString, st: Style, depth: nat, c: string, i: nat)
    requires StartsWith(c, i, Indent(st, depth)) && StartsWith(c, i + |Indent(st, depth)|, Quoted(key))
    ensures var k := i + |Indent(st, depth)|;
            i < |c| && StringAt(c, SkipSpace(c, i)) == Parsed(key, k + |Quoted(key)|)
  {
    QuotedStart(key);
    IndentIsSpace(st, depth);
    hide Quoted, StartsWith, StringAt, Indent, SkipSpace;
    var k := i + |Indent(st, depth)|;
    FirstChar(c, k, Quoted(key));
    SkipTo(c, i, Indent(st, depth));
    StringRoundTrip(key, c, k);
  }

  /** The colon, and the space that may follow it. */
  lemma OverColon(st: Style, c: string, colon: nat)
    requires StartsWith(c, colon, Colon(st)) && colon + |Colon(st)| < |c| && !IsSpace(c[colon + |Colon(st)|])
    ensures colon < |c| && c[colon] == ':' && SkipSpace(c, colon) == colon
    ensures SkipSpace(c, colon + 1) == colon + |Colon(st)|
  {
    ColonIsColon(st);
    hide Colon, SkipSpace, StartsWith;
    PrefixOf(c, colon, ":", Colon(st)[1..]);
    FirstChar(c, colon, ":");
    SkipNothing(c, colon);
    SkipTo(c, colon + 1, Colon(st)[1..]);
  }

  /** One member, from its indentation to the byte after its value. */
  lemma {:induction false} MemberRoundTrip(m: Member, st: Style, depth: nat, c: string, i: nat, value: nat, n: nat)
    requires IntNumbers(m.value) && CanPrint(m.value, st, depth)
    requires value == i + |Indent(st, depth)| + |Quoted(m.key)| + |Colon(st)|
    requires StartsWith(c, i, Indent(st, depth))
    requires StartsWith(c, i + |Indent(st, depth)|, Quoted(m.key))
    requires StartsWith(c, value - |Colon(st)|, Colon(st))
    requires StartsWith(c, value, Text(m.value, st, depth))
    requires n == value + |Text(m.value, st, depth)| && EndsNumber(c, n)
    ensures MemberAt(c, i, depth) == Parsed(m, n)
    decreases m, 2
  {
    hide Text, MemberAt, ValueAt, Indent, StartsWith, Quoted, Colon, SkipSpace;
    MemberKey(m, st, depth, c, i, value);
    ValueRoundTrip(m.value, st, depth, c, value);
    MemberFromParts(c, i, depth, m, value - |Colon(st)|, value, n);
  }

  lemma MemberFromParts(c: string, i: nat, depth: nat, m: Member, colon: nat, value: nat, n: nat)
    requires i < |c| && StringAt(c, SkipSpace(c, i)) == Parsed(m.key, colon)
    requires colon < |c| && SkipSpace(c, colon) == colon && c[colon] == ':'
    requires value <= |c| && SkipSpace(c, colon + 1) == value && ValueAt(c, value, depth) == Parsed(m.value, n)
    ensures MemberAt(c, i, depth) == Parsed(m, n)
  {
  }

  /** Members, followed by the indentation of the closing brace and the brace. */
  lemma {:induction false} MembersRoundTrip(members: seq<Member>, st: Style, depth: nat, c: string, i: nat, e: nat)
    requires |members| > 0 && depth > 0
    requires forall k :: 0 <= k < |members| ==>
               IntNumbers(members[k].value) && CanPrint(members[k].value, st, depth)
    requires StartsWith(c, i, MembersText(members, st, depth))
    requires e == i + |MembersText(members, st, depth)|
    requires StartsWith(c, e, Indent(st, depth - 1)) && StartsWith(c, e + |Indent(st, depth - 1)|, "}")
    ensures MembersAt(c, i, depth) == Parsed(members, e + |Indent(st, depth - 1)| + 1)
    decreases members, 3
  {
    hide Text, MembersText, MembersAt, MoreMembers, MemberAt, Indent, Newline, StartsWith, Quoted, Colon;
    var m, more := members[0], |members| > 1;
    var value := i + |Indent(st, depth)| + |Quoted(m.key)| + |Colon(st)|;
    var n := value + |Text(m.value, st, depth)|;
    var q := e + |Indent(st, depth - 1)| + 1;
    assert n <= |c| && EndsNumber(c, n) && MoreMembers(c, n, depth) == Parsed(members[1..], q) by {
      if more {
        MoreRoundTrip(members, st, depth, c, i, e, value, n, q);
      } else {
        MembersPieces(members, st, depth, c, i, e, value, n);
        BraceAfterLast(st, depth - 1, c, n);
        assert members[1..] == [];
      }
    }
    assert MemberAt(c, i, depth) == Parsed(m, n) by {
      MembersPieces(members, st, depth, c, i, e, value, n);
      MemberRoundTrip(m, st, depth, c, i, value, n);
    }
    MembersFromParts(c, i, depth, members, n, q);
  }

  lemma {:induction false} MoreRoundTrip(members: seq<Member>, st: Style, depth: nat, c: string, i: nat, e: nat,
                                         value: nat, n: nat, q: nat)
    requires |members| > 1 && depth > 0
    requires forall k :: 0 <= k < |members| ==>
               IntNumbers(members[k].value) && CanPrint(members[k].value, st, depth)
    requires StartsWith(c, i, MembersText(members, st, depth)) && e == i + |MembersText(members, st, depth)|
    requires var m := members[0];
             value == i + |Indent(st, depth)| + |Quoted(m.key)| + |Colon(st)|
             && n == value + |Text(m.value, st, depth)|
    requires StartsWith(c, e, Indent(st, depth - 1)) && StartsWith(c, e + |Indent(st, depth - 1)|, "}")
    requires q == e + |Indent(st, depth - 1)| + 1
    ensures n <= |c| && EndsNumber(c, n) && MoreMembers(c, n, depth) == Parsed(members[1..], q)
    decreases members, 2
  {
    hide Text, MembersText, MembersAt, MoreMembers, Indent, Newline, StartsWith, Quoted, Colon;
    var j := n + 1 + |Newline(st)|;
    assert j <= |c| && EndsNumber(c, n) && MoreMembers(c, n, depth) == MembersAt(c, j, depth) by {
      MembersPieces(members, st, depth, c, i, e, value, n);
      MembersAfterComma(members[1..], st, depth, c, n);
    }
    assert MembersAt(c, j, depth) == Parsed(members[1..], q) by {
      MembersPieces(members, st, depth, c, i, e, value, n);
      MembersRoundTrip(members[1..], st, depth, c, j, e);
    }
  }

  lemma MembersPieces(members: seq<Member>, st: Style, depth: nat, c: string, i: nat, e: nat, value: nat, n: nat)
    requires |members| > 0
    requires StartsWith(c, i, MembersText(members, st, depth)) && e == i + |MembersText(members, st, depth)|
    requires var m := members[0];
             value == i + |Indent(st, depth)| + |Quoted(m.key)| + |Colon(st)|
             && n == value + |Text(m.value, st, depth)|
    ensures StartsWith(c, i, Indent(st, depth))
    ensures StartsWith(c, i + |Indent(st, depth)|, Quoted(members[0].key))
    ensures StartsWith(c, value - |Colon(st)|, Colon(st))
    ensures StartsWith(c, value, Text(members[0].value, st, depth))
    ensures if |members| == 1 then n + |Newline(st)| == e && StartsWith(c, n, Newline(st))
            else
              && n < |c| && c[n] == ','
              && StartsWith(c, n + 1, Newline(st))
              && StartsWith(c, n + 1 + |Newline(st)|, MembersText(members[1..], st, depth))
              && e == n + 1 + |Newline(st)| + |MembersText(members[1..], st, depth)|
  {
    hide Text, MembersText, Indent, Newline, StartsWith, Quoted, Colon, MemberText;
    MembersHead(members, st, depth, c, i);
    MemberPieces(members[0], st, depth, |members| > 1, c, i);
  }

  lemma MembersHead(members: seq<Member>, st: Style, depth: nat, c: string, i: nat)
    requires |members| > 0
    requires StartsWith(c, i, MembersText(members, st, depth))
    ensures var mt := MemberText(members[0], st, depth, |members| > 1);
            && StartsWith(c, i, mt)
            && |MembersText(members, st, depth)| == |mt| + |MembersText(members[1..], st, depth)|
            && StartsWith(c, i + |mt|, MembersText(members[1..], st, depth))
            && (|members| == 1 ==> MembersText(members[1..], st, depth) == [])
  {
    PrefixOf(c, i, MemberText(members[0], st, depth, |members| > 1), MembersText(members[1..], st, depth));
  }

  lemma {:induction false} MembersAfterComma(members: seq<Member>, st: Style, depth: nat, c: string, n: nat)
    requires |members| > 0
    requires n < |c| && c[n] == ',' && StartsWith(c, n + 1, Newline(st))
    requires StartsWith(c, n + 1 + |Newline(st)|, MembersText(members, st, depth))
    ensures EndsNumber(c, n)
    ensures MoreMembers(c, n, depth) == MembersAt(c, n + 1 + |Newline(st)|, depth)
  {
    hide Text, MembersText, MembersAt, StartsWith, Newline;
    SkipNothing(c, n);
    MembersAfterNewline(members, st, depth, c, n + 1);
  }

  lemma MembersFromParts(c: string, i: nat, depth: nat, members: seq<Member>, n: nat, q: nat)
    requires i <= |c| && |members| > 0
    requires MemberAt(c, i, depth) == Parsed(members[0], n)
    requires n <= |c| && MoreMembers(c, n, depth) == Parsed(members[1..], q)
    ensures MembersAt(c, i, depth) == Parsed(members, q)
  {
    hide MemberAt, MoreMembers;
    assert members == [members[0]] + members[1..];
  }

  lemma BraceAfterLast(st: Style, depth: nat, c: string, n: nat)
    requires StartsWith(c, n, Newline(st))
    requires StartsWith(c, n + |Newline(st)|, Indent(st, depth))
    requires StartsWith(c, n + |Newline(st)| + |Indent(st, depth)|, "}")
    ensures EndsNumber(c, n)
    ensures MoreMembers(c, n, depth + 1)
            == Parsed([], n + |Newline(st)| + |Indent(st, depth)| + 1)
  {
    var w := Newline(st) + Indent(st, depth);
    Glue(c, n, Newline(st), Indent(st, depth));
    FirstChar(c, n + |w|, "}");
    SkipTo(c, n, w);
    FirstOf(c, n, w, '}');
  }

  lemma FirstOf(c: string, i: nat, w: string, ch: char)
    requires StartsWith(c, i, w) && forall k :: 0 <= k < |w| ==> IsSpace(w[k])
    requires i + |w| < |c| && c[i + |w|] == ch && !IsNumberChar(ch)
    ensures EndsNumber(c, i)
  {
    if w != [] { FirstChar(c, i, w); }
  }

  /** The line break before a member makes no difference. */
  lemma MembersAfterNewline(members: seq<Member>, st: Style, depth: nat, c: string, i: nat)
    requires |members| > 0
    requires StartsWith(c, i, Newline(st))
    requires StartsWith(c, i + |Newline(st)|, MembersText(members, st, depth))
    ensures SkipSpace(c, i) < |c| && c[SkipSpace(c, i)] == '\"'
    ensures MembersAt(c, i, depth) == MembersAt(c, i + |Newline(st)|, depth)
  {
    IndentIsSpace(st, depth);
    hide Text, MembersText, MembersAt, StartsWith, MemberText, Indent, Newline, Quoted, SkipSpace;
    var j := i + |Newline(st)|;
    var m, more := members[0], |members| > 1;
    MembersHead(members, st, depth, c, j);
    MemberPieces(m, st, depth, more, c, j);
    var ind := Indent(st, depth);
    QuotedStart(m.key);
    FirstChar(c, j + |ind|, Quoted(m.key));
    Glue(c, i, Newline(st), ind);
    SkipTo(c, i, Newline(st) + ind);
    MembersAfterSpace(c, i, Newline(st) + ind, depth);
    MembersAfterSpace(c, j, ind, depth);
  }

  lemma {:induction false} ObjectRoundTrip(members: seq<Member>, st: Style, depth: nat, c: string, i: nat)
    requires IntNumbers(Object(members)) && CanPrint(Object(members), st, depth)
    requires StartsWith(c, i, Text(Object(members), st, depth))
    ensures ObjectAt(c, i, depth) == Parsed(Object(members), i + |Text(Object(members), st, depth)|)
    decreases members, 4
  {
    hide Text, MembersText, MembersAt, ObjectAt, Indent, Newline, SkipSpace, StartsWith;
    if members == [] {
      EmptyObject(st, depth, c, i);
    } else {
      var j := i + 1 + |Newline(st)|;
      var e := j + |MembersText(members, st, depth + 1)|;
      ObjectLayout(members, st, depth, c, i, j, e);
      assert MembersAt(c, j, depth + 1) == Parsed(members, e + |Indent(st, depth)| + 1) by {
        MembersRoundTrip(members, st, depth + 1, c, j, e);
      }
      ObjectFromParts(c, i, depth, members, SkipSpace(c, i + 1), e + |Indent(st, depth)| + 1);
    }
  }

  lemma ObjectLayout(members: seq<Member>, st: Style, depth: nat, c: string, i: nat, j: nat, e: nat)
    requires |members| > 0
    requires StartsWith(c, i, Text(Object(members), st, depth))
    requires j == i + 1 + |Newline(st)| && e == j + |MembersText(members, st, depth + 1)|
    ensures e + |Indent(st, depth)| + 1 == i + |Text(Object(members), st, depth)|
    ensures StartsWith(c, j, MembersText(members, st, depth + 1))
    ensures StartsWith(c, e, Indent(st, depth)) && StartsWith(c, e + |Indent(st, depth)|, "}")
    ensures i < |c| && SkipSpace(c, i + 1) < |c| && c[SkipSpace(c, i + 1)] == '\"'
    ensures MembersAt(c, SkipSpace(c, i + 1), depth + 1) == MembersAt(c, j, depth + 1)
  {
    hide Text, MembersText, MembersAt, Indent, Newline, SkipSpace, StartsWith;
    TextOfObject(members, st, depth);
    ObjectPieces(c, i, Newline(st), MembersText(members, st, depth + 1), Indent(st, depth));
    FirstMember(members, st, depth + 1, c, i + 1);
  }

  lemma TextOfObject(members: seq<Member>, st: Style, depth: nat)
    ensures Text(Object(members), st, depth)
            == "{" + (Newline(st) + (MembersText(members, st, depth + 1) + (Indent(st, depth) + "}")))
  {
  }

  lemma FirstMember(members: seq<Member>, st: Style, depth: nat, c: string, i: nat)
    requires |members| > 0
    requires StartsWith(c, i, Newline(st))
    requires StartsWith(c, i + |Newline(st)|, MembersText(members, st, depth))
    ensures SkipSpace(c, i) < |c| && c[SkipSpace(c, i)] == '\"'
    ensures MembersAt(c, SkipSpace(c, i), depth) == MembersAt(c, i + |Newline(st)|, depth)
  {
    MembersAfterNewline(members, st, depth, c, i);
    SameFromSkip(c, i, depth);
  }

  lemma EmptyObject(st: Style, depth: nat, c: string, i: nat)
    requires depth < NESTING_LIMIT
    requires StartsWith(c, i, Text(Object([]), st, depth))
    ensures ObjectAt(c, i, depth) == Parsed(Object([]), i + |Text(Object([]), st, depth)|)
  {
    ObjectPieces(c, i, Newline(st), [], Indent(st, depth));
    SkipTo(c, i + 1, Newline(st) + Indent(st, depth));
  }

  lemma ObjectPieces(c: string, i: nat, nl: string, inner: string, ind: string)
    requires StartsWith(c, i, "{" + (nl + (inner + (ind + "}"))))
    ensures c[i] == '{' && StartsWith(c, i + 1, nl) && StartsWith(c, i + 1 + |nl|, inner)
    ensures var e := i + 1 + |nl| + |inner|;
            StartsWith(c, e, ind) && StartsWith(c, e + |ind|, "}") && c[e + |ind|] == '}'
    ensures inner == [] ==> StartsWith(c, i + 1, nl + ind)
    ensures |"{" + (nl + (inner + (ind + "}")))| == 2 + |nl| + |inner| + |ind|
  {
    PrefixOf(c, i, "{", nl + (inner + (ind + "}")));
    FirstChar(c, i, "{");
    PrefixOf(c, i + 1, nl, inner + (ind + "}"));
    PrefixOf(c, i + 1 + |nl|, inner, ind + "}");
    PrefixOf(c, i + 1 + |nl| + |inner|, ind, "}");
    FirstChar(c, i + 1 + |nl| + |inner| + |ind|, "}");
    if inner == [] { Glue(c, i + 1, nl, ind); }
  }

  lemma ObjectFromParts(c: string, i: nat, depth: nat, members: seq<Member>, p: nat, q: nat)
    requires i < |c| && depth < NESTING_LIMIT
    requires p == SkipSpace(c, i + 1) && p < |c| && c[p] == '\"'
    requires MembersAt(c, p, depth + 1) == Parsed(members, q)
    ensures ObjectAt(c, i, depth) == Parsed(Object(members), q)
  {
  }

  lemma SameFromSkip(c: string, i: nat, depth: nat)
    requires i <= |c| && SkipSpace(c, i) < |c| && !IsSpace(c[SkipSpace(c, i)])
    ensures MembersAt(c, i, depth) == MembersAt(c, SkipSpace(c, i), depth)
  {
    SkipNothing(c, SkipSpace(c, i));
    assert MemberAt(c, i, depth) == MemberAt(c, SkipSpace(c, i), depth);
  }

  /**
   Whatever can be printed parses back, as a C string with its NUL, whether or
   not the caller insists that nothing but whitespace follows the value.
   */
  lemma DocumentRoundTrip(v: Json, st: Style, nulTerminated: bool)
    requires IntNumbers(v) && CanPrint(v, st, 0)
    ensures Document(Text(v, st, 0) + "\0", nulTerminated) == Parsed(v, |Text(v, st, 0)|)
  {
    var t := Text(v, st, 0);
    var c := t + "\0";
    TextStart(v, st, 0);
    assert c[0..|t|] == t;
    StartsWithIsSlice(c, 0, t);
    assert SkipBom(c) == 0 by {
      if |c| > 4 && c[..3] == [0xEF as char, 0xBB as char, 0xBF as char] {
        assert c[..3][0] == c[0];
        TextIsAscii(v, st, 0);
      }
    }
    SkipNothing(c, 0);
    ValueRoundTrip(v, st, 0, c, 0);
    assert SkipSpace(c, |t|) == |t|;
  }

  lemma TextIsAscii(v: Json, st: Style, depth: nat)
    requires IntNumbers(v)
    ensures var t := Text(v, st, depth); |t| > 0 && t[0] as int < 128
  {
  }

  /** The two styles of one tree are the same document. */
  lemma StylesAgree(v: Json, st: Style, st': Style, nulTerminated: bool)
    requires IntNumbers(v) && CanPrint(v, st, 0) && CanPrint(v, st', 0)
    ensures Document(Text(v, st, 0) + "\0", nulTerminated).Parsed?
    ensures Document(Text(v, st', 0) + "\0", nulTerminated).Parsed?
    ensures Document(Text(v, st, 0) + "\0", nulTerminated).value
            == Document(Text(v, st', 0) + "\0", nulTerminated).value
  {
    DocumentRoundTrip(v, st, nulTerminated);
    DocumentRoundTrip(v, st', nulTerminated);
  }
}
