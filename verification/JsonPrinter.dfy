/**
 The print buffer: a byte array that grows on demand (unless preallocated), an
 offset where the next byte goes, and the nesting depth. Every write goes through
 a space check, every value leaves a NUL behind it, and the offset catches up
 with the text by searching for that NUL.
 */
module JsonPrinter {
  import opened Decimals
  import opened JsonItems
  import opened JsonList
  import opened JsonText
  import opened JsonTree
  import opened Wrappers

  // --- facts about the printed text --------------------------------------

  lemma {:induction false} EscapeAllAppend(s: string, c: char)
    ensures EscapeAll(s + [c]) == EscapeAll(s) + Escape(c)
    decreases |s|
  {
    hide Escape;
    if s == [] {
      assert (s + [c])[1..] == [];
    } else {
      EscapeAllAppend(s[1..], c);
      assert (s + [c])[1..] == s[1..] + [c];
    }
  }

  lemma {:induction false} EscapeAllSplit(s: string, i: nat)
    requires i <= |s|
    ensures EscapeAll(s) == EscapeAll(s[..i]) + EscapeAll(s[i..])
    decreases |s| - i
  {
    hide Escape;
    if i == |s| {
      assert s[..i] == s;
    } else {
      EscapeAllSplit(s, i + 1);
      assert s[..i + 1] == s[..i] + [s[i]];
      EscapeAllAppend(s[..i], s[i]);
      assert s[i..][1..] == s[i + 1..];
    }
  }

  lemma EmptyEscape(s: string)
    ensures EscapeAll(s[..0]) == []
  {
  }

  lemma OneMore(s: string, i: nat)
    requires i < |s|
    ensures EscapeAll(s[..i + 1]) == EscapeAll(s[..i]) + Escape(s[i])
    ensures |EscapeAll(s[..i])| + |Escape(s[i])| <= |EscapeAll(s)|
  {
    assert s[..i + 1] == s[..i] + [s[i]];
    EscapeAllAppend(s[..i], s[i]);
    EscapeAllSplit(s, i + 1);
  }

  lemma {:induction false} EscapedHasNoNul(s: CString)
    ensures '\0' !in EscapeAll(s)
    decreases |s|
  {
    if s != [] {
      EscapedHasNoNul(s[1..]);
      assert '\0' !in Escape(s[0]);
    }
  }

  /** The text can be measured with strlen. */
  lemma {:induction false} TextHasNoNul(v: Json, st: Style, depth: nat)
    ensures '\0' !in Text(v, st, depth)
    decreases v, 1
  {
    match v {
      case Null =>
      case False =>
      case True =>
      case Number(d) =>
      case String(s) => EscapedHasNoNul(s);
      case Array(items) => ItemsHaveNoNul(items, st, depth + 1);
      case Object(members) => MembersHaveNoNul(members, st, depth + 1);
    }
  }

  lemma {:induction false} ItemsHaveNoNul(items: seq<Json>, st: Style, depth: nat)
    ensures '\0' !in ItemsText(items, st, depth)
    decreases items, 0
  {
    if items != [] {
      TextHasNoNul(items[0], st, depth);
      ItemsHaveNoNul(items[1..], st, depth);
    }
  }

  lemma {:induction false} MembersHaveNoNul(members: seq<Member>, st: Style, depth: nat)
    ensures '\0' !in MembersText(members, st, depth)
    decreases members, 0
  {
    if members != [] {
      MemberHasNoNul(members[0], st, depth, |members| > 1);
      MembersHaveNoNul(members[1..], st, depth);
      hide MemberText;
    }
  }

  lemma {:induction false} MemberHasNoNul(m: Member, st: Style, depth: nat, more: bool)
    ensures '\0' !in MemberText(m, st, depth, more)
    decreases m, 2
  {
    EscapedHasNoNul(m.key);
    TextHasNoNul(m.value, st, depth);
    var text, tail := Text(m.value, st, depth), Comma(more) + Newline(st);
    assert '\0' !in Indent(st, depth) && '\0' !in Quoted(m.key) && '\0' !in Colon(st) && '\0' !in tail;
    hide Text, Indent, Quoted, Colon, Comma, Newline;
    assert '\0' !in Colon(st) + (text + tail);
    assert '\0' !in Quoted(m.key) + (Colon(st) + (text + tail));
  }

  // --- the buffer ----------------------------------------------------------

  class PrintBuffer {
    var buffer: array<char>
    var offset: nat
    var depth: nat
    const noalloc: bool
    const style: Style

    ghost predicate Valid()
      reads this
    {
      && buffer.Length <= INT_MAX
      && (offset < buffer.Length || offset == buffer.Length == 0)
    }

    /** The most bytes the buffer can ever hold. */
    ghost function Capacity(): nat
      reads this
    {
      if noalloc then buffer.Length else INT_MAX
    }

    /** What lies before the offset. */
    ghost function Written(): string
      requires offset <= buffer.Length
      reads this, buffer
    {
      buffer[..offset]
    }

    /** The text printed so far is `t`, with its NUL; the offset may lag behind. */
    ghost predicate Holds(t: string)
      reads this, buffer
    {
      && offset <= |t| < buffer.Length
      && buffer[..|t|] == t
      && buffer[|t|] == '\0'
    }

    /** A buffer of `length` bytes, either the caller's own or one that may grow. */
    constructor (length: nat, noalloc: bool, style: Style)
      requires length <= INT_MAX
      ensures Valid() && fresh(buffer) && buffer.Length == length && offset == depth == 0
      ensures this.noalloc == noalloc && this.style == style
    {
      buffer := new char[length](_ => '\0');
      offset, depth := 0, 0;
      this.noalloc, this.style := noalloc, style;
    }

    /** Room for `needed` bytes and one more, growing the buffer if that is allowed. */
    method Ensure(needed: nat) returns (ok: bool)
      requires Valid()
      modifies this`buffer
      ensures Valid() && Capacity() == old(Capacity())
      ensures buffer == old(buffer) || fresh(buffer)
      ensures buffer.Length >= old(buffer.Length)
      ensures buffer[..old(buffer.Length)] == old(buffer[..])
      ensures ok <==> offset + needed + 1 <= Capacity()
      ensures ok ==> offset + needed < buffer.Length
    {
      if buffer.Length > 0 && offset >= buffer.Length { return false; }
      if needed > INT_MAX { return false; }
      var total := needed + offset + 1;
      if total <= buffer.Length { return true; }
      if noalloc { return false; }
      var newsize;
      if total > INT_MAX / 2 {
        if total > INT_MAX { return false; }
        newsize := INT_MAX;
      } else {
        newsize := total * 2;
      }
      var grown := new char[newsize](i requires 0 <= i reads this, buffer =>
                                       if i < buffer.Length then buffer[i] else '\0');
      buffer := grown;
      return true;
    }

    /** strlen from the offset: moves it onto the NUL that ends the text. */
    method UpdateOffset(ghost t: string)
      requires Valid() && Holds(t) && '\0' !in t[offset..]
      modifies this`offset
      ensures Valid() && Written() == t
    {
      ghost var start := offset;
      while buffer[offset] != '\0'
        invariant start <= offset && Valid() && Holds(t)
        invariant offset < |t| ==> buffer[offset] == t[offset] == t[start..][offset - start]
        decreases |t| - offset
      {
        offset := offset + 1;
        assert offset < |t| ==> buffer[..|t|][offset] == t[offset];
      }
    }

    /** strcpy of `s` and its NUL to the offset. */
    method Store(s: string)
      requires Valid() && offset + |s| < buffer.Length
      modifies buffer
      ensures Holds(old(Written()) + s)
    {
      ghost var w := Written();
      for i := 0 to |s|
        invariant buffer[..offset + i] == w + s[..i]
      {
        buffer[offset + i] := s[i];
        assert s[..i + 1] == s[..i] + [s[i]];
      }
      buffer[offset + |s|] := '\0';
      assert s[..|s|] == s;
    }

    /** One byte of a string, escaped, written at `out`. */
    method StoreEscaped(c: char, out: nat) returns (next: nat)
      requires out + |Escape(c)| + 1 < buffer.Length
      modifies buffer
      ensures next == out + |Escape(c)|
      ensures buffer[..next] == old(buffer[..out]) + Escape(c)
    {
      next := out;
      if c as int > 31 && c != '\"' && c != '\\' {
        buffer[next] := c;
      } else {
        buffer[next] := '\\';
        next := next + 1;
        match c
        case '\\' => buffer[next] := '\\';
        case '\"' => buffer[next] := '\"';
        case '\n' => buffer[next] := 'n';
        case '\r' => buffer[next] := 'r';
        case '\t' => buffer[next] := 't';
        case _ =>
          if c as int == 8 {
            buffer[next] := 'b';
          } else if c as int == 12 {
            buffer[next] := 'f';
          } else {
            StoreHex(c, next);
            next := next + 4;
          }
      }
      next := next + 1;
    }

    /** The five characters after the backslash of a control character, and a NUL, as sprintf writes them. */
    method StoreHex(c: char, at: nat)
      requires at + 5 < buffer.Length && c as int < 32
      modifies buffer
      ensures buffer[..at + 5]
              == old(buffer[..at]) + ['u', '0', '0', HexDigit(c as int / 16), HexDigit(c as int % 16)]
    {
      buffer[at], buffer[at + 1], buffer[at + 2] := 'u', '0', '0';
      buffer[at + 3], buffer[at + 4] := HexDigit(c as int / 16), HexDigit(c as int % 16);
      buffer[at + 5] := '\0';
    }

    /** The number of bytes escaping adds to `s`. */
    static method EscapeCharacters(s: CString) returns (n: nat)
      ensures |EscapeAll(s)| == |s| + n
      ensures n == 0 ==> EscapeAll(s) == s
    {
      n := 0;
      for i := 0 to |s|
        invariant |EscapeAll(s[..i])| == i + n
        invariant n == 0 ==> EscapeAll(s[..i]) == s[..i]
      {
        assert s[..i + 1] == s[..i] + [s[i]];
        EscapeAllAppend(s[..i], s[i]);
        match s[i]
        case '\"' | '\\' | '\n' | '\r' | '\t' => n := n + 1;
        case c =>
          if c as int == 8 || c as int == 12 { n := n + 1; }
          else if c as int < 32 { n := n + 5; }
      }
      assert s[..|s|] == s;
    }

    /** A string between quotes. Succeeds exactly when it fits with two bytes to spare. */
    method PrintString(s: CString) returns (ok: bool)
      requires Valid()
      modifies this, buffer
      ensures Valid() && Capacity() == old(Capacity()) && (buffer == old(buffer) || fresh(buffer))
      ensures offset == old(offset) && depth == old(depth)
      ensures ok <==> offset + |Quoted(s)| + 2 <= Capacity()
      ensures ok ==> Holds(old(Written()) + Quoted(s))
    {
      hide EscapeAll, Escape;
      var escapes := EscapeCharacters(s);
      ok := Ensure(|s| + escapes + 3);
      if !ok { return; }
      assert Written() == old(Written());
      StoreQuoted(s, escapes);
    }

    /** The whole quoted text and a NUL. */
    method StoreQuoted(s: CString, escapes: nat)
      requires Valid() && offset + |s| + escapes + 3 < buffer.Length
      requires |EscapeAll(s)| == |s| + escapes && (escapes == 0 ==> EscapeAll(s) == s)
      modifies buffer
      ensures Holds(old(Written()) + Quoted(s))
    {
      hide EscapeAll, Escape;
      ghost var w := Written();
      if escapes == 0 {
        StoreUnescaped(s);
      } else {
        StoreAllEscaped(s);
      }
      StoreQuote(offset + |s| + escapes + 1);
      Reassociate(w, "\"", EscapeAll(s), "\"");
    }

    /** The closing quote and the NUL. */
    method StoreQuote(at: nat)
      requires at + 1 < buffer.Length
      modifies buffer
      ensures buffer[..at + 1] == old(buffer[..at]) + "\"" && buffer[at + 1] == '\0'
    {
      buffer[at] := '\"';
      buffer[at + 1] := '\0';
    }

    /** The opening quote and a string with nothing to escape, copied whole. */
    method StoreUnescaped(s: CString)
      requires Valid() && offset + |s| + 2 < buffer.Length
      modifies buffer
      ensures buffer[..offset + 1 + |s|] == old(Written()) + "\"" + s
    {
      buffer[offset] := '\"';
      forall k | 0 <= k < |s| { buffer[offset + 1 + k] := s[k]; }
    }

    /** The opening quote and the string, escaped byte by byte. */
    method StoreAllEscaped(s: CString)
      requires Valid() && offset + |EscapeAll(s)| + 2 < buffer.Length
      modifies buffer
      ensures buffer[..offset + 1 + |EscapeAll(s)|] == old(Written()) + "\"" + EscapeAll(s)
    {
      hide EscapeAll, Escape;
      ghost var w := Written() + "\"";
      EmptyEscape(s);
      buffer[offset] := '\"';
      var out := offset + 1;
      for i := 0 to |s|
        invariant out == offset + 1 + |EscapeAll(s[..i])| <= offset + 1 + |EscapeAll(s)|
        invariant buffer[..out] == w + EscapeAll(s[..i])
      {
        OneMore(s, i);
        out := StoreEscaped(s[i], out);
      }
      assert s[..|s|] == s;
    }

    /** A number: its text must fit the scratch buffer. */
    method PrintNumber(item: Item, ghost d: real) returns (ok: bool)
      requires Valid() && item.data.number == d && item.data.valueInt == ValueInt(d)
      modifies this, buffer
      ensures Valid() && Capacity() == old(Capacity()) && (buffer == old(buffer) || fresh(buffer))
      ensures old(offset) <= offset && depth == old(depth)
      ensures ok <==> |NumberText(d, style)| <= NUMBER_TEXT_MAX
                      && old(offset) + |NumberText(d, style)| + 2 <= Capacity()
      ensures ok ==> Holds(old(Written()) + NumberText(d, style))
    {
      var n := item.data.valueInt;
      var text := if item.data.number == n as real then Decimal(n) else style.render(item.data.number);
      if |text| > NUMBER_TEXT_MAX { return false; }
      ok := Ensure(|text| + 1);
      if !ok { return; }
      assert buffer[..offset] == old(Written());
      Store(text);
      offset := offset + |text|;
    }

    /**
     Any value. It is printed exactly when the nesting and the number texts allow
     it and the whole text fits with two bytes to spare; the text then stands in
     the buffer right after what was there before.
     */
    method PrintValue(item: Item, ghost t: Shape, ghost key: Option<CString>, ghost v: Json) returns (ok: bool)
      requires Valid() && Means(item, t, key, v)
      modifies this, buffer
      ensures Valid() && Capacity() == old(Capacity()) && (buffer == old(buffer) || fresh(buffer))
      ensures ok <==> CanPrint(v, style, old(depth))
                      && old(offset) + |Text(v, style, old(depth))| + 2 <= Capacity()
      ensures ok ==> old(offset) <= offset && depth == old(depth)
      ensures ok ==> Holds(old(Written()) + Text(v, style, old(depth)))
      decreases t, 5
    {
      MeansPayload(item, t, key, v);
      hide Means;
      var kind := item.data.kind;
      if kind == NULL_KIND {
        ok := PrintLiteral("null");
      } else if kind == FALSE_KIND {
        ok := PrintLiteral("false");
      } else if kind == TRUE_KIND {
        ok := PrintLiteral("true");
      } else if kind == NUMBER_KIND {
        ok := PrintNumber(item, v.value);
      } else if kind == STRING_KIND {
        ok := PrintString(item.data.text.value);
      } else if kind == ARRAY_KIND {
        ok := PrintArray(item, t, key, v.items);
      } else {
        ok := PrintObject(item, t, key, v.members);
      }
    }

    method PrintLiteral(s: string) returns (ok: bool)
      requires Valid()
      modifies this, buffer
      ensures Valid() && Capacity() == old(Capacity()) && (buffer == old(buffer) || fresh(buffer))
      ensures offset == old(offset) && depth == old(depth)
      ensures ok <==> offset + |s| + 2 <= Capacity()
      ensures ok ==> Holds(old(Written()) + s)
    {
      ok := Ensure(|s| + 1);
      if ok {
        assert Written() == old(Written());
        Store(s);
      }
    }

    /** Bytes written at the offset, with a NUL after them; the offset moves past them. */
    method Append(s: string) returns (ok: bool)
      requires Valid()
      modifies this, buffer
      ensures Valid() && Capacity() == old(Capacity()) && (buffer == old(buffer) || fresh(buffer))
      ensures depth == old(depth)
      ensures ok <==> old(offset) + |s| + 2 <= Capacity()
      ensures ok ==> Written() == old(Written()) + s
    {
      ok := PrintLiteral(s);
      if ok {
        offset := offset + |s|;
      }
    }

    /** Bytes written at the offset, which moves past them, with room for `extra` more; no NUL follows. */
    method AppendBare(s: string, extra: nat) returns (ok: bool)
      requires Valid()
      modifies this, buffer
      ensures Valid() && Capacity() == old(Capacity()) && (buffer == old(buffer) || fresh(buffer))
      ensures depth == old(depth)
      ensures ok <==> old(offset) + |s| + extra + 1 <= Capacity()
      ensures ok ==> Written() == old(Written()) + s
    {
      ok := Ensure(|s| + extra);
      if !ok { return; }
      assert Written() == old(Written());
      forall k | 0 <= k < |s| { buffer[offset + k] := s[k]; }
      offset := offset + |s|;
    }

    method PrintArray(item: Item, ghost t: Shape, ghost key: Option<CString>, ghost items: seq<Json>) returns (ok: bool)
      requires Valid() && Means(item, t, key, Array(items))
      modifies this, buffer
      ensures Valid() && Capacity() == old(Capacity()) && (buffer == old(buffer) || fresh(buffer))
      ensures ok <==> CanPrint(Array(items), style, old(depth))
                      && old(offset) + |Text(Array(items), style, old(depth))| + 2 <= Capacity()
      ensures ok ==> old(offset) <= offset && depth == old(depth)
      ensures ok ==> Holds(old(Written()) + Text(Array(items), style, old(depth)))
      decreases t, 4
    {
      hide Text, ItemsText, CanPrint, Means, IsTree, Nodes, Value, TreeOf;
      NodesExist(t);
      ArrayText(items, style, depth);
      if depth >= NESTING_LIMIT { return false; }
      ghost var w, inner := Written(), ItemsText(items, style, depth + 1);
      ok := AppendBare("[", 0);
      if !ok { return; }
      depth := depth + 1;
      assert Means(item, t, key, Array(items));
      ok := PrintItems(item, t, key, items);
      if !ok { return; }
      Reassociate(w, "[", inner, "]");
      ok := PrintLiteral("]");
      if !ok { return; }
      depth := depth - 1;
    }

    /** The elements in order, with separators between them. */
    method PrintItems(item: Item, ghost t: Shape, ghost key: Option<CString>, ghost items: seq<Json>) returns (ok: bool)
      requires Valid() && Means(item, t, key, Array(items))
      modifies this, buffer
      ensures Valid() && Capacity() == old(Capacity()) && (buffer == old(buffer) || fresh(buffer))
      ensures ok <==> (forall k :: 0 <= k < |items| ==> CanPrint(items[k], style, old(depth)))
                      && (items != [] ==> old(offset) + |ItemsText(items, style, old(depth))| + 2 <= Capacity())
      ensures ok ==> depth == old(depth) && Written() == old(Written()) + ItemsText(items, style, old(depth))
      decreases t, 3
    {
      hide ItemsText, ItemText, CanPrint, Means, IsTree, Nodes, Value, TreeOf, Roots;
      ghost var w, done := Written(), "";
      assert items[0..] == items;
      NoItems(items, style, depth);
      FirstChild(item, t, key, Array(items));
      ElementMeans(item, t, key, items, 0);
      NodesExist(t);
      var current := item.child;
      ghost var k := 0;
      while current != null
        invariant k <= |items| == |t.kids| && Means(item, t, key, Array(items))
        invariant current == if k < |items| then Roots(t.kids)[k] else null
        invariant Valid() && Capacity() == old(Capacity()) && (buffer == old(buffer) || fresh(buffer))
        invariant depth == old(depth)
        invariant Written() == w + done
        invariant done + ItemsText(items[k..], style, depth) == ItemsText(items, style, depth)
        invariant forall j :: 0 <= j < k ==> CanPrint(items[j], style, depth)
        invariant k > 0 ==> offset + 2 <= Capacity()
        decreases |items| - k
      {
        ItemsStep(items, k, style, depth);
        ElementMeans(item, t, key, items, k);
        NextChild(item, t, key, Array(items), k);
        ok := PrintItem(current, t.kids[k], items[k]);
        if !ok { return; }
        done := done + ItemText(items[k], style, depth, k + 1 < |items|);
        current := current.next;
        k := k + 1;
      }
      assert done == ItemsText(items, style, depth);
      ok := true;
    }

    /** A value, and the offset moved past it. */
    method PrintMeasured(item: Item, ghost t: Shape, ghost key: Option<CString>, ghost v: Json) returns (ok: bool)
      requires Valid() && Means(item, t, key, v)
      modifies this, buffer
      ensures Valid() && Capacity() == old(Capacity()) && (buffer == old(buffer) || fresh(buffer))
      ensures ok <==> CanPrint(v, style, old(depth))
                      && old(offset) + |Text(v, style, old(depth))| + 2 <= Capacity()
      ensures ok ==> depth == old(depth) && Written() == old(Written()) + Text(v, style, old(depth))
      decreases t, 6
    {
      hide Text, CanPrint, Means;
      ghost var w, text := Written(), Text(v, style, depth);
      TextHasNoNul(v, style, depth);
      ok := PrintValue(item, t, key, v);
      if !ok { return; }
      assert '\0' !in (w + text)[offset..] by { SuffixOf(w, text, offset); }
      UpdateOffset(w + text);
    }

    /** One element and, unless it is the last, the separator after it. */
    method PrintItem(item: Item, ghost t: Shape, ghost v: Json) returns (ok: bool)
      requires Valid() && Means(item, t, None, v)
      modifies this, buffer
      ensures Valid() && Capacity() == old(Capacity()) && (buffer == old(buffer) || fresh(buffer))
      ensures ok <==> CanPrint(v, style, old(depth))
                      && old(offset) + |ItemText(v, style, old(depth), item.next != null)| + 2 <= Capacity()
      ensures ok ==> depth == old(depth)
                     && Written() == old(Written()) + ItemText(v, style, old(depth), item.next != null)
      decreases t, 7
    {
      hide Text, CanPrint, Means;
      ghost var text := Text(v, style, depth);
      ghost var w := Written() + text;
      ok := PrintMeasured(item, t, None, v);
      if !ok { return; }
      if item.next != null {
        ok := Append(if style.format then ", " else ",");
        assert w + ItemSeparator(style) == old(Written()) + (text + ItemSeparator(style));
      }
    }

    method PrintObject(item: Item, ghost t: Shape, ghost key: Option<CString>, ghost members: seq<Member>)
      returns (ok: bool)
      requires Valid() && Means(item, t, key, Object(members))
      modifies this, buffer
      ensures Valid() && Capacity() == old(Capacity()) && (buffer == old(buffer) || fresh(buffer))
      ensures ok <==> CanPrint(Object(members), style, old(depth))
                      && old(offset) + |Text(Object(members), style, old(depth))| + 2 <= Capacity()
      ensures ok ==> old(offset) <= offset && depth == old(depth)
      ensures ok ==> Holds(old(Written()) + Text(Object(members), style, old(depth)))
      decreases t, 4
    {
      hide Text, MembersText, Indent, Newline, CanPrint, Means, IsTree, Nodes, Value, TreeOf;
      NodesExist(t);
      ObjectText(members, style, depth);
      CanPrintObject(members, style, depth);
      if depth >= NESTING_LIMIT { return false; }
      ghost var w, open := Written(), "{" + Newline(style);
      ghost var inner, close := MembersText(members, style, depth + 1), Indent(style, depth) + "}";
      BraceText(style);
      Reassociate(w, open, inner, close);
      ok := AppendBare(if style.format then "{\n" else "{", 1);
      if !ok { return; }
      depth := depth + 1;
      assert Means(item, t, key, Object(members));
      ok := PrintBlock(item, t, key, members);
    }

    /** What comes after the opening brace: the members, and the closing brace one level up. */
    method PrintBlock(item: Item, ghost t: Shape, ghost key: Option<CString>, ghost members: seq<Member>)
      returns (ok: bool)
      requires Valid() && depth > 0 && Means(item, t, key, Object(members))
      modifies this, buffer
      ensures Valid() && Capacity() == old(Capacity()) && (buffer == old(buffer) || fresh(buffer))
      ensures var inner, close := MembersText(members, style, old(depth)), Indent(style, old(depth) - 1) + "}";
              && (ok <==> (forall k :: 0 <= k < |members| ==> CanPrint(members[k].value, style, old(depth)))
                          && old(offset) + |inner| + |close| + 2 <= Capacity())
              && (ok ==> old(offset) <= offset && depth == old(depth) - 1 && Holds(old(Written()) + inner + close))
      decreases t, 3
    {
      hide MembersText, Indent, CanPrint, Means;
      ok := PrintMembers(item, t, key, members);
      if !ok { return; }
      ok := PrintLiteral(ClosingText(depth - 1));
      if !ok { return; }
      depth := depth - 1;
    }

    /** The members in order. */
    method PrintMembers(item: Item, ghost t: Shape, ghost key: Option<CString>, ghost members: seq<Member>)
      returns (ok: bool)
      requires Valid() && Means(item, t, key, Object(members))
      modifies this, buffer
      ensures Valid() && Capacity() == old(Capacity()) && (buffer == old(buffer) || fresh(buffer))
      ensures ok <==> (forall k :: 0 <= k < |members| ==> CanPrint(members[k].value, style, old(depth)))
                      && (members != [] ==> old(offset) + |MembersText(members, style, old(depth))| + 2 <= Capacity())
      ensures ok ==> depth == old(depth) && Written() == old(Written()) + MembersText(members, style, old(depth))
      decreases t, 2
    {
      hide MembersText, MemberText, CanPrint, Means, IsTree, Nodes, Value, TreeOf, Roots;
      ghost var w, done := Written(), "";
      assert members[0..] == members;
      NoMembers(members, style, depth);
      FirstChild(item, t, key, Object(members));
      MemberMeans(item, t, key, members, 0);
      NodesExist(t);
      var current := item.child;
      ghost var k := 0;
      while current != null
        invariant k <= |members| == |t.kids| && Means(item, t, key, Object(members))
        invariant current == if k < |members| then Roots(t.kids)[k] else null
        invariant Valid() && Capacity() == old(Capacity()) && (buffer == old(buffer) || fresh(buffer))
        invariant depth == old(depth)
        invariant Written() == w + done
        invariant done + MembersText(members[k..], style, depth) == MembersText(members, style, depth)
        invariant forall j :: 0 <= j < k ==> CanPrint(members[j].value, style, depth)
        invariant k > 0 ==> offset + 2 <= Capacity()
        decreases |members| - k
      {
        MembersStep(members, k, style, depth);
        MemberMeans(item, t, key, members, k);
        NextChild(item, t, key, Object(members), k);
        ok := PrintMember(current, t.kids[k], members[k]);
        if !ok { return; }
        done := done + MemberText(members[k], style, depth, k + 1 < |members|);
        current := current.next;
        k := k + 1;
      }
      assert done == MembersText(members, style, depth);
      ok := true;
    }

    /** Indentation of the closing brace, and the brace. */
    function ClosingText(n: nat): (s: string)
      ensures s == Indent(style, n) + "}"
    {
      if style.format then Tabs(n) + "}" else "}"
    }

    /** The indentation, the key, the colon, the value, and what follows it. */
    method PrintMember(item: Item, ghost s: Shape, ghost m: Member) returns (ok: bool)
      requires Valid() && Means(item, s, Some(m.key), m.value)
      modifies this, buffer
      ensures Valid() && Capacity() == old(Capacity()) && (buffer == old(buffer) || fresh(buffer))
      ensures ok <==> CanPrint(m.value, style, old(depth))
                      && old(offset) + |MemberText(m, style, old(depth), item.next != null)| + 2 <= Capacity()
      ensures ok ==> depth == old(depth)
                     && Written() == old(Written()) + MemberText(m, style, old(depth), item.next != null)
      decreases s, 8
    {
      hide CanPrint, Means, MemberText, KeyText, EndedText, IsTree, Nodes, Value, TreeOf, Quoted;
      MeansPayload(item, s, Some(m.key), m.value);
      NodesExist(s);
      MemberLayout(m, style, depth, item.next != null);
      ghost var w, start, rest := Written(), KeyText(m.key, style, depth),
                                  EndedText(m.value, style, depth, item.next != null);
      ok := PrintKey(item.data.key.value);
      if !ok { return; }
      assert Means(item, s, Some(m.key), m.value);
      ok := PrintEnded(item, s, Some(m.key), m.value);
      assert w + start + rest == w + (start + rest);
    }

    /** A member's value, and the comma and newline after it. */
    method PrintEnded(item: Item, ghost t: Shape, ghost key: Option<CString>, ghost v: Json) returns (ok: bool)
      requires Valid() && Means(item, t, key, v)
      modifies this, buffer
      ensures Valid() && Capacity() == old(Capacity()) && (buffer == old(buffer) || fresh(buffer))
      ensures ok <==> CanPrint(v, style, old(depth))
                      && old(offset) + |EndedText(v, style, old(depth), item.next != null)| + 2 <= Capacity()
      ensures ok ==> depth == old(depth)
                     && Written() == old(Written()) + EndedText(v, style, old(depth), item.next != null)
      decreases t, 7
    {
      hide Text, CanPrint, Newline, Comma, Means, IsTree, Nodes, Value, TreeOf;
      NodesExist(t);
      ghost var w, text, end := Written(), Text(v, style, depth), Comma(item.next != null) + Newline(style);
      ok := PrintMeasured(item, t, key, v);
      if !ok { return; }
      ok := Append(EndText(item.next != null));
      assert w + text + end == w + (text + end);
    }

    function EndText(more: bool): (s: string)
      ensures s == Comma(more) + Newline(style)
    {
      (if more then "," else "") + if style.format then "\n" else ""
    }

    /** The tabs before a member, when formatting. */
    method AppendIndent() returns (ok: bool)
      requires Valid()
      modifies this, buffer
      ensures Valid() && Capacity() == old(Capacity()) && (buffer == old(buffer) || fresh(buffer))
      ensures depth == old(depth)
      ensures !ok ==> old(offset) + |Indent(style, depth)| + 1 > Capacity()
      ensures ok ==> Written() == old(Written()) + Indent(style, depth)
    {
      if style.format {
        ok := AppendBare(Tabs(depth), 0);
      } else {
        ok := true;
        assert Written() == old(Written()) + [];
      }
    }

    method PrintKey(key: CString) returns (ok: bool)
      requires Valid()
      modifies this, buffer
      ensures Valid() && Capacity() == old(Capacity()) && (buffer == old(buffer) || fresh(buffer))
      ensures depth == old(depth)
      ensures !ok ==> old(offset) + |KeyText(key, style, depth)| + 1 > Capacity()
      ensures ok ==> Written() == old(Written()) + KeyText(key, style, depth)
    {
      hide Quoted, Indent, Colon;
      ColonText(style);
      ghost var w := Written();
      ghost var i := Indent(style, depth);
      ok := AppendIndent();
      if !ok { return; }
      ok := PrintString(key);
      if !ok { return; }
      assert '\0' !in (w + i + Quoted(key))[offset..] by {
        QuotedHasNoNul(key);
        SuffixOf(w + i, Quoted(key), offset);
      }
      UpdateOffset(w + i + Quoted(key));
      ok := AppendBare(if style.format then ":\t" else ":", 0);
    }
  }

  lemma FirstChild(item: Item, t: Shape, key: Option<CString>, v: Json)
    requires Means(item, t, key, v)
    ensures item.child == if t.kids == [] then null else Roots(t.kids)[0]
  {
    TreeChildren(t);
  }

  lemma NextChild(item: Item, t: Shape, key: Option<CString>, v: Json, k: nat)
    requires Means(item, t, key, v) && k < |t.kids|
    ensures Roots(t.kids)[k].next == if k + 1 < |t.kids| then Roots(t.kids)[k + 1] else null
  {
    TreeChildren(t);
  }

  lemma Reassociate(a: string, b: string, c: string, d: string)
    ensures a + b + c + d == a + (b + c + d)
  {
  }

  lemma CanPrintObject(members: seq<Member>, st: Style, depth: nat)
    ensures CanPrint(Object(members), st, depth)
            <==> depth < NESTING_LIMIT
                 && forall i :: 0 <= i < |members| ==> CanPrint(members[i].value, st, depth + 1)
  {
  }

  /** What comes before a member's value. */
  function KeyText(key: CString, st: Style, depth: nat): string {
    Indent(st, depth) + Quoted(key) + Colon(st)
  }

  /** The value and what comes after it. */
  function EndedText(v: Json, st: Style, depth: nat, more: bool): string {
    Text(v, st, depth) + (Comma(more) + Newline(st))
  }

  lemma MemberLayout(m: Member, st: Style, depth: nat, more: bool)
    ensures MemberText(m, st, depth, more)
            == KeyText(m.key, st, depth) + EndedText(m.value, st, depth, more)
  {
    hide Text, Quoted, Indent, Colon, Comma, Newline;
    Nest(Indent(st, depth), Quoted(m.key), Colon(st), EndedText(m.value, st, depth, more));
  }

  lemma Nest(a: string, b: string, c: string, d: string)
    ensures a + b + c + d == a + (b + (c + d))
  {
  }

  lemma ArrayText(items: seq<Json>, st: Style, depth: nat)
    ensures Text(Array(items), st, depth) == "[" + ItemsText(items, st, depth + 1) + "]"
    ensures CanPrint(Array(items), st, depth)
            <==> depth < NESTING_LIMIT && forall i :: 0 <= i < |items| ==> CanPrint(items[i], st, depth + 1)
  {
  }

  lemma ObjectText(members: seq<Member>, st: Style, depth: nat)
    ensures Text(Object(members), st, depth)
            == ("{" + Newline(st)) + MembersText(members, st, depth + 1) + (Indent(st, depth) + "}")
  {
  }

  lemma ColonText(st: Style)
    ensures (if st.format then ":\t" else ":") == Colon(st)
  {
  }

  lemma BraceText(st: Style)
    ensures (if st.format then "{\n" else "{") == "{" + Newline(st)
  {
  }

  lemma QuotedHasNoNul(s: CString)
    ensures '\0' !in Quoted(s)
  {
    EscapedHasNoNul(s);
  }

  lemma MembersStep(members: seq<Member>, i: nat, st: Style, depth: nat)
    requires i < |members|
    ensures MembersText(members[i..], st, depth)
            == MemberText(members[i], st, depth, i + 1 < |members|) + MembersText(members[i + 1..], st, depth)
  {
    assert members[i..][1..] == members[i + 1..];
  }

  lemma NoMembers(members: seq<Member>, st: Style, depth: nat)
    ensures MembersText(members[|members|..], st, depth) == []
  {
  }

  /** A growing buffer of 256 bytes, printed into and then cut to length. */
  method Print(item: Item, style: Style, ghost t: Shape, ghost key: Option<CString>, ghost v: Json)
    returns (r: Option<string>)
    requires Means(item, t, key, v)
    ensures r.Some? <==> CanPrint(v, style, 0) && |Text(v, style, 0)| + 2 <= INT_MAX
    ensures r.Some? ==> r.value == Text(v, style, 0)
  {
    hide Means;
    NodesExist(t);
    var p := new PrintBuffer(256, false, style);
    assert p.Written() == [];
    var ok := p.PrintValue(item, t, key, v);
    if !ok { return None; }
    TextHasNoNul(v, style, 0);
    SuffixOf([], Text(v, style, 0), p.offset);
    assert [] + Text(v, style, 0) == Text(v, style, 0);
    p.UpdateOffset(Text(v, style, 0));
    r := Some(p.buffer[..p.offset]);
  }

  /**
   A buffer of exactly `length` bytes that may not grow: it must hold the text,
   its NUL and one byte more.
   */
  method PrintPreallocated(item: Item, length: nat, style: Style, ghost t: Shape, ghost key: Option<CString>,
                           ghost v: Json) returns (r: Option<string>)
    requires length <= INT_MAX && Means(item, t, key, v)
    ensures r.Some? <==> CanPrint(v, style, 0) && |Text(v, style, 0)| + 2 <= length
    ensures r.Some? ==> |r.value| == length && Text(v, style, 0) + "\0" <= r.value
  {
    hide Means;
    NodesExist(t);
    var p := new PrintBuffer(length, true, style);
    assert p.Written() == [];
    hide Text, CanPrint;
    var ok := p.PrintValue(item, t, key, v);
    if !ok { return None; }
    assert [] + Text(v, style, 0) == Text(v, style, 0);
    r := Some(p.buffer[..]);
  }

  lemma SuffixOf(w: string, t: string, i: nat)
    requires |w| <= i <= |w + t| && '\0' !in t
    ensures '\0' !in (w + t)[i..]
  {
    assert (w + t)[i..] == t[i - |w|..];
  }

  function ItemText(v: Json, st: Style, depth: nat, more: bool): string {
    Text(v, st, depth) + if more then ItemSeparator(st) else []
  }

  lemma ItemsStep(items: seq<Json>, i: nat, st: Style, depth: nat)
    requires i < |items|
    ensures ItemsText(items[i..], st, depth)
            == ItemText(items[i], st, depth, i + 1 < |items|) + ItemsText(items[i + 1..], st, depth)
  {
    assert items[i..][1..] == items[i + 1..];
  }

  lemma NoItems(items: seq<Json>, st: Style, depth: nat)
    ensures ItemsText(items[|items|..], st, depth) == []
  {
  }
}
