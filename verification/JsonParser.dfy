/**
 The parser as it runs: an offset and a depth updated in place, loops that scan
 and collect, and a string decoder that sizes its output in a first pass and
 writes it in a second one.
 */
module JsonParser {
  import opened JsonItems
  import opened JsonList
  import opened JsonSyntax
  import opened JsonText
  import opened JsonTree
  import opened Wrappers

  // --- why the decoder's output fits ---------------------------------------

  /** Whether the sizing pass, started at `from`, sees an escape begin at `i`. */
  ghost predicate EscapeStart(c: string, from: nat, i: nat)
    requires from <= i < |c|
    decreases i
  {
    c[i] == '\\' && !(i > from && EscapeStart(c, from, i - 1))
  }

  /** How many escapes the sizing pass sees begin in [a, b). */
  ghost function Escapes(c: string, from: nat, a: nat, b: nat): (n: nat)
    requires from <= a <= b <= |c|
    ensures n <= b - a
    decreases b
  {
    if a == b then 0 else Escapes(c, from, a, b - 1) + if EscapeStart(c, from, b - 1) then 1 else 0
  }

  lemma {:induction false} EscapesSplit(c: string, from: nat, a: nat, m: nat, b: nat)
    requires from <= a <= m <= b <= |c|
    ensures Escapes(c, from, a, b) == Escapes(c, from, a, m) + Escapes(c, from, m, b)
    decreases b
  {
    if m < b {
      EscapesSplit(c, from, a, m, b - 1);
    }
  }

  /** No two neighbours both begin an escape, so at most every other byte does. */
  lemma {:induction false} AtMostHalf(c: string, from: nat, a: nat, b: nat)
    requires from <= a <= b <= |c|
    ensures 2 * Escapes(c, from, a, b) <= b - a + 1
    decreases b - a
  {
    if b - a >= 2 {
      AtMostHalf(c, from, a, b - 2);
      assert Escapes(c, from, a, b - 1)
             == Escapes(c, from, a, b - 2) + if EscapeStart(c, from, b - 2) then 1 else 0;
      assert EscapeStart(c, from, b - 1) ==> !EscapeStart(c, from, b - 2);
    }
  }

  /**
   The potential of the decoding pass: however far it is out of step with the
   sizing pass, a step writes at most the bytes it consumes minus the escapes the
   sizing pass counted among them.
   */
  lemma StepFits(c: string, from: nat, p: nat, end: nat)
    requires from <= p < end < |c|
    ensures var r := DecodeStep(c, p, end);
            r.Parsed? ==>
              p + r.next <= end + 1 && |r.value| + Escapes(c, from, p, p + r.next) <= r.next
  {
    var r := DecodeStep(c, p, end);
    if r.Parsed? {
      AtMostHalf(c, from, p, p + r.next);
      assert r.next == 1 ==> Escapes(c, from, p, p + 1) == 0;
    }
  }

  /** The bytes written before `p`, for which the room is certain. */
  ghost predicate Fits(c: string, from: nat, p: nat, written: nat) {
    from <= p <= |c| && written + Escapes(c, from, from, p) <= p - from
  }

  /** What is written when the decoder is at `p` leaves room for the NUL. */
  lemma RoomForNul(c: string, from: nat, p: nat, end: nat, written: nat)
    requires Fits(c, from, p, written) && p <= end + 1 && end < |c| && c[end] == '\"' && from <= end
    ensures written <= end + 1 - from - Escapes(c, from, from, end)
  {
    if p <= end {
      EscapesSplit(c, from, from, p, end);
    } else {
      assert !EscapeStart(c, from, end);
    }
  }

  ghost function Prefixed(out: string, r: Parsed<string>): Parsed<string> {
    match r
    case Failed => Failed
    case Parsed(s, q) => Parsed(out + s, q)
  }

  lemma NothingPrefixed(r: Parsed<string>)
    ensures Prefixed([], r) == r
  {
    if r.Parsed? { assert [] + r.value == r.value; }
  }

  /** A loop's result: what it has collected so far, then what is still to come. */
  ghost function Collected<T>(done: seq<T>, r: Parsed<seq<T>>): Parsed<seq<T>> {
    match r
    case Failed => Failed
    case Parsed(s, q) => Parsed(done + s, q)
  }

  lemma CollectOne<T>(done: seq<T>, v: T, r: Parsed<seq<T>>)
    ensures Collected(done + [v], r) == Collected(done, Collected([v], r))
  {
    if r.Parsed? { assert done + [v] + r.value == done + ([v] + r.value); }
  }

  lemma NothingCollected<T>(r: Parsed<seq<T>>)
    ensures Collected([], r) == r
  {
    if r.Parsed? { assert [] + r.value == r.value; }
  }

  // --- the parse buffer ------------------------------------------------------

  /** A tree of items for `v` under `key`, in no list. */
  ghost predicate IsNew(r: Item?, t: Option<Shape>, key: Option<CString>, v: Json)
    reads r, if t.Some? then Nodes(t.value) else {}
  {
    r != null && t.Some? && Built(r, t.value, key, v)
  }

  class ParseBuffer {
    const content: string
    var offset: nat
    var depth: nat

    ghost predicate Valid()
      reads this
    {
      offset <= |content|
    }

    constructor (content: string)
      ensures this.content == content && offset == 0 && depth == 0
    {
      this.content := content;
      offset, depth := 0, 0;
    }

    method SkipWhitespace()
      requires Valid()
      modifies this`offset
      ensures Valid() && offset == SkipSpace(content, old(offset))
    {
      if offset >= |content| { return; }
      while offset < |content| && content[offset] as int <= 32
        invariant old(offset) <= offset <= |content|
        invariant Span(content, old(offset), SpaceClass) == Span(content, offset, SpaceClass)
      {
        offset := offset + 1;
      }
      if offset == |content| {
        offset := offset - 1;
      }
    }

    method ParseNumber() returns (r: Option<Json>)
      requires Valid()
      modifies this`offset
      ensures Valid()
      ensures match NumberAt(content, old(offset))
              case Failed => r == None
              case Parsed(v, n) => r == Some(v) && offset == n
    {
      var length := 0;
      while offset + length < |content| && IsNumberChar(content[offset + length])
        invariant offset + length <= |content|
        invariant Span(content, offset, NumberClass) == Span(content, offset + length, NumberClass)
      {
        length := length + 1;
      }
      match Strtod(content[offset..offset + length])
      case Failed => r := None;
      case Parsed(d, n) =>
        offset := offset + n;
        r := Some(Number(d));
    }

    /** Four hex digits at `input`, or 0. */
    method ParseHex4(input: nat) returns (h: nat)
      requires input + 4 <= |content|
      ensures h == Hex4(content, input)
    {
      h := 0;
      for i := 0 to 4
        invariant i > 0 ==> HexValue(content[input]) < 16
        invariant i > 1 ==> HexValue(content[input + 1]) < 16
        invariant i > 2 ==> HexValue(content[input + 2]) < 16
        invariant i > 3 ==> HexValue(content[input + 3]) < 16
        invariant i == 0 ==> h == 0
        invariant i == 1 ==> h == HexValue(content[input]) * 16
        invariant i == 2 ==> h == (HexValue(content[input]) * 16 + HexValue(content[input + 1])) * 16
        invariant i == 3 ==> h == ((HexValue(content[input]) * 16 + HexValue(content[input + 1])) * 16
                                   + HexValue(content[input + 2])) * 16
        invariant i == 4 ==> h == ((HexValue(content[input]) * 16 + HexValue(content[input + 1])) * 16
                                   + HexValue(content[input + 2])) * 16 + HexValue(content[input + 3])
      {
        var c := content[input + i];
        if '0' <= c <= '9' {
          h := h + (c as int - '0' as int);
        } else if 'A' <= c <= 'F' {
          h := h + 10 + (c as int - 'A' as int);
        } else if 'a' <= c <= 'f' {
          h := h + 10 + (c as int - 'a' as int);
        } else {
          return 0;
        }
        if i < 3 {
          h := h * 16;
        }
      }
    }

    /** The literal at `input` as UTF-8 at `at` in the output; 0 when it is not one. */
    method Utf16LiteralToUtf8(input: nat, end: nat, output: array<char>, at: nat)
      returns (sequenceLength: nat, next: nat)
      requires input <= end <= |content|
      requires var r := Utf16Literal(content, input, end); r.Parsed? ==> at + Utf8Length(r.value) <= output.Length
      requires at <= output.Length
      modifies output
      ensures match Utf16Literal(content, input, end)
              case Failed => sequenceLength == 0
              case Parsed(cp, n) =>
                sequenceLength == n && next == at + Utf8Length(cp)
                && output[..next] == old(output[..at]) + Utf8(cp)
    {
      next := at;
      if end - input < 6 { return 0, at; }
      var first := ParseHex4(input + 2);
      var codepoint;
      if 0xDC00 <= first <= 0xDFFF { return 0, at; }
      if 0xD800 <= first <= 0xDBFF {
        var second := input + 6;
        if end - second < 6 { return 0, at; }
        if content[second] != '\\' || content[second + 1] != 'u' { return 0, at; }
        var low := ParseHex4(second + 2);
        if low < 0xDC00 || low > 0xDFFF { return 0, at; }
        sequenceLength := 12;
        codepoint := 0x10000 + first % 0x400 * 0x400 + low % 0x400;
      } else {
        sequenceLength := 6;
        codepoint := first;
      }
      var length := Utf8Length(codepoint);
      EncodeUtf8(codepoint, output, at);
      next := at + length;
    }

    /** Continuation bytes from the last to the second, then the first byte. */
    static method EncodeUtf8(cp: nat, output: array<char>, at: nat)
      requires cp < 0x110000 && at + Utf8Length(cp) <= output.Length
      modifies output
      ensures output[..at + Utf8Length(cp)] == old(output[..at]) + Utf8(cp)
    {
      var length := Utf8Length(cp);
      ghost var before := output[..at];
      var rest, position := cp, length - 1;
      while position > 0
        invariant 0 <= position < length
        invariant output[..at] == before
        invariant Shift(cp, length - 1) == Shift(rest, position)
        invariant Continuation(cp, length - 1)
                  == Continuation(rest, position) + output[at + position + 1..at + length]
      {
        output[at + position] := (0x80 + rest % 64) as char;
        rest := rest / 64;
        position := position - 1;
      }
      FirstByteIsSmall(cp);
      output[at] := (FirstByteMark(length) + rest) as char;
    }

    /** The closing quote, and the output size: the bytes between the quotes and one, less the escapes. */
    method SizeString() returns (r: Option<(nat, nat)>)
      requires offset < |content|
      ensures match ClosingQuote(content, offset + 1)
              case Failed => r == None
              case Parsed(_, end) => r == Some((end, end - offset - Escapes(content, offset + 1, offset + 1, end)))
    {
      ghost var from := offset + 1;
      var inputEnd, skipped := offset + 1, 0;
      while inputEnd < |content| && content[inputEnd] != '\"'
        invariant from <= inputEnd <= |content|
        invariant ClosingQuote(content, from) == ClosingQuote(content, inputEnd)
        invariant skipped == Escapes(content, from, from, inputEnd)
        invariant inputEnd > from ==> !EscapeStart(content, from, inputEnd - 1)
      {
        if content[inputEnd] == '\\' {
          if inputEnd + 1 >= |content| { return None; }
          assert EscapeStart(content, from, inputEnd);
          assert Escapes(content, from, from, inputEnd + 1) == skipped + 1;
          skipped := skipped + 1;
          inputEnd := inputEnd + 1;
        }
        inputEnd := inputEnd + 1;
      }
      if inputEnd >= |content| { return None; }
      return Some((inputEnd, inputEnd - offset - skipped));
    }

    /** A string literal, decoded into an output sized by the first pass. */
    method ParseString() returns (r: Option<CString>)
      requires offset < |content|
      modifies this`offset
      ensures Valid()
      ensures match StringAt(content, old(offset))
              case Failed => r == None
              case Parsed(s, n) => r == Some(s) && offset == n
    {
      hide Decode, ClosingQuote, UntilNul, Escapes;
      if content[offset] != '\"' { return None; }
      var size := SizeString();
      if size == None { return None; }
      var (inputEnd, allocationLength) := size.value;
      var output := new char[allocationLength + 1](_ => '\0');
      var ok, input := DecodeInto(output, offset + 1, inputEnd);
      if !ok {
        offset := input;
        return None;
      }
      offset := inputEnd + 1;
      r := Some(CStringIn(output[..]));
      ghost var decoded := Decode(content, old(offset) + 1, inputEnd).value;
      assert output[..] == decoded + output[|decoded|..];
      UntilNulOf(decoded, output[|decoded|..]);
    }

    static function CStringIn(memory: string): CString { UntilNul(memory) }

    /** The decoding pass. Every write is within the output, whatever the input. */
    method DecodeInto(output: array<char>, from: nat, end: nat) returns (ok: bool, input: nat)
      requires 0 < from <= end < |content| && content[end] == '\"'
      requires output.Length == end + 2 - from - Escapes(content, from, from, end)
      modifies output
      ensures input <= |content|
      ensures match Decode(content, from, end)
              case Failed => !ok
              case Parsed(s, _) => ok && |s| < output.Length && output[..|s|] == s && output[|s|] == '\0'
    {
      hide Decode, DecodeStep, Escapes, Prefixed;
      input := from;
      var next: nat := 0;
      NothingPrefixed(Decode(content, from, end));
      while input < end
        invariant from <= input <= end + 1
        invariant Fits(content, from, input, next) && next < output.Length
        invariant Decode(content, from, end) == Prefixed(output[..next], Decode(content, input, end))
        decreases end + 1 - input
      {
        StepFits(content, from, input, end);
        ghost var step, done := DecodeStep(content, input, end), output[..next];
        if step.Parsed? {
          StepStaysInside(content, from, input, end, next);
          PrefixMore(done, step.value, Decode(content, input + step.next, end));
        } else {
          PrefixMore(done, [], Failed);
        }
        DecodeInSteps(content, input, end);
        var consumed, after := DecodeOne(output, next, input, end);
        if consumed == 0 { return false, input; }
        input, next := input + consumed, after;
      }
      RoomForNul(content, from, input, end, next);
      NothingDecoded(content, input, end, output[..next]);
      output[next] := '\0';
      ok := true;
    }

    /** One byte or one escape sequence at `input`; consumes nothing when it is malformed. */
    method DecodeOne(output: array<char>, at: nat, input: nat, end: nat) returns (consumed: nat, next: nat)
      requires input < end < |content| && at < output.Length
      requires var r := DecodeStep(content, input, end); r.Parsed? ==> at + |r.value| < output.Length
      modifies output
      ensures match DecodeStep(content, input, end)
              case Failed => consumed == 0
              case Parsed(s, n) => consumed == n && next == at + |s| && output[..next] == old(output[..at]) + s
    {
      next := at + 1;
      if content[input] != '\\' {
        output[at] := content[input];
        return 1, next;
      }
      consumed := 2;
      match content[input + 1]
      case 'b' => output[at] := 8 as char;
      case 'f' => output[at] := 12 as char;
      case 'n' => output[at] := '\n';
      case 'r' => output[at] := '\r';
      case 't' => output[at] := '\t';
      case '\"' => output[at] := '\"';
      case '\\' => output[at] := '\\';
      case '/' => output[at] := '/';
      case 'u' => consumed, next := Utf16LiteralToUtf8(input, end, output, at);
      case _ => consumed := 0;
    }

    /** Any value at the offset, as a new item under `key`. */
    method ParseValue(key: Option<CString>) returns (r: Item?, ghost t: Option<Shape>)
      requires Valid()
      modifies this
      ensures Valid()
      ensures match ValueAt(content, old(offset), old(depth))
              case Failed => r == null
              case Parsed(v, n) => IsNew(r, t, key, v) && fresh(Nodes(t.value)) && offset == n && depth == old(depth)
      decreases |content| - offset, 1
    {
      if StartsWith(content, offset, "null") {
        offset := offset + 4;
        r, t := ParsedLeaf(key, Null);
        return;
      }
      if StartsWith(content, offset, "false") {
        offset := offset + 5;
        r, t := ParsedLeaf(key, False);
        return;
      }
      if StartsWith(content, offset, "true") {
        offset := offset + 4;
        r, t := ParsedLeaf(key, True);
        return;
      }
      if offset >= |content| { return null, None; }
      var c := content[offset];
      if c == '\"' {
        var s := ParseString();
        if s == None { return null, None; }
        r, t := ParsedLeaf(key, String(s.value));
        return;
      }
      if c == '-' || '0' <= c <= '9' {
        var number := ParseNumber();
        if number == None { return null, None; }
        r, t := ParsedLeaf(key, number.value);
      } else if c == '[' {
        r, t := ParseArray(key);
      } else if c == '{' {
        r, t := ParseObject(key);
      } else {
        r, t := null, None;
      }
    }

    static method ParsedLeaf(key: Option<CString>, v: Json) returns (r: Item, ghost t: Option<Shape>)
      requires (v.Array? ==> v.items == []) && (v.Object? ==> v.members == [])
      ensures IsNew(r, t, key, v) && fresh(Nodes(t.value))
    {
      ghost var s;
      r, s := NewLeaf(key, v);
      t := Some(s);
    }

    static method FinishParsed(item: Item, last: Item?, ghost done: seq<Shape>, ghost key: Option<CString>,
                               ghost v: Json)
      returns (r: Item, ghost t: Option<Shape>)
      requires (v.Array? || v.Object?) && item.data == PayloadOf(key, v)
      requires Building(item, last, done, if v.Array? then ItemTrees(v.items) else MemberTrees(v.members))
      modifies (if item.child == null then {} else {item.child})`prev
      ensures r == item && IsNew(r, t, key, v) && Nodes(t.value) == {item} + NodesBelow(done)
    {
      Finish(item, last, done, key, v);
      r, t := item, Some(Shape(item, done));
    }

    method ParseArray(key: Option<CString>) returns (r: Item?, ghost t: Option<Shape>)
      requires offset < |content|
      modifies this
      ensures Valid()
      ensures match ArrayAt(content, old(offset), old(depth))
              case Failed => r == null
              case Parsed(v, n) => IsNew(r, t, key, v) && fresh(Nodes(t.value)) && offset == n && depth == old(depth)
      decreases |content| - offset, 0
    {
      hide ItemsAt, ValueAt, SkipSpace, ObjectAt, Collected, TreeOf, Open, Values;
      hide Building, Built, IsTree, Nodes, NodesBelow, ItemTrees, PayloadOf;
      if depth >= NESTING_LIMIT { return null, None; }
      depth := depth + 1;
      offset := offset + 1;
      SkipWhitespace();
      if offset < |content| && content[offset] == ']' {
        depth := depth - 1;
        offset := offset + 1;
        r, t := ParsedLeaf(key, Array([]));
        return;
      }
      if offset >= |content| {
        offset := offset - 1;
        return null, None;
      }
      ghost var first := offset;
      ghost var all := ItemsAt(content, first, depth);
      offset := offset - 1;
      var item := new Item(PayloadOf(key, Array([])));
      var last: Item? := null;
      ghost var items: seq<Json>, done: seq<Shape> := [], [];
      NothingBuilt(item);
      var more := true;
      assert all == Collected([], all) by { NothingCollected(all); }
      while more
        invariant old(offset) <= offset && Valid() && depth == old(depth) + 1
        invariant more ==> offset < |content| && all == Collected(items, ItemsAt(content, offset + 1, depth))
        invariant !more ==>
                    all == if offset < |content| && content[offset] == ']' then Parsed(items, offset + 1) else Failed
        invariant fresh(item) && fresh(NodesBelow(done)) && Building(item, last, done, ItemTrees(items))
        decreases more, |content| - offset
      {
        BuildingLast(item, last, done, ItemTrees(items));
        NodesBelowExist(done);
        offset := offset + 1;
        ElementRead(content, offset, depth, items, all);
        ghost var found := ValueAt(content, SkipSpace(content, offset), depth);
        assert Building(item, last, done, ItemTrees(items));
        last, done := ParseChild(item, last, done, ItemTrees(items), None);
        if last == null { return null, None; }
        items := items + [found.value];
        more := offset < |content| && content[offset] == ',';
      }
      if offset >= |content| || content[offset] != ']' { return null, None; }
      depth := depth - 1;
      offset := offset + 1;
      BuildingLast(item, last, done, ItemTrees(items));
      SamePayload(key, items, []);
      r, t := FinishParsed(item, last, done, key, Array(items));
    }

    method ParseObject(key: Option<CString>) returns (r: Item?, ghost t: Option<Shape>)
      requires offset < |content|
      modifies this
      ensures Valid()
      ensures match ObjectAt(content, old(offset), old(depth))
              case Failed => r == null
              case Parsed(v, n) => IsNew(r, t, key, v) && fresh(Nodes(t.value)) && offset == n && depth == old(depth)
      decreases |content| - offset, 0
    {
      hide MembersAt, MemberAt, SkipSpace, ValueAt, ArrayAt, Collected, TreeOf, Open, Values;
      hide Building, Built, IsTree, Nodes, NodesBelow, MemberTrees, PayloadOf;
      if depth >= NESTING_LIMIT { return null, None; }
      depth := depth + 1;
      offset := offset + 1;
      SkipWhitespace();
      if offset < |content| && content[offset] == '}' {
        depth := depth - 1;
        offset := offset + 1;
        r, t := ParsedLeaf(key, Object([]));
        return;
      }
      if offset >= |content| {
        offset := offset - 1;
        return null, None;
      }
      ghost var first := offset;
      ghost var all := MembersAt(content, first, depth);
      offset := offset - 1;
      var item := new Item(PayloadOf(key, Object([])));
      var last: Item? := null;
      ghost var members: seq<Member>, done: seq<Shape> := [], [];
      NothingBuilt(item);
      var more := true;
      assert all == Collected([], all) by { NothingCollected(all); }
      while more
        invariant old(offset) <= offset && Valid() && depth == old(depth) + 1
        invariant more ==> offset < |content| && all == Collected(members, MembersAt(content, offset + 1, depth))
        invariant !more ==>
                    all == if offset < |content| && content[offset] == '}' then Parsed(members, offset + 1) else Failed
        invariant fresh(item) && fresh(NodesBelow(done)) && Building(item, last, done, MemberTrees(members))
        decreases more, |content| - offset
      {
        if offset + 1 >= |content| {
          NothingLeft(content, depth, members, all);
          return null, None;
        }
        BuildingLast(item, last, done, MemberTrees(members));
        NodesBelowExist(done);
        offset := offset + 1;
        MemberRead(content, offset, depth, members, all);
        ghost var found := MemberAt(content, offset, depth);
        assert Building(item, last, done, MemberTrees(members));
        last, done := ParseMember(item, last, done, MemberTrees(members));
        if last == null { return null, None; }
        members := members + [found.value];
        more := offset < |content| && content[offset] == ',';
      }
      if offset >= |content| || content[offset] != '}' { return null, None; }
      depth := depth - 1;
      offset := offset + 1;
      BuildingLast(item, last, done, MemberTrees(members));
      SamePayload(key, [], members);
      r, t := FinishParsed(item, last, done, key, Object(members));
    }

    /** A value under `key` and the space around it, linked behind the other children; null when there is none. */
    method ParseChild(item: Item, last: Item?, ghost done: seq<Shape>, ghost trees: seq<Tree>, key: Option<CString>)
      returns (child: Item?, ghost done': seq<Shape>)
      requires Valid() && Building(item, last, done, trees)
      modifies this, item`child, (if last == null then {} else {last})`next
      ensures Valid()
      ensures match ValueAt(content, SkipSpace(content, old(offset)), old(depth))
              case Failed => child == null
              case Parsed(v, n) =>
                && child != null && Building(item, child, done', trees + [TreeOf(key, v)])
                && offset == SkipSpace(content, n) && depth == old(depth)
      ensures forall x :: x in NodesBelow(done') ==> x in NodesBelow(done) || fresh(x)
      decreases |content| - offset, 2
    {
      hide ValueAt, Building, IsTree, Nodes, NodesBelow, TreeOf;
      done' := done;
      NodesBelowExist(done);
      BuildingLast(item, last, done, trees);
      SkipWhitespace();
      ghost var found := ValueAt(content, offset, depth);
      ghost var t;
      child, t := ParseValue(key);
      if child == null { return; }
      assert Building(item, last, done, trees);
      RootIsNode(t.value);
      AddChild(item, last, child, done, t.value, trees, key, found.value);
      done' := done + [t.value];
      NodesBelowExist(done');
      SkipWhitespace();
    }

    /** A key, a colon and a value, linked behind the other children. */
    method ParseMember(item: Item, last: Item?, ghost done: seq<Shape>, ghost trees: seq<Tree>)
      returns (child: Item?, ghost done': seq<Shape>)
      requires offset < |content| && Building(item, last, done, trees)
      modifies this, item`child, (if last == null then {} else {last})`next
      ensures Valid()
      ensures match MemberAt(content, old(offset), old(depth))
              case Failed => child == null
              case Parsed(m, n) =>
                && child != null && Building(item, child, done', trees + [TreeOf(Some(m.key), m.value)])
                && offset == SkipSpace(content, n) && depth == old(depth)
      ensures forall x :: x in NodesBelow(done') ==> x in NodesBelow(done) || fresh(x)
      decreases |content| - offset, 3
    {
      hide StringAt, ValueAt, SkipSpace, Building, NodesBelow, TreeOf;
      NodesBelowExist(done);
      var key := ParseKey();
      if key == None { return null, done; }
      assert Building(item, last, done, trees);
      child, done' := ParseChild(item, last, done, trees, Some(key.value));
    }

    /** A key and the colon after it. */
    method ParseKey() returns (key: Option<CString>)
      requires offset < |content|
      modifies this`offset
      ensures Valid()
      ensures match StringAt(content, SkipSpace(content, old(offset)))
              case Failed => key == None
              case Parsed(k, n) =>
                var w := SkipSpace(content, n);
                if w < |content| && content[w] == ':' then key == Some(k) && offset == w + 1 else key == None
    {
      hide StringAt, SkipSpace;
      SkipWhitespace();
      key := ParseString();
      if key == None { return; }
      SkipWhitespace();
      if offset >= |content| || content[offset] != ':' { return None; }
      offset := offset + 1;
    }

    /** The whole document, as the items it is made of. */
    method ParseDocument(nulTerminated: bool) returns (r: Item?, ghost t: Option<Shape>)
      requires offset == 0 && depth == 0
      modifies this
      ensures Valid()
      ensures match Document(content, nulTerminated)
              case Failed => r == null
              case Parsed(v, n) => IsNew(r, t, None, v) && fresh(Nodes(t.value)) && offset == n
    {
      hide ValueAt, SkipSpace, Built, Nodes;
      if |content| == 0 { return null, None; }
      offset := SkipBom(content);
      SkipWhitespace();
      r, t := ParseValue(None);
      if r == null || !nulTerminated { return; }
      NodesExist(t.value);
      SkipWhitespace();
      if offset >= |content| || content[offset] != '\0' { return null, None; }
    }
  }

  lemma ItemsInSteps(c: string, i: nat, depth: nat)
    requires i <= |c|
    ensures match ValueAt(c, SkipSpace(c, i), depth)
            case Failed => ItemsAt(c, i, depth) == Failed
            case Parsed(v, n) => ItemsAt(c, i, depth) == Collected([v], MoreItems(c, n, depth))
  {
  }

  lemma MembersInSteps(c: string, i: nat, depth: nat)
    requires i <= |c|
    ensures match MemberAt(c, i, depth)
            case Failed => MembersAt(c, i, depth) == Failed
            case Parsed(m, n) => MembersAt(c, i, depth) == Collected([m], MoreMembers(c, n, depth))
  {
  }

  lemma MoreInSteps(c: string, n: nat, depth: nat)
    requires n <= |c|
    ensures var w := SkipSpace(c, n);
            && MoreItems(c, n, depth)
               == (if w < |c| && c[w] == ',' then ItemsAt(c, w + 1, depth)
                   else if w < |c| && c[w] == ']' then Parsed([], w + 1) else Failed)
            && MoreMembers(c, n, depth)
               == (if w < |c| && c[w] == ',' then MembersAt(c, w + 1, depth)
                   else if w < |c| && c[w] == '}' then Parsed([], w + 1) else Failed)
  {
  }

  /** One element: where its value ends there is a comma and another, or the end. */
  lemma ElementRead(c: string, i: nat, depth: nat, items: seq<Json>, all: Parsed<seq<Json>>)
    requires i <= |c| && all == Collected(items, ItemsAt(c, i, depth))
    ensures var found := ValueAt(c, SkipSpace(c, i), depth);
            && (found == Failed ==> all == Failed)
            && (found.Parsed? ==>
                  var more, q := items + [found.value], SkipSpace(c, found.next);
                  && ItemTrees(more) == ItemTrees(items) + [TreeOf(None, found.value)]
                  && all == if q < |c| && c[q] == ',' then Collected(more, ItemsAt(c, q + 1, depth))
                            else if q < |c| && c[q] == ']' then Parsed(more, q + 1) else Failed)
  {
    hide ItemsAt, MoreItems, ValueAt, SkipSpace;
    ItemsInSteps(c, i, depth);
    var found := ValueAt(c, SkipSpace(c, i), depth);
    if found.Parsed? {
      MoreInSteps(c, found.next, depth);
      CollectOne(items, found.value, MoreItems(c, found.next, depth));
      NothingMore(items + [found.value], SkipSpace(c, found.next) + 1);
      OneMoreItem(items, found.value);
    }
  }

  lemma MemberRead(c: string, i: nat, depth: nat, members: seq<Member>, all: Parsed<seq<Member>>)
    requires i <= |c| && all == Collected(members, MembersAt(c, i, depth))
    ensures var found := MemberAt(c, i, depth);
            && (found == Failed ==> all == Failed)
            && (found.Parsed? ==>
                  var m := found.value;
                  var more, q := members + [m], SkipSpace(c, found.next);
                  && MemberTrees(more) == MemberTrees(members) + [TreeOf(Some(m.key), m.value)]
                  && all == if q < |c| && c[q] == ',' then Collected(more, MembersAt(c, q + 1, depth))
                            else if q < |c| && c[q] == '}' then Parsed(more, q + 1) else Failed)
  {
    hide MembersAt, MoreMembers, MemberAt, SkipSpace;
    MembersInSteps(c, i, depth);
    var found := MemberAt(c, i, depth);
    if found.Parsed? {
      MoreInSteps(c, found.next, depth);
      CollectOne(members, found.value, MoreMembers(c, found.next, depth));
      NothingMore(members + [found.value], SkipSpace(c, found.next) + 1);
      OneMoreMember(members, found.value);
    }
  }

  lemma NothingLeft(c: string, depth: nat, members: seq<Member>, all: Parsed<seq<Member>>)
    requires all == Collected(members, MembersAt(c, |c|, depth))
    ensures all == Failed
  {
  }

  lemma NothingMore<T>(done: seq<T>, q: nat)
    ensures Collected(done, Parsed([], q)) == Parsed(done, q)
  {
    assert done + [] == done;
  }

  lemma DecodeInSteps(c: string, p: nat, end: nat)
    requires p < end < |c|
    ensures match DecodeStep(c, p, end)
            case Failed => Decode(c, p, end) == Failed
            case Parsed(s, n) => Decode(c, p, end) == Prefixed(s, Decode(c, p + n, end))
  {
  }

  lemma NothingDecoded(c: string, p: nat, end: nat, done: string)
    requires end <= p && end < |c|
    ensures Prefixed(done, Decode(c, p, end)) == Parsed(done, p)
  {
    assert done + [] == done;
  }

  lemma PrefixMore(a: string, b: string, r: Parsed<string>)
    ensures Prefixed(a + b, r) == Prefixed(a, Prefixed(b, r))
    ensures Prefixed(a, Failed) == Failed
  {
    if r.Parsed? { assert a + b + r.value == a + (b + r.value); }
  }

  lemma StepStaysInside(c: string, from: nat, p: nat, end: nat, written: nat)
    requires from <= p < end < |c| && c[end] == '\"' && Fits(c, from, p, written)
    requires DecodeStep(c, p, end).Parsed?
    ensures var r := DecodeStep(c, p, end);
            && Fits(c, from, p + r.next, written + |r.value|)
            && written + |r.value| < end + 2 - from - Escapes(c, from, from, end)
  {
    var r := DecodeStep(c, p, end);
    StepFits(c, from, p, end);
    EscapesSplit(c, from, from, p, p + r.next);
    RoomForNul(c, from, p + r.next, end, written + |r.value|);
  }

  lemma {:induction false} UntilNulOf(s: string, rest: string)
    requires |rest| > 0 && rest[0] == '\0'
    ensures UntilNul(s + rest) == UntilNul(s)
    decreases |s|
  {
    if s == [] {
      assert s + rest == rest;
    } else {
      assert (s + rest)[1..] == s[1..] + rest;
      UntilNulOf(s[1..], rest);
    }
  }
}
