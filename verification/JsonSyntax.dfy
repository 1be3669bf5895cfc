/**
 What the parser accepts, written as functions over the whole input and an
 offset into it. The parser's own offset moves forward only, except that the
 whitespace skipper steps back onto the last byte when it runs off the end.
 */
module JsonSyntax {
  import opened JsonText

  datatype Parsed<+T> = Failed | Parsed(value: T, next: nat)

  // --- scanning ---------------------------------------------------------

  predicate IsSpace(c: char) { c as int <= 32 }

  predicate IsDigit(c: char) { '0' <= c <= '9' }

  predicate IsNumberChar(c: char) {
    IsDigit(c) || c == '+' || c == '-' || c == 'e' || c == 'E' || c == '.'
  }

  /** The classes of bytes the scanning loops run over. */
  datatype Class = SpaceClass | DigitClass | NumberClass {
    predicate Has(c: char) {
      match this
      case SpaceClass => IsSpace(c)
      case DigitClass => IsDigit(c)
      case NumberClass => IsNumberChar(c)
    }
  }

  /** The end of the run of bytes of class `p` that starts at `i`. */
  function Span(c: string, i: nat, p: Class): (j: nat)
    requires i <= |c|
    ensures i <= j <= |c|
    ensures forall k :: i <= k < j ==> p.Has(c[k])
    ensures j < |c| ==> !p.Has(c[j])
    decreases |c| - i
  {
    if i < |c| && p.Has(c[i]) then Span(c, i + 1, p) else i
  }

  lemma SpanIs(c: string, i: nat, j: nat, p: Class)
    requires i <= j <= |c|
    requires forall k :: i <= k < j ==> p.Has(c[k])
    requires j < |c| ==> !p.Has(c[j])
    ensures Span(c, i, p) == j
    decreases j - i
  {
  }

  /** Whitespace is skipped to the next other byte, or to the last byte of the input. */
  function SkipSpace(c: string, i: nat): (j: nat)
    requires i <= |c|
    ensures i <= j <= |c| && (i < |c| ==> j < |c|)
  {
    if i == |c| then i
    else
      var e := Span(c, i, SpaceClass);
      if e == |c| then e - 1 else e
  }

  predicate StartsWith(c: string, i: nat, w: string)
    ensures StartsWith(c, i, w) ==> i + |w| <= |c|
    decreases |w|
  {
    if w == [] then i <= |c| else i < |c| && c[i] == w[0] && StartsWith(c, i + 1, w[1..])
  }

  lemma {:induction false} StartsWithIsSlice(c: string, i: nat, w: string)
    ensures StartsWith(c, i, w) <==> i + |w| <= |c| && c[i..i + |w|] == w
    decreases |w|
  {
    if w != [] {
      StartsWithIsSlice(c, i + 1, w[1..]);
      if i + |w| <= |c| {
        assert c[i..i + |w|] == [c[i]] + c[i + 1..i + |w|];
        assert w == [w[0]] + w[1..];
      }
    }
  }

  // --- numbers ----------------------------------------------------------

  function DigitValue(c: char): (n: nat)
    requires IsDigit(c)
    ensures n < 10
  {
    c as int - '0' as int
  }

  function DigitsValue(s: string): nat
    requires forall k :: 0 <= k < |s| ==> IsDigit(s[k])
  {
    if s == [] then 0 else 10 * DigitsValue(s[..|s| - 1]) + DigitValue(s[|s| - 1])
  }

  function Pow10(e: int): (r: real)
    ensures r > 0.0
    decreases if e < 0 then -e else e
  {
    if e == 0 then 1.0 else if e > 0 then 10.0 * Pow10(e - 1) else Pow10(e + 1) / 10.0
  }

  function SignEnd(s: string, i: nat): (j: nat)
    requires i <= |s|
    ensures i <= j <= |s| && j <= i + 1
  {
    if i < |s| && (s[i] == '+' || s[i] == '-') then i + 1 else i
  }

  /** The optional exponent at `g`: where it ends, and its value. */
  function Exponent(s: string, g: nat): (r: (nat, int))
    requires g <= |s|
    ensures g <= r.0 <= |s|
  {
    if g < |s| && (s[g] == 'e' || s[g] == 'E') then
      var h := SignEnd(s, g + 1);
      var k := Span(s, h, DigitClass);
      if k == h then (g, 0)
      else
        var n: int := DigitsValue(s[h..k]);
        (k, if s[g + 1] == '-' then -n else n)
    else (g, 0)
  }

  /**
   strtod on a run of number bytes: the longest prefix that is an optional sign,
   digits with an optional point (at least one digit in all), and an optional
   exponent. The value is exact; rounding to a double is not modelled.
   */
  function Strtod(s: string): (r: Parsed<real>)
    ensures r.Parsed? ==> 0 < r.next <= |s|
  {
    var a := SignEnd(s, 0);
    var b := Span(s, a, DigitClass);
    var f := if b < |s| && s[b] == '.' then b + 1 else b;
    var g := if f > b then Span(s, f, DigitClass) else f;
    if b == a && g == f then Failed
    else
      var (end, exp) := Exponent(s, g);
      var magnitude := DigitsValue(s[a..b] + s[f..g]) as real * Pow10(exp - (g - f));
      Parsed(if s[0] == '-' then -magnitude else magnitude, end)
  }

  function NumberAt(c: string, i: nat): (r: Parsed<Json>)
    requires i <= |c|
    ensures r.Parsed? ==> i < r.next <= |c|
  {
    match Strtod(c[i..Span(c, i, NumberClass)])
    case Failed => Failed
    case Parsed(d, n) => Parsed(Number(d), i + n)
  }

  // --- strings ----------------------------------------------------------

  /** The sizing pass: the closing quote, stepping over every backslash pair. */
  function ClosingQuote(c: string, i: nat): (r: Parsed<()>)
    ensures r.Parsed? ==> i <= r.next < |c| && c[r.next] == '\"'
    decreases |c| - i
  {
    if i >= |c| then Failed
    else if c[i] == '\"' then Parsed((), i)
    else if c[i] == '\\' then
      if i + 1 >= |c| then Failed else ClosingQuote(c, i + 2)
    else ClosingQuote(c, i + 1)
  }

  function HexValue(c: char): (n: nat)
    ensures n <= 16
  {
    if '0' <= c <= '9' then c as int - '0' as int
    else if 'A' <= c <= 'F' then 10 + (c as int - 'A' as int)
    else if 'a' <= c <= 'f' then 10 + (c as int - 'a' as int)
    else 16
  }

  /** Four hex digits; anything else reads as 0, not as an error. */
  function Hex4(c: string, i: nat): (n: nat)
    requires i + 4 <= |c|
    ensures n < 0x10000
  {
    var d0, d1, d2, d3 := HexValue(c[i]), HexValue(c[i + 1]), HexValue(c[i + 2]), HexValue(c[i + 3]);
    if d0 < 16 && d1 < 16 && d2 < 16 && d3 < 16 then ((d0 * 16 + d1) * 16 + d2) * 16 + d3 else 0
  }

  function Utf8Length(cp: nat): nat {
    if cp < 0x80 then 1 else if cp < 0x800 then 2 else if cp < 0x10000 then 3 else 4
  }

  /** `cp` without its last `n` groups of six bits. */
  function Shift(cp: nat, n: nat): (r: nat)
    ensures r <= cp
  {
    if n == 0 then cp else Shift(cp / 64, n - 1)
  }

  /** The last `n` groups of six bits, each in a continuation byte. */
  function Continuation(cp: nat, n: nat): (s: string)
    ensures |s| == n
  {
    if n == 0 then [] else Continuation(cp / 64, n - 1) + [(0x80 + cp % 64) as char]
  }

  /** What the first byte of a sequence of `length` bytes starts from. */
  function FirstByteMark(length: nat): nat {
    if length == 1 then 0 else if length == 2 then 0xC0 else if length == 3 then 0xE0 else 0xF0
  }

  /** RFC 3629: the UTF-8 bytes of a code point. */
  function Utf8(cp: nat): (s: string)
    requires cp < 0x110000
    ensures |s| == Utf8Length(cp)
  {
    var n := Utf8Length(cp);
    FirstByteIsSmall(cp);
    [(FirstByteMark(n) + Shift(cp, n - 1)) as char] + Continuation(cp, n - 1)
  }

  lemma FirstByteIsSmall(cp: nat)
    requires cp < 0x110000
    ensures FirstByteMark(Utf8Length(cp)) + Shift(cp, Utf8Length(cp) - 1) < 256
  {
    var a, b := cp / 64, cp / 64 / 64;
    assert Shift(cp, 1) == Shift(a, 0) == a;
    assert Shift(cp, 2) == Shift(a, 1) == Shift(b, 0) == b;
    assert Shift(cp, 3) == Shift(a, 2) == Shift(b, 1) == Shift(b / 64, 0) == b / 64;
  }

  /** The code point read back from the first byte's bits and the bytes after it. */
  function CodePoint(top: nat, rest: string): int {
    if rest == [] then top
    else CodePoint(top, rest[..|rest| - 1]) * 64 + (rest[|rest| - 1] as int - 0x80)
  }

  lemma {:induction false} ContinuationCarriesTheRest(cp: nat, n: nat)
    ensures CodePoint(Shift(cp, n), Continuation(cp, n)) == cp
  {
    if n > 0 {
      ContinuationCarriesTheRest(cp / 64, n - 1);
      assert Continuation(cp, n)[..n - 1] == Continuation(cp / 64, n - 1);
    }
  }

  /** No information is lost: a code point can be read back from its bytes. */
  lemma Utf8IsReadable(cp: nat)
    requires cp < 0x110000
    ensures var s := Utf8(cp);
            CodePoint(s[0] as int - FirstByteMark(|s|), s[1..]) == cp
  {
    var n := Utf8Length(cp);
    FirstByteIsSmall(cp);
    ContinuationCarriesTheRest(cp, n - 1);
    assert Utf8(cp)[1..] == Continuation(cp, n - 1);
  }

  /**
   A \uXXXX literal at `p`, or a surrogate pair of them, before `end`: the code
   point and the number of input bytes (6 or 12).
   */
  function Utf16Literal(c: string, p: nat, end: nat): (r: Parsed<nat>)
    requires p <= end <= |c|
    ensures r.Parsed? ==> r.value < 0x110000 && p + r.next <= end
    ensures r.Parsed? ==> r.next == 6 || r.next == 12
    ensures r.Parsed? ==> (r.next == 12 <==> r.value >= 0x10000)
  {
    if end - p < 6 then Failed
    else
      var first := Hex4(c, p + 2);
      if 0xDC00 <= first <= 0xDFFF then Failed
      else if 0xD800 <= first <= 0xDBFF then
        if end - (p + 6) < 6 || c[p + 6] != '\\' || c[p + 7] != 'u' then Failed
        else
          var second := Hex4(c, p + 8);
          if second < 0xDC00 || second > 0xDFFF then Failed
          else Parsed(0x10000 + first % 0x400 * 0x400 + second % 0x400, 12)
      else Parsed(first, 6)
  }

  /** One step of the decoding pass at `p`: the output bytes and the input consumed. */
  function DecodeStep(c: string, p: nat, end: nat): (r: Parsed<string>)
    requires p < end < |c|
    ensures r.Parsed? ==> 0 < r.next && 0 < |r.value|
  {
    if c[p] != '\\' then Parsed([c[p]], 1)
    else
      match c[p + 1]
      case 'b' => Parsed([8 as char], 2)
      case 'f' => Parsed([12 as char], 2)
      case 'n' => Parsed("\n", 2)
      case 'r' => Parsed("\r", 2)
      case 't' => Parsed("\t", 2)
      case '\"' => Parsed("\"", 2)
      case '\\' => Parsed("\\", 2)
      case '/' => Parsed("/", 2)
      case 'u' =>
        (match Utf16Literal(c, p, end)
         case Failed => Failed
         case Parsed(cp, n) => Parsed(Utf8(cp), n))
      case _ => Failed
  }

  /** The decoding pass from `p` to the closing quote at `end`. */
  function Decode(c: string, p: nat, end: nat): (r: Parsed<string>)
    requires end < |c|
    decreases end - p
  {
    if p >= end then Parsed([], p)
    else
      match DecodeStep(c, p, end)
      case Failed => Failed
      case Parsed(out, n) =>
        match Decode(c, p + n, end)
        case Failed => Failed
        case Parsed(rest, q) => Parsed(out + rest, q)
  }

  /** The C string held by a NUL-terminated buffer. */
  function UntilNul(s: string): (r: CString)
    ensures r <= s
  {
    if s == [] || s[0] == '\0' then [] else [s[0]] + UntilNul(s[1..])
  }

  function StringAt(c: string, i: nat): (r: Parsed<CString>)
    requires i < |c|
    ensures r.Parsed? ==> i + 1 < r.next <= |c|
  {
    if c[i] != '\"' then Failed
    else
      match ClosingQuote(c, i + 1)
      case Failed => Failed
      case Parsed(_, end) =>
        match Decode(c, i + 1, end)
        case Failed => Failed
        case Parsed(out, _) => Parsed(UntilNul(out), end + 1)
  }

  // --- values -----------------------------------------------------------

  function ValueAt(c: string, i: nat, depth: nat): (r: Parsed<Json>)
    requires i <= |c|
    ensures r.Parsed? ==> i < r.next <= |c|
    decreases |c| - i, 1
  {
    if StartsWith(c, i, "null") then Parsed(Null, i + 4)
    else if StartsWith(c, i, "false") then Parsed(False, i + 5)
    else if StartsWith(c, i, "true") then Parsed(True, i + 4)
    else if i == |c| then Failed
    else if c[i] == '\"' then
      match StringAt(c, i)
      case Failed => Failed
      case Parsed(s, n) => Parsed(String(s), n)
    else if c[i] == '-' || IsDigit(c[i]) then NumberAt(c, i)
    else if c[i] == '[' then ArrayAt(c, i, depth)
    else if c[i] == '{' then ObjectAt(c, i, depth)
    else Failed
  }

  function ArrayAt(c: string, i: nat, depth: nat): (r: Parsed<Json>)
    requires i < |c|
    ensures r.Parsed? ==> i < r.next <= |c|
    decreases |c| - i, 0
  {
    if depth >= NESTING_LIMIT then Failed
    else
      var p := SkipSpace(c, i + 1);
      if p == |c| then Failed
      else if c[p] == ']' then Parsed(Array([]), p + 1)
      else
        match ItemsAt(c, p, depth + 1)
        case Failed => Failed
        case Parsed(items, n) => Parsed(Array(items), n)
  }

  /** The items from `i` on, up to and including the closing bracket. */
  function ItemsAt(c: string, i: nat, depth: nat): (r: Parsed<seq<Json>>)
    requires i <= |c|
    ensures r.Parsed? ==> i < r.next <= |c| && |r.value| > 0
    decreases |c| - i, 2
  {
    match ValueAt(c, SkipSpace(c, i), depth)
    case Failed => Failed
    case Parsed(v, n) =>
      match MoreItems(c, n, depth)
      case Failed => Failed
      case Parsed(rest, q) => Parsed([v] + rest, q)
  }

  /** After an item: either a comma and more items, or the closing bracket. */
  function MoreItems(c: string, n: nat, depth: nat): (r: Parsed<seq<Json>>)
    requires n <= |c|
    ensures r.Parsed? ==> n < r.next <= |c|
    decreases |c| - n, 0
  {
    var w := SkipSpace(c, n);
    if w == |c| then Failed
    else if c[w] == ',' then ItemsAt(c, w + 1, depth)
    else if c[w] == ']' then Parsed([], w + 1)
    else Failed
  }

  function ObjectAt(c: string, i: nat, depth: nat): (r: Parsed<Json>)
    requires i < |c|
    ensures r.Parsed? ==> i < r.next <= |c|
    decreases |c| - i, 0
  {
    if depth >= NESTING_LIMIT then Failed
    else
      var p := SkipSpace(c, i + 1);
      if p == |c| then Failed
      else if c[p] == '}' then Parsed(Object([]), p + 1)
      else
        match MembersAt(c, p, depth + 1)
        case Failed => Failed
        case Parsed(members, n) => Parsed(Object(members), n)
  }

  function MemberAt(c: string, i: nat, depth: nat): (r: Parsed<Member>)
    requires i <= |c|
    ensures r.Parsed? ==> i < r.next <= |c|
    decreases |c| - i, 2
  {
    if i == |c| then Failed
    else
      match StringAt(c, SkipSpace(c, i))
      case Failed => Failed
      case Parsed(key, n) =>
        var w := SkipSpace(c, n);
        if w == |c| || c[w] != ':' then Failed
        else
          match ValueAt(c, SkipSpace(c, w + 1), depth)
          case Failed => Failed
          case Parsed(v, q) => Parsed(Member(key, v), q)
  }

  /** The members from `i` on, up to and including the closing brace. */
  function MembersAt(c: string, i: nat, depth: nat): (r: Parsed<seq<Member>>)
    requires i <= |c|
    ensures r.Parsed? ==> i < r.next <= |c| && |r.value| > 0
    decreases |c| - i, 3
  {
    match MemberAt(c, i, depth)
    case Failed => Failed
    case Parsed(m, n) =>
      match MoreMembers(c, n, depth)
      case Failed => Failed
      case Parsed(rest, q) => Parsed([m] + rest, q)
  }

  /** After a member: either a comma and more members, or the closing brace. */
  function MoreMembers(c: string, n: nat, depth: nat): (r: Parsed<seq<Member>>)
    requires n <= |c|
    ensures r.Parsed? ==> n < r.next <= |c|
    decreases |c| - n, 0
  {
    var w := SkipSpace(c, n);
    if w == |c| then Failed
    else if c[w] == ',' then MembersAt(c, w + 1, depth)
    else if c[w] == '}' then Parsed([], w + 1)
    else Failed
  }

  /** Past a UTF-8 byte order mark, if the input is longer than four bytes. */
  function SkipBom(c: string): (i: nat)
    ensures i <= |c|
  {
    if |c| > 4 && c[..3] == [0xEF as char, 0xBB as char, 0xBF as char] then 3 else 0
  }

  /**
   The whole document in a buffer of `|c|` bytes (which counts the NUL when the
   caller passes a C string). With `nulTerminated`, only whitespace may stand
   between the value and a NUL.
   */
  function Document(c: string, nulTerminated: bool): Parsed<Json> {
    if |c| == 0 then Failed
    else
      match ValueAt(c, SkipSpace(c, SkipBom(c)), 0)
      case Failed => Failed
      case Parsed(v, n) =>
        if !nulTerminated then Parsed(v, n)
        else
          var w := SkipSpace(c, n);
          if w == |c| || c[w] != '\0' then Failed else Parsed(v, w)
  }
}
