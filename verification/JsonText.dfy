/**
 The JSON tree and the text the printer produces for it.

 A `char` stands for one byte of the C text; bytes above 127 are passed through
 unchanged by every function here. A C string cannot contain a NUL, which is
 what the subset type `CString` says.
 */
module JsonText {
  import opened Wrappers
  import opened Decimals

  type CString = s: string | '\0' !in s witness ""

  datatype Json =
    | Null
    | False
    | True
    | Number(value: real)
    | String(text: CString)
    | Array(items: seq<Json>)
    | Object(members: seq<Member>)

  datatype Member = Member(key: CString, value: Json)

  /** Arrays and objects nested deeper than this are neither printed nor parsed. */
  const NESTING_LIMIT: nat := 1000

  /** A number's text longer than the 26-byte scratch buffer (minus its NUL) is refused. */
  const NUMBER_TEXT_MAX: nat := 25

  /** `render` is what printf's %1.15g / %1.17g yields for a number that is not an int. */
  datatype Style = Style(format: bool, render: real -> CString)

  /** The `valueint` kept beside `valuedouble`: truncation with saturation. */
  function ValueInt(d: real): (n: int)
    ensures INT_MIN <= n <= INT_MAX
    ensures d >= INT_MAX as real ==> n == INT_MAX
    ensures d <= INT_MIN as real ==> n == INT_MIN
    ensures 0.0 <= d < INT_MAX as real ==> n as real <= d < n as real + 1.0
    ensures INT_MIN as real < d < 0.0 ==> n as real - 1.0 < d <= n as real
  {
    if d >= INT_MAX as real then INT_MAX
    else if d <= INT_MIN as real then INT_MIN
    else if d >= 0.0 then d.Floor
    else -((-d).Floor)
  }

  predicate IsInt(d: real) {
    d == ValueInt(d) as real
  }

  function NumberText(d: real, st: Style): string {
    if IsInt(d) then Decimal(ValueInt(d)) else st.render(d)
  }

  function HexDigit(n: nat): (c: char)
    requires n < 16
    ensures '0' <= c <= '9' || 'a' <= c <= 'f'
  {
    if n < 10 then ('0' as int + n) as char else ('a' as int + (n - 10)) as char
  }

  /** How one byte of a string appears between the quotes. */
  function Escape(c: char): (s: string)
    ensures |s| > 0 && ((s == [c] && c as int > 31 && c != '\"' && c != '\\') || s[0] == '\\')
  {
    if c as int > 31 && c != '\"' && c != '\\' then [c]
    else if c == '\\' then "\\\\"
    else if c == '\"' then "\\\""
    else if c as int == 8 then "\\b"
    else if c as int == 12 then "\\f"
    else if c == '\n' then "\\n"
    else if c == '\r' then "\\r"
    else if c == '\t' then "\\t"
    else ['\\', 'u', '0', '0', HexDigit(c as int / 16), HexDigit(c as int % 16)]
  }

  function EscapeAll(s: string): string {
    if s == [] then [] else Escape(s[0]) + EscapeAll(s[1..])
  }

  function Quoted(s: string): string {
    "\"" + EscapeAll(s) + "\""
  }

  function Tabs(n: nat): (s: string)
    ensures |s| == n && forall i :: 0 <= i < n ==> s[i] == '\t'
  {
    seq(n, i => '\t')
  }

  function ItemSeparator(st: Style): string { if st.format then ", " else "," }

  function Colon(st: Style): string { if st.format then ":\t" else ":" }

  function Newline(st: Style): string { if st.format then "\n" else "" }

  function Indent(st: Style, n: nat): string { if st.format then Tabs(n) else "" }

  /** The text printed for `v` when it sits inside `depth` arrays and objects. */
  function Text(v: Json, st: Style, depth: nat): string
    decreases v, 1
  {
    match v
    case Null => "null"
    case False => "false"
    case True => "true"
    case Number(d) => NumberText(d, st)
    case String(t) => Quoted(t)
    case Array(items) => "[" + ItemsText(items, st, depth + 1) + "]"
    case Object(members) =>
      "{" + (Newline(st) + (MembersText(members, st, depth + 1) + (Indent(st, depth) + "}")))
  }

  function ItemsText(items: seq<Json>, st: Style, depth: nat): string
    decreases items, 0
  {
    if items == [] then []
    else if |items| == 1 then Text(items[0], st, depth)
    else Text(items[0], st, depth) + (ItemSeparator(st) + ItemsText(items[1..], st, depth))
  }

  function Comma(more: bool): string { if more then "," else "" }

  function MemberText(m: Member, st: Style, depth: nat, more: bool): string
    decreases m, 2
  {
    Indent(st, depth) + (Quoted(m.key) + (Colon(st) + (Text(m.value, st, depth)
    + (Comma(more) + Newline(st)))))
  }

  function MembersText(members: seq<Member>, st: Style, depth: nat): string
    decreases members, 0
  {
    if members == [] then []
    else MemberText(members[0], st, depth, |members| > 1) + MembersText(members[1..], st, depth)
  }

  /** What printing checks besides space: nesting, and the width of a number's text. */
  predicate CanPrint(v: Json, st: Style, depth: nat)
    decreases v, 1
  {
    match v
    case Number(d) => |NumberText(d, st)| <= NUMBER_TEXT_MAX
    case Array(items) =>
      depth < NESTING_LIMIT && forall i :: 0 <= i < |items| ==> CanPrint(items[i], st, depth + 1)
    case Object(members) =>
      depth < NESTING_LIMIT
      && forall i :: 0 <= i < |members| ==> CanPrint(members[i].value, st, depth + 1)
    case _ => true
  }

  /** Every number in the tree is an integer that fits an int. */
  predicate IntNumbers(v: Json)
    decreases v
  {
    match v
    case Number(d) => IsInt(d)
    case Array(items) => forall i :: 0 <= i < |items| ==> IntNumbers(items[i])
    case Object(members) => forall i :: 0 <= i < |members| ==> IntNumbers(members[i].value)
    case _ => true
  }
}
