/**
 Filling in a segment template: one pass over the text for each identifier, which
 should amount to replacing all identifiers at once.
 */
module DashTemplate {
  import opened Wrappers
  import opened Decimals

  /** Longest text the two number buffers hold. */
  const PLAIN_MAX: nat := 31
  const PADDED_MAX: nat := 63

  /** A negative number or time is an absent one. */
  datatype Values = Values(id: string, bandwidth: string, number: int, time: int)

  datatype Pass = RepresentationId | Bandwidth | Number | PaddedNumber | Time | PaddedTime

  const ORDER: seq<Pass> := [RepresentationId, Bandwidth, Number, PaddedNumber, Time, PaddedTime]

  predicate IsDigit(c: char) { '0' <= c <= '9' }

  predicate AllDigits(s: string) { forall i :: 0 <= i < |s| ==> IsDigit(s[i]) }

  function Width(s: string): nat
    requires AllDigits(s)
  {
    if s == "" then 0 else 10 * Width(s[..|s| - 1]) + (s[|s| - 1] as int - '0' as int)
  }

  function Zeros(n: nat): (s: string)
    ensures |s| == n && AllDigits(s)
  {
    seq(n, _ => '0')
  }

  /** printf's %0*lld, as far as the buffer takes it. */
  function ZeroPadded(width: nat, value: nat): (s: string)
    ensures |s| <= PADDED_MAX && AllDigits(s)
    ensures width <= PADDED_MAX && |Digits(value)| <= PADDED_MAX ==>
              |s| == (if width > |Digits(value)| then width else |Digits(value)|)
              && s == Zeros(|s| - |Digits(value)|) + Digits(value)
  {
    var d := Digits(value);
    Cut(if width > |d| then Zeros(width - |d|) + d else d, PADDED_MAX)
  }

  // --- identifiers -------------------------------------------------------------------

  /** Whether `name` is `token` with a width, as in Number%05d. */
  predicate HasWidth(token: string, name: string) {
    var n := |token| + 2;
    && |name| > n + 1 && name[..n] == token + "%0" && name[|name| - 1] == 'd' && AllDigits(name[n..|name| - 1])
  }

  function WidthOf(token: string, name: string): nat
    requires HasWidth(token, name)
  {
    Width(name[|token| + 2..|name| - 1])
  }

  /** What a pass puts in place of an identifier, if it replaces this one. */
  function PassValue(p: Pass, name: string, v: Values): Option<string> {
    match p
    case RepresentationId => if name == "RepresentationID" then Some(v.id) else None
    case Bandwidth => if name == "Bandwidth" then Some(v.bandwidth) else None
    case Number => if v.number >= 0 && name == "Number" then Some(Cut(Digits(v.number), PLAIN_MAX)) else None
    case PaddedNumber =>
      if v.number >= 0 && HasWidth("Number", name) then Some(ZeroPadded(WidthOf("Number", name), v.number)) else None
    case Time => if v.time >= 0 && name == "Time" then Some(Cut(Digits(v.time), PLAIN_MAX)) else None
    case PaddedTime =>
      if v.time >= 0 && HasWidth("Time", name) then Some(ZeroPadded(WidthOf("Time", name), v.time)) else None
  }

  /** The pass an identifier belongs to. */
  function PassOf(name: string, v: Values): (p: Option<Pass>)
    ensures p.Some? ==> PassValue(p.value, name, v).Some?
    ensures p.None? ==> forall q :: PassValue(q, name, v).None?
  {
    if name == "RepresentationID" then Some(RepresentationId)
    else if name == "Bandwidth" then Some(Bandwidth)
    else if v.number >= 0 && name == "Number" then Some(Number)
    else if v.number >= 0 && HasWidth("Number", name) then Some(PaddedNumber)
    else if v.time >= 0 && name == "Time" then Some(Time)
    else if v.time >= 0 && HasWidth("Time", name) then Some(PaddedTime)
    else None
  }

  /** The identifiers of one pass, or of all of them. */
  datatype Rule = One(p: Pass) | All

  function Value(r: Rule, name: string, v: Values): Option<string> {
    match r
    case One(p) => PassValue(p, name, v)
    case All => if PassOf(name, v).Some? then PassValue(PassOf(name, v).value, name, v) else None
  }

  // --- replacing in the text -------------------------------------------------------------

  /** The place of the first dollar at or after `i`. */
  function NextDollar(s: string, i: nat): (j: nat)
    requires i <= |s|
    ensures i <= j <= |s|
    ensures forall k :: i <= k < j ==> s[k] != '$'
    ensures j < |s| ==> s[j] == '$'
    decreases |s| - i
  {
    if i == |s| || s[i] == '$' then i else NextDollar(s, i + 1)
  }

  /** From left to right, every `$name$` the rule knows is replaced. */
  function Replaced(s: string, r: Rule, v: Values): string
    decreases |s|
  {
    if s == "" then ""
    else if s[0] != '$' then [s[0]] + Replaced(s[1..], r, v)
    else
      var j := NextDollar(s, 1);
      if j < |s| && Value(r, s[1..j], v).Some? then Value(r, s[1..j], v).value + Replaced(s[j + 1..], r, v)
      else [s[0]] + Replaced(s[1..], r, v)
  }

  /** All identifiers at once. */
  function Simultaneous(s: string, v: Values): string {
    Replaced(s, All, v)
  }

  /** The first `k` passes, one after the other. */
  function Passes(s: string, v: Values, k: nat): string
    requires k <= |ORDER|
  {
    if k == 0 then s else Replaced(Passes(s, v, k - 1), One(ORDER[k - 1]), v)
  }

  function Fill(s: string, v: Values): string {
    Passes(s, v, |ORDER|)
  }

  // --- the text between the dollars --------------------------------------------------------

  predicate NoDollar(s: string) { '$' !in s }

  predicate NoDollars(pieces: seq<string>) { forall i :: 0 <= i < |pieces| ==> NoDollar(pieces[i]) }

  /** The values are free of dollars. */
  predicate PlainValues(v: Values) { NoDollar(v.id) && NoDollar(v.bandwidth) }

  function Join(cur: string, rest: seq<string>): string
    decreases |rest|
  {
    if rest == [] then cur else cur + "$" + Join(rest[0], rest[1..])
  }

  function Joined(pieces: seq<string>): string
    requires pieces != []
  {
    Join(pieces[0], pieces[1..])
  }

  /** A pass on the pieces: an identifier between two dollars joins its neighbours. */
  function PassPieces(cur: string, rest: seq<string>, r: Rule, v: Values): (out: seq<string>)
    ensures out != []
    decreases |rest|
  {
    if rest == [] then [cur]
    else if |rest| >= 2 && Value(r, rest[0], v).Some?
    then PassPieces(cur + Value(r, rest[0], v).value + rest[1], rest[2..], r, v)
    else [cur] + PassPieces(rest[0], rest[1..], r, v)
  }

  lemma ValueHasNoDollar(r: Rule, name: string, v: Values)
    requires PlainValues(v) && Value(r, name, v).Some?
    ensures NoDollar(Value(r, name, v).value)
  {
  }

  /** Text without dollars is left alone. */
  lemma {:induction false} SkipsText(a: string, b: string, r: Rule, v: Values)
    requires NoDollar(a)
    ensures Replaced(a + b, r, v) == a + Replaced(b, r, v)
    decreases |a|
  {
    if a == "" {
      assert a + b == b;
    } else {
      assert (a + b)[1..] == a[1..] + b && (a + b)[0] == a[0];
      SkipsText(a[1..], b, r, v);
      assert a == [a[0]] + a[1..];
    }
  }

  lemma DollarAfter(name: string, tail: string)
    requires NoDollar(name)
    ensures NextDollar("$" + name + "$" + tail, 1) == |name| + 1
    ensures NextDollar("$" + name, 1) == |name| + 1
  {
    var s := "$" + name + "$" + tail;
    assert s[1..|name| + 1] == name && s[|name| + 1] == '$';
    FirstDollar(s, 1, |name| + 1);
    assert ("$" + name)[1..] == name;
    FirstDollar("$" + name, 1, |name| + 1);
  }

  lemma {:induction false} FirstDollar(s: string, i: nat, j: nat)
    requires i <= j <= |s| && NoDollar(s[i..j]) && (j < |s| ==> s[j] == '$')
    ensures NextDollar(s, i) == j
    decreases j - i
  {
    if i < j {
      assert s[i] == s[i..j][0] && s[i + 1..j] == s[i..j][1..];
      FirstDollar(s, i + 1, j);
    }
  }

  lemma JoinPrefix(a: string, cur: string, rest: seq<string>)
    ensures Join(a + cur, rest) == a + Join(cur, rest)
  {
    if rest != [] {
      assert a + cur + "$" + Join(rest[0], rest[1..]) == a + (cur + "$" + Join(rest[0], rest[1..]));
    }
  }

  lemma JoinedCons(cur: string, pieces: seq<string>)
    requires pieces != []
    ensures Joined([cur] + pieces) == cur + ("$" + Joined(pieces))
  {
    assert ([cur] + pieces)[1..] == pieces;
    assert cur + "$" + Joined(pieces) == cur + ("$" + Joined(pieces));
  }

  /** What a pass makes of the text from a dollar on. */
  lemma FromDollar(rest: seq<string>, r: Rule, v: Values)
    requires rest != [] && NoDollars(rest)
    ensures Replaced("$" + Join(rest[0], rest[1..]), r, v)
            == if |rest| >= 2 && Value(r, rest[0], v).Some?
               then Value(r, rest[0], v).value + Replaced(Join(rest[1], rest[2..]), r, v)
               else "$" + Replaced(Join(rest[0], rest[1..]), r, v)
  {
    var name := rest[0];
    if |rest| >= 2 {
      var tail := Join(rest[1], rest[2..]);
      assert rest[1..][1..] == rest[2..];
      assert Join(name, rest[1..]) == name + "$" + tail;
      FromName(name, tail, r, v);
    } else {
      DollarAfter(name, "");
      assert Join(name, rest[1..]) == name;
      assert ("$" + name)[1..] == name;
    }
  }

  lemma FromName(name: string, tail: string, r: Rule, v: Values)
    requires NoDollar(name)
    ensures Replaced("$" + (name + "$" + tail), r, v)
            == if Value(r, name, v).Some? then Value(r, name, v).value + Replaced(tail, r, v)
               else "$" + Replaced(name + "$" + tail, r, v)
  {
    var s := "$" + (name + "$" + tail);
    assert s == "$" + name + "$" + tail;
    DollarAfter(name, tail);
    assert s[1..|name| + 1] == name && s[|name| + 2..] == tail && s[1..] == name + "$" + tail;
  }

  /** A pass on the text is the pass on its pieces. */
  lemma {:induction false} PassOnPieces(cur: string, rest: seq<string>, r: Rule, v: Values)
    requires NoDollar(cur) && NoDollars(rest) && PlainValues(v)
    ensures NoDollars(PassPieces(cur, rest, r, v))
    ensures Replaced(Join(cur, rest), r, v) == Joined(PassPieces(cur, rest, r, v))
    decreases |rest|
  {
    hide Replaced, Value, Joined;
    if rest == [] {
      SkipsText(cur, "", r, v);
      assert cur + "" == cur;
      NothingReplaced(cur, r, v);
    } else {
      var after := Join(rest[0], rest[1..]);
      SkipsText(cur, "$" + after, r, v);
      assert cur + "$" + after == cur + ("$" + after);
      FromDollar(rest, r, v);
      if |rest| >= 2 && Value(r, rest[0], v).Some? {
        ValueHasNoDollar(r, rest[0], v);
        var value := Value(r, rest[0], v).value;
        PassOnPieces(cur + value + rest[1], rest[2..], r, v);
        JoinPrefix(cur + value, rest[1], rest[2..]);
        SkipsText(cur + value, Join(rest[1], rest[2..]), r, v);
        assert cur + (value + Replaced(Join(rest[1], rest[2..]), r, v))
               == cur + value + Replaced(Join(rest[1], rest[2..]), r, v);
      } else {
        PassOnPieces(rest[0], rest[1..], r, v);
        JoinedCons(cur, PassPieces(rest[0], rest[1..], r, v));
      }
    }
  }

  lemma NothingReplaced(cur: string, r: Rule, v: Values)
    ensures Replaced("", r, v) == "" && Joined([cur]) == cur
  {
  }

  // --- a template as a scan from left to right sees it ---------------------------------------

  /** An identifier between two dollars, or a dollar that belongs to none, and the text after it. */
  datatype Part = Part(name: string, after: string) | Bare(after: string)

  function Flat(parts: seq<Part>): (s: seq<string>)
    ensures |parts| <= |s| <= 2 * |parts|
  {
    if parts == [] then []
    else (if parts[0].Part? then [parts[0].name, parts[0].after] else [parts[0].after]) + Flat(parts[1..])
  }

  /** The template: text, then identifiers and single dollars, each followed by text. */
  function Text(head: string, parts: seq<Part>): string {
    Join(head, Flat(parts))
  }

  predicate IsOf(r: Rule, name: string, v: Values) {
    Value(r, name, v).Some?
  }

  /** The text is free of dollars and what is marked as one is an identifier. */
  predicate WellFormed(head: string, parts: seq<Part>, v: Values) {
    && NoDollar(head)
    && forall i :: 0 <= i < |parts| ==> NoDollar(parts[i].after) && (parts[i].Part? ==> IsOf(All, parts[i].name, v))
  }

  /** No identifier has been passed over: none stands between a dollar of its own and the next. */
  predicate Scanned(parts: seq<Part>, v: Values) {
    forall i :: 0 <= i < |parts| - 1 && parts[i].Bare? ==> !IsOf(All, parts[i].after, v)
  }

  /** The text between the dollars of any text. */
  function Pieces(s: string): (pieces: seq<string>)
    ensures pieces != [] && NoDollars(pieces) && Joined(pieces) == s
    decreases |s|
  {
    var j := NextDollar(s, 0);
    if j == |s| then [s]
    else
      assert s == s[..j] + "$" + s[j + 1..];
      assert ([s[..j]] + Pieces(s[j + 1..]))[1..] == Pieces(s[j + 1..]);
      [s[..j]] + Pieces(s[j + 1..])
  }

  /** From left to right, the first identifier with two dollars left for it takes both. */
  function Scan(rest: seq<string>, v: Values): seq<Part>
    decreases |rest|
  {
    if rest == [] then []
    else if |rest| >= 2 && IsOf(All, rest[0], v) then [Part(rest[0], rest[1])] + Scan(rest[2..], v)
    else [Bare(rest[0])] + Scan(rest[1..], v)
  }

  lemma {:induction false} ScanKeepsText(head: string, rest: seq<string>, v: Values)
    requires NoDollar(head) && NoDollars(rest)
    ensures var parts := Scan(rest, v); Flat(parts) == rest && WellFormed(head, parts, v) && Scanned(parts, v)
    decreases |rest|
  {
    hide IsOf, NoDollar;
    if rest != [] {
      if |rest| >= 2 && IsOf(All, rest[0], v) {
        ScanKeepsText(rest[1], rest[2..], v);
        assert rest == [rest[0], rest[1]] + rest[2..];
        OneInFront(head, Part(rest[0], rest[1]), Scan(rest[2..], v), v);
      } else {
        ScanKeepsText(rest[0], rest[1..], v);
        assert rest == [rest[0]] + rest[1..];
        OneInFront(head, Bare(rest[0]), Scan(rest[1..], v), v);
      }
    }
  }

  lemma OneInFront(head: string, part: Part, parts: seq<Part>, v: Values)
    requires NoDollar(head) && WellFormed(part.after, parts, v) && Scanned(parts, v)
    requires part.Part? ==> IsOf(All, part.name, v)
    requires part.Bare? && parts != [] ==> !IsOf(All, part.after, v)
    ensures WellFormed(head, [part] + parts, v) && Scanned([part] + parts, v)
    ensures Flat([part] + parts) == (if part.Part? then [part.name, part.after] else [part.after]) + Flat(parts)
  {
    hide IsOf, NoDollar;
    var all := [part] + parts;
    assert all[1..] == parts;
    assert forall i :: 0 < i < |all| ==> all[i] == parts[i - 1];
  }

  /** The template with the identifiers of one pass filled in. */
  function FillPass(head: string, parts: seq<Part>, p: Pass, v: Values): (string, seq<Part>)
    decreases |parts|
  {
    if parts == [] then (head, [])
    else if IsPart(parts[0], p, v)
    then FillPass(head + PassValue(p, parts[0].name, v).value + parts[0].after, parts[1..], p, v)
    else
      var (after, rest) := FillPass(parts[0].after, parts[1..], p, v);
      (head, [parts[0].(after := after)] + rest)
  }

  predicate IsPart(part: Part, p: Pass, v: Values) { part.Part? && IsOf(One(p), part.name, v) }

  /** The template with the identifiers of the first `k` passes filled in. */
  function FillPasses(head: string, parts: seq<Part>, v: Values, k: nat): (string, seq<Part>)
    requires k <= |ORDER|
  {
    if k == 0 then (head, parts)
    else
      var (h, ps) := FillPasses(head, parts, v, k - 1);
      FillPass(h, ps, ORDER[k - 1], v)
  }

  /** No text between two dollars that are left spells an identifier of this pass. */
  predicate NoneSpelt(parts: seq<Part>, p: Pass, v: Values) {
    forall i :: 0 <= i < |parts| - 1 && !IsPart(parts[i], p, v) ==> !IsOf(One(p), parts[i].after, v)
  }

  /**
   With the identifiers of the passes before it filled in, no pass finds an
   identifier that the scan from left to right did not.
   */
  predicate Clear(head: string, parts: seq<Part>, v: Values) {
    forall k :: 0 <= k < |ORDER| ==> NoneSpelt(FillPasses(head, parts, v, k).1, ORDER[k], v)
  }

  /** Everything filled in. */
  function Filled(head: string, parts: seq<Part>, v: Values): string
    requires WellFormed(head, parts, v)
    decreases |parts|
  {
    if parts == [] then head
    else
      head + (if parts[0].Part? then Value(All, parts[0].name, v).value else "$")
      + Filled(parts[0].after, parts[1..], v)
  }

  // --- when no pass is misled ------------------------------------------------------------------

  lemma NameHasNoDollar(name: string, v: Values)
    requires IsOf(All, name, v)
    ensures NoDollar(name)
  {
    if HasWidth("Number", name) { WidthHasNoDollar("Number", name); }
    if HasWidth("Time", name) { WidthHasNoDollar("Time", name); }
  }

  lemma WidthHasNoDollar(token: string, name: string)
    requires NoDollar(token) && HasWidth(token, name)
    ensures NoDollar(name)
  {
    var n := |token| + 2;
    var digits := name[n..|name| - 1];
    assert name == (token + "%0") + digits + "d";
    assert forall i :: 0 <= i < |digits| ==> digits[i] != '$';
  }

  lemma {:induction false} FlatHasNoDollar(head: string, parts: seq<Part>, v: Values)
    requires WellFormed(head, parts, v)
    ensures NoDollars(Flat(parts))
    decreases |parts|
  {
    if parts != [] {
      assert WellFormed(parts[0].after, parts[1..], v);
      if parts[0].Part? { NameHasNoDollar(parts[0].name, v); }
      FlatHasNoDollar(parts[0].after, parts[1..], v);
    }
  }

  lemma PassTakes(cur: string, name: string, after: string, more: seq<string>, r: Rule, v: Values)
    requires IsOf(r, name, v)
    ensures PassPieces(cur, [name, after] + more, r, v) == PassPieces(cur + Value(r, name, v).value + after, more, r, v)
  {
    FrontTwo(name, after, more, [name, after] + more);
  }

  lemma PassLeaves(cur: string, name: string, more: seq<string>, r: Rule, v: Values)
    requires !IsOf(r, name, v) || more == []
    ensures PassPieces(cur, [name] + more, r, v) == [cur] + PassPieces(name, more, r, v)
  {
    assert ([name] + more)[1..] == more;
  }

  /** A pass that is not misled fills in its identifiers and nothing else. */
  lemma {:induction false} CleanPass(head: string, parts: seq<Part>, p: Pass, v: Values)
    requires NoneSpelt(parts, p, v)
    ensures var (h, ps) := FillPass(head, parts, p, v);
            PassPieces(head, Flat(parts), One(p), v) == [h] + Flat(ps)
    decreases |parts|
  {
    hide PassValue;
    if parts != [] {
      var rest := parts[1..];
      var after := parts[0].after;
      NoneSpeltBelow(parts, p, v);
      assert |parts| > 1 && !IsPart(parts[0], p, v) ==> !IsOf(One(p), after, v);
      if IsPart(parts[0], p, v) {
        PassTakes(head, parts[0].name, after, Flat(rest), One(p), v);
        hide PassPieces, NoneSpelt;
        CleanPass(head + PassValue(p, parts[0].name, v).value + after, rest, p, v);
      } else {
        CleanStep(head, parts[0], Flat(rest), p, v);
        hide PassPieces, NoneSpelt;
        CleanPass(after, rest, p, v);
        var (h, ps) := FillPass(after, rest, p, v);
        BackInFront(head, parts[0], h, ps);
      }
    }
  }

  /** What is no identifier of the pass stays in front of what the pass makes of the rest. */
  lemma CleanStep(head: string, part: Part, more: seq<string>, p: Pass, v: Values)
    requires !IsPart(part, p, v) && (more == [] || !IsOf(One(p), part.after, v))
    ensures PassPieces(head, (if part.Part? then [part.name, part.after] else [part.after]) + more, One(p), v)
            == (if part.Part? then [head, part.name] else [head]) + PassPieces(part.after, more, One(p), v)
  {
    hide PassPieces, IsOf;
    var tail := PassPieces(part.after, more, One(p), v);
    if part.Part? {
      assert [part.name, part.after] + more == [part.name] + ([part.after] + more);
      PassLeaves(head, part.name, [part.after] + more, One(p), v);
      PassLeaves(part.name, part.after, more, One(p), v);
      assert [head] + ([part.name] + tail) == [head, part.name] + tail;
    } else {
      PassLeaves(head, part.after, more, One(p), v);
    }
  }

  lemma BackInFront(head: string, part: Part, after: string, ps: seq<Part>)
    ensures (if part.Part? then [head, part.name] else [head]) + ([after] + Flat(ps))
            == [head] + Flat([part.(after := after)] + ps)
  {
    assert ([part.(after := after)] + ps)[1..] == ps;
  }

  lemma FlatSteps(parts: seq<Part>)
    requires parts != []
    ensures parts[0].Part? ==>
              && Flat(parts)[0] == parts[0].name && Flat(parts)[1..] == [parts[0].after] + Flat(parts[1..])
              && Flat(parts)[2..] == Flat(parts[1..])
    ensures parts[0].Bare? ==>
              Flat(parts) == [parts[0].after] + Flat(parts[1..]) && Flat(parts)[1..] == Flat(parts[1..])
    ensures ([parts[0].after] + Flat(parts[1..]))[1..] == Flat(parts[1..])
  {
    var flat := Flat(parts);
    if parts[0].Part? { FrontTwo(parts[0].name, parts[0].after, Flat(parts[1..]), flat); }
    assert ([parts[0].after] + Flat(parts[1..]))[1..] == Flat(parts[1..]);
  }

  lemma FrontTwo(a: string, b: string, tail: seq<string>, all: seq<string>)
    requires all == [a, b] + tail
    ensures all[0] == a && all[1..] == [b] + tail && all[2..] == tail
  {
  }

  lemma NoneSpeltBelow(parts: seq<Part>, p: Pass, v: Values)
    requires parts != [] && NoneSpelt(parts, p, v)
    ensures NoneSpelt(parts[1..], p, v)
  {
    forall i | 0 <= i < |parts[1..]| - 1 && !IsPart(parts[1..][i], p, v)
      ensures !IsOf(One(p), parts[1..][i].after, v)
    {
      assert parts[1..][i] == parts[i + 1];
    }
  }

  ghost predicate NoneOf(parts: seq<Part>, p: Pass, v: Values) {
    forall i :: 0 <= i < |parts| ==> !IsPart(parts[i], p, v)
  }

  lemma {:induction false} FilledPrefix(a: string, head: string, parts: seq<Part>, v: Values)
    requires WellFormed(head, parts, v) && NoDollar(a)
    ensures WellFormed(a + head, parts, v) && Filled(a + head, parts, v) == a + Filled(head, parts, v)
  {
    if parts != [] {
      assert WellFormed(parts[0].after, parts[1..], v);
      var first := if parts[0].Part? then Value(All, parts[0].name, v).value else "$";
      assert a + head + first + Filled(parts[0].after, parts[1..], v)
             == a + (head + first + Filled(parts[0].after, parts[1..], v));
    }
  }

  lemma StartsWith(token: string, name: string)
    requires token != "" && HasWidth(token, name)
    ensures name[0] == token[0] && |name| > |token| + 3 && name[|token|] == '%'
  {
    assert name[..|token| + 2][0] == (token + "%0")[0];
    assert name[..|token| + 2][|token|] == (token + "%0")[|token|];
  }

  /** One identifier belongs to one pass, so each of the two rules gives it the same value. */
  lemma OnePass(name: string, p: Pass, v: Values)
    requires PassValue(p, name, v).Some?
    ensures PassOf(name, v) == Some(p) && Value(All, name, v) == PassValue(p, name, v)
  {
    if HasWidth("Number", name) { StartsWith("Number", name); }
    if HasWidth("Time", name) { StartsWith("Time", name); }
  }

  /** Filling in one pass keeps what the whole comes to. */
  lemma {:induction false} FillPassKeeps(head: string, parts: seq<Part>, p: Pass, v: Values)
    requires WellFormed(head, parts, v) && PlainValues(v)
    ensures var (h, ps) := FillPass(head, parts, p, v);
            && WellFormed(h, ps, v) && Filled(h, ps, v) == Filled(head, parts, v)
            && NoneOf(ps, p, v) && (forall q :: NoneOf(parts, q, v) ==> NoneOf(ps, q, v))
    decreases |parts|
  {
    hide PassValue, PassOf;
    if parts != [] {
      var after, rest := parts[0].after, parts[1..];
      assert WellFormed(after, rest, v);
      assert forall q :: NoneOf(parts, q, v) ==> NoneOf(rest, q, v);
      if IsPart(parts[0], p, v) {
        var name := parts[0].name;
        OnePass(name, p, v);
        var value := PassValue(p, name, v).value;
        ValueHasNoDollar(One(p), name, v);
        FilledPrefix(head + value, after, rest, v);
        assert head + value + Filled(after, rest, v) == Filled(head, parts, v);
        FillPassKeeps(head + value + after, rest, p, v);
      } else {
        FillPassKeeps(after, rest, p, v);
        var (h, ps) := FillPass(after, rest, p, v);
        var first := parts[0].(after := h);
        var out := [first] + ps;
        assert out[0] == first && out[1..] == ps;
        assert forall i :: 0 <= i < |out| ==> out[i] == (if i == 0 then first else ps[i - 1]);
      }
    }
  }

  /** Replacing everything at once fills in what the scan has found, and nothing else. */
  lemma {:induction false} AllPieces(head: string, parts: seq<Part>, v: Values)
    requires WellFormed(head, parts, v) && Scanned(parts, v)
    ensures Joined(PassPieces(head, Flat(parts), All, v)) == Filled(head, parts, v)
    decreases |parts|
  {
    hide Value, Joined;
    if parts == [] {
      NothingReplaced(head, All, v);
    } else {
      var after, rest := parts[0].after, parts[1..];
      assert WellFormed(after, rest, v);
      assert Scanned(rest, v) by { ScannedBelow(parts, v); }
      FlatSteps(parts);
      AllPieces(after, rest, v);
      var out := PassPieces(after, Flat(rest), All, v);
      if parts[0].Part? {
        var value := Value(All, parts[0].name, v).value;
        PiecesPrefix(head + value, after, Flat(rest), v);
        JoinedPrefix(head + value, out);
      } else {
        JoinedCons(head, out);
        assert head + "$" + Joined(out) == head + ("$" + Joined(out));
      }
    }
  }

  lemma ScannedBelow(parts: seq<Part>, v: Values)
    requires parts != [] && Scanned(parts, v)
    ensures Scanned(parts[1..], v)
  {
    assert forall i :: 0 <= i < |parts| - 1 ==> parts[1..][i] == parts[i + 1];
  }

  lemma JoinedPrefix(a: string, pieces: seq<string>)
    requires pieces != []
    ensures Joined([a + pieces[0]] + pieces[1..]) == a + Joined(pieces)
  {
    assert ([a + pieces[0]] + pieces[1..])[1..] == pieces[1..];
    JoinPrefix(a, pieces[0], pieces[1..]);
  }

  lemma {:induction false} PiecesPrefix(a: string, cur: string, rest: seq<string>, v: Values)
    ensures var out := PassPieces(cur, rest, All, v);
            PassPieces(a + cur, rest, All, v) == [a + out[0]] + out[1..]
    decreases |rest|
  {
    hide Value;
    if |rest| >= 2 && Value(All, rest[0], v).Some? {
      PiecesPrefix(a, cur + Value(All, rest[0], v).value + rest[1], rest[2..], v);
      assert a + (cur + Value(All, rest[0], v).value + rest[1]) == a + cur + Value(All, rest[0], v).value + rest[1];
    }
  }

  lemma SimultaneousFills(head: string, parts: seq<Part>, v: Values)
    requires WellFormed(head, parts, v) && Scanned(parts, v) && PlainValues(v)
    ensures Simultaneous(Text(head, parts), v) == Filled(head, parts, v)
  {
    FlatHasNoDollar(head, parts, v);
    PassOnPieces(head, Flat(parts), All, v);
    AllPieces(head, parts, v);
  }

  /** As long as no pass is misled, the passes fill in the template step by step. */
  lemma {:induction false} CleanPasses(head: string, parts: seq<Part>, v: Values, k: nat)
    requires k <= |ORDER| && WellFormed(head, parts, v) && PlainValues(v)
    requires forall j :: 0 <= j < k ==> NoneSpelt(FillPasses(head, parts, v, j).1, ORDER[j], v)
    ensures var (h, ps) := FillPasses(head, parts, v, k);
            && WellFormed(h, ps, v) && Filled(h, ps, v) == Filled(head, parts, v)
            && Passes(Text(head, parts), v, k) == Text(h, ps)
            && (forall j :: 0 <= j < k ==> NoneOf(ps, ORDER[j], v))
  {
    hide IsOf, WellFormed, Filled, FillPass, Replaced;
    if k > 0 {
      CleanPasses(head, parts, v, k - 1);
      var (h, ps) := FillPasses(head, parts, v, k - 1);
      FillPassKeeps(h, ps, ORDER[k - 1], v);
      FlatHasNoDollar(h, ps, v);
      PassOnText(h, ps, ORDER[k - 1], v);
      CleanPass(h, ps, ORDER[k - 1], v);
    }
  }

  lemma PassOnText(head: string, parts: seq<Part>, p: Pass, v: Values)
    requires WellFormed(head, parts, v) && PlainValues(v)
    ensures NoDollars(Flat(parts)) && NoDollars(PassPieces(head, Flat(parts), One(p), v))
    ensures Replaced(Text(head, parts), One(p), v) == Joined(PassPieces(head, Flat(parts), One(p), v))
  {
    FlatHasNoDollar(head, parts, v);
    PassOnPieces(head, Flat(parts), One(p), v);
  }

  lemma NothingLeft(parts: seq<Part>, head: string, v: Values)
    requires WellFormed(head, parts, v) && forall j :: 0 <= j < |ORDER| ==> NoneOf(parts, ORDER[j], v)
    ensures forall i :: 0 <= i < |parts| ==> parts[i].Bare?
  {
    forall i | 0 <= i < |parts| ensures parts[i].Bare? {
      LeftIsBare(parts, head, v, i);
    }
  }

  lemma LeftIsBare(parts: seq<Part>, head: string, v: Values, i: nat)
    requires WellFormed(head, parts, v) && (forall j :: 0 <= j < |ORDER| ==> NoneOf(parts, ORDER[j], v)) && i < |parts|
    ensures parts[i].Bare?
  {
    if parts[i].Part? {
      assert IsOf(All, parts[i].name, v);
      var p := PassOf(parts[i].name, v).value;
      assert ORDER[0] == RepresentationId && ORDER[1] == Bandwidth && ORDER[2] == Number
             && ORDER[3] == PaddedNumber && ORDER[4] == Time && ORDER[5] == PaddedTime;
      assert exists j :: 0 <= j < |ORDER| && ORDER[j] == p;
    }
  }
}
