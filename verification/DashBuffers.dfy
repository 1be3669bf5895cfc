/**
 The two replacement loops as they write into sized buffers: every write is inside
 the buffer, and what they write is the pass of DashTemplate.
 */
module DashBuffers {
  import opened Wrappers
  import opened Decimals
  import opened DashTemplate

  // --- plain identifiers ---------------------------------------------------------

  function Swapped(s: string, needle: string, value: string): string
    requires needle != ""
    decreases |s|
  {
    if s == "" then ""
    else if needle <= s then value + Swapped(s[|needle|..], needle, value)
    else [s[0]] + Swapped(s[1..], needle, value)
  }

  /** How often the needle occurs, counted without overlaps. */
  function Count(s: string, needle: string): nat
    requires needle != ""
    decreases |s|
  {
    if s == "" then 0
    else if needle <= s then 1 + Count(s[|needle|..], needle)
    else Count(s[1..], needle)
  }

  /** strstr from place `from`; |s| when there is no occurrence. */
  method FindNeedle(s: string, needle: string, from: nat) returns (p: nat)
    requires needle != "" && from <= |s|
    ensures from <= p <= |s| && Count(s[from..], needle) == Count(s[p..], needle)
    ensures p < |s| ==> needle <= s[p..]
  {
    p := from;
    while p < |s| && !(needle <= s[p..])
      invariant from <= p <= |s| && Count(s[from..], needle) == Count(s[p..], needle)
    {
      assert s[p..][1..] == s[p + 1..];
      p := p + 1;
    }
  }

  method CountNeedle(s: string, needle: string) returns (count: nat)
    requires needle != ""
    ensures count == Count(s, needle)
  {
    hide Count;
    count := 0;
    assert s[0..] == s;
    var p := FindNeedle(s, needle, 0);
    while p < |s|
      invariant p <= |s| && count + Count(s[p..], needle) == Count(s, needle)
      invariant p < |s| ==> needle <= s[p..]
      decreases |s| - p
    {
      CountHit(s, p, needle);
      count := count + 1;
      p := FindNeedle(s, needle, p + |needle|);
    }
    CountNone(s, needle);
  }

  lemma CountHit(s: string, p: nat, needle: string)
    requires needle != "" && p < |s| && needle <= s[p..]
    ensures Count(s[p..], needle) == Count(s[p + |needle|..], needle) + 1
  {
    assert s[p..][|needle|..] == s[p + |needle|..];
  }

  lemma CountNone(s: string, needle: string)
    requires needle != ""
    ensures Count(s[|s|..], needle) == 0
  {
  }

  method Store(out: array<char>, at: nat, value: string)
    requires at + |value| <= out.Length
    modifies out
    ensures out[..at + |value|] == old(out[..at]) + value
  {
    for i := 0 to |value|
      invariant out[..at + i] == old(out[..at]) + value[..i]
    {
      out[at + i] := value[i];
      assert out[..at + i + 1] == out[..at + i] + [value[i]];
      assert value[..i + 1] == value[..i] + [value[i]];
    }
    assert value[..|value|] == value;
  }

  /** The room a value takes beyond the identifier it replaces. */
  function Growth(needle: string, value: string): nat {
    if |value| > |needle| then |value| - |needle| else 0
  }

  method StoreChar(out: array<char>, at: nat, c: char)
    requires at < out.Length
    modifies out
    ensures out[..at + 1] == old(out[..at]) + [c]
  {
    out[at] := c;
  }

  method Terminate(out: array<char>, at: nat)
    requires at < out.Length
    modifies out
    ensures out[..at] == old(out[..at]) && out[at] == '\0'
  {
    out[at] := '\0';
  }

  /** `done` is what the first `p` characters of `s` become. */
  ghost predicate SwappedUpTo(done: string, s: string, p: nat, needle: string, value: string)
    requires needle != ""
  {
    p <= |s| && done + Swapped(s[p..], needle, value) == Swapped(s, needle, value)
  }

  lemma Assoc(a: string, b: string, c: string)
    ensures a + (b + c) == a + b + c
  {
  }

  lemma SwapOne(s: string, p: nat, needle: string, value: string)
    requires needle != "" && p < |s|
    ensures needle <= s[p..] ==>
              && Swapped(s[p..], needle, value) == value + Swapped(s[p + |needle|..], needle, value)
              && Count(s[p..], needle) == Count(s[p + |needle|..], needle) + 1
    ensures !(needle <= s[p..]) ==>
              && Swapped(s[p..], needle, value) == [s[p]] + Swapped(s[p + 1..], needle, value)
              && Count(s[p..], needle) == Count(s[p + 1..], needle)
  {
    if needle <= s[p..] {
      assert s[p..][|needle|..] == s[p + |needle|..];
    } else {
      assert s[p..][1..] == s[p + 1..];
    }
  }

  lemma {:induction false} SwapStep(done: string, s: string, p: nat, needle: string, value: string)
    requires needle != "" && SwappedUpTo(done, s, p, needle, value) && p < |s|
    ensures needle <= s[p..] ==>
              && SwappedUpTo(done + value, s, p + |needle|, needle, value)
              && Count(s[p..], needle) == Count(s[p + |needle|..], needle) + 1
    ensures !(needle <= s[p..]) ==>
              && SwappedUpTo(done + [s[p]], s, p + 1, needle, value)
              && Count(s[p..], needle) == Count(s[p + 1..], needle)
  {
    hide Swapped, Count;
    SwapOne(s, p, needle, value);
    if needle <= s[p..] {
      Assoc(done, value, Swapped(s[p + |needle|..], needle, value));
    } else {
      Assoc(done, [s[p]], Swapped(s[p + 1..], needle, value));
    }
  }

  lemma SwapEnds(done: string, s: string, needle: string, value: string)
    requires needle != ""
    ensures SwappedUpTo("", s, 0, needle, value) && s[0..] == s
    ensures SwappedUpTo(done, s, |s|, needle, value) ==> done == Swapped(s, needle, value)
  {
    assert s[0..] == s;
    assert done + "" == done;
  }

  /** What `n` replacements add, when each adds `grow`. */
  function Product(n: nat, grow: nat): nat { n * grow }

  /** The buffer is sized once, by the number of occurrences. */
  method ReplacePlain(s: string, needle: string, value: string) returns (out: array<char>, len: nat)
    requires needle != ""
    ensures len < out.Length && out[len] == '\0' && out[..len] == Swapped(s, needle, value)
  {
    hide Count, SwappedUpTo, Swapped, Product;
    var grow := Growth(needle, value);
    assert |value| <= |needle| + grow;
    var count := CountNeedle(s, needle);
    out := new char[|s| + Product(count, grow) + 1];
    var p := 0;
    len := 0;
    SwapEnds("", s, needle, value);
    while p < |s|
      invariant p <= |s|
      invariant len + (|s| - p) + Product(Count(s[p..], needle), grow) + 1 <= out.Length
      invariant SwappedUpTo(out[..len], s, p, needle, value)
    {
      SwapStep(out[..len], s, p, needle, value);
      if needle <= s[p..] {
        OneLess(Count(s[p..], needle), grow);
        Store(out, len, value);
        len, p := len + |value|, p + |needle|;
      } else {
        StoreChar(out, len, s[p]);
        len, p := len + 1, p + 1;
      }
    }
    SwapEnds(out[..len], s, needle, value);
    Terminate(out, len);
  }

  lemma OneLess(n: nat, grow: nat)
    requires n > 0
    ensures Product(n, grow) == Product(n - 1, grow) + grow
  {
  }

  // --- identifiers with a width ----------------------------------------------------

  function DigitsEnd(s: string, i: nat): (q: nat)
    requires i <= |s|
    ensures i <= q <= |s|
    ensures forall k :: i <= k < q ==> IsDigit(s[k])
    ensures q < |s| ==> !IsDigit(s[q])
    decreases |s| - i
  {
    if i < |s| && IsDigit(s[i]) then DigitsEnd(s, i + 1) else i
  }

  /** An identifier with a width at the start of `s`: how long it is with its dollars, and the width. */
  function WidthAt(s: string, prefix: string): Option<(nat, nat)> {
    if prefix <= s then
      var q := DigitsEnd(s, |prefix|);
      if q > |prefix| && q + 1 < |s| && s[q] == 'd' && s[q + 1] == '$'
      then Some((q + 2, Width(s[|prefix|..q])))
      else None
    else None
  }

  function Padded(s: string, prefix: string, value: nat): string
    decreases |s|
  {
    if s == "" then ""
    else
      match WidthAt(s, prefix)
      case Some((n, width)) => ZeroPadded(width, value) + Padded(s[n..], prefix, value)
      case None => [s[0]] + Padded(s[1..], prefix, value)
  }

  /** The digits after the zero: where they end, and the number they write. No step leaves the ints if that does not. */
  method ReadWidth(s: string, from: nat) returns (q: nat, width: nat, ghost inRange: bool)
    requires from <= |s|
    ensures q == DigitsEnd(s, from) && width == Width(s[from..q])
    ensures inRange <==> width <= INT_MAX
  {
    q, width, inRange := from, 0, true;
    while q < |s| && IsDigit(s[q])
      invariant from <= q <= |s| && AllDigits(s[from..q])
      invariant DigitsEnd(s, from) == DigitsEnd(s, q) && width == Width(s[from..q])
      invariant inRange <==> width <= INT_MAX
    {
      WidthStep(s, from, q);
      width := width * 10;
      inRange := inRange && width <= INT_MAX;
      width := width + (s[q] as int - '0' as int);
      inRange := inRange && width <= INT_MAX;
      q := q + 1;
    }
  }

  lemma WidthStep(s: string, from: nat, q: nat)
    requires from <= q < |s| && AllDigits(s[from..q]) && IsDigit(s[q])
    ensures AllDigits(s[from..q + 1])
    ensures Width(s[from..q + 1]) == 10 * Width(s[from..q]) + (s[q] as int - '0' as int)
  {
    var d := s[from..q + 1];
    assert d == s[from..q] + [s[q]];
    assert d[..|d| - 1] == s[from..q];
  }

  /** realloc: a larger buffer with the same beginning. */
  method Grow(out: array<char>, len: nat, cap: nat) returns (grown: array<char>)
    requires len <= out.Length <= cap
    ensures fresh(grown) && grown.Length == cap && grown[..len] == out[..len]
  {
    grown := new char[cap];
    for i := 0 to len
      invariant grown[..i] == out[..i]
    {
      grown[i] := out[i];
      assert grown[..i + 1] == grown[..i] + [out[i]];
    }
  }

  /** `done` is what the first `p` characters of `s` become. */
  ghost predicate PaddedUpTo(done: string, s: string, p: nat, prefix: string, value: nat) {
    p <= |s| && done + Padded(s[p..], prefix, value) == Padded(s, prefix, value)
  }

  lemma PadOne(s: string, p: nat, prefix: string, value: nat)
    requires p < |s|
    ensures var found := WidthAt(s[p..], prefix);
            if found.Some?
            then && 0 < found.value.0 <= |s| - p
                 && Padded(s[p..], prefix, value)
                    == ZeroPadded(found.value.1, value) + Padded(s[p + found.value.0..], prefix, value)
            else Padded(s[p..], prefix, value) == [s[p]] + Padded(s[p + 1..], prefix, value)
  {
    LongerThan(s[p..], prefix);
    hide ZeroPadded;
    var found := WidthAt(s[p..], prefix);
    var n := if found.Some? then found.value.0 else 1;
    assert s[p..][n..] == s[p + n..];
  }

  lemma PadStep(done: string, s: string, p: nat, prefix: string, value: nat)
    requires PaddedUpTo(done, s, p, prefix, value) && p < |s|
    ensures var found := WidthAt(s[p..], prefix);
            if found.Some?
            then PaddedUpTo(done + ZeroPadded(found.value.1, value), s, p + found.value.0, prefix, value)
            else PaddedUpTo(done + [s[p]], s, p + 1, prefix, value)
  {
    hide Padded, WidthAt, ZeroPadded;
    PadOne(s, p, prefix, value);
    var found := WidthAt(s[p..], prefix);
    if found.Some? {
      var n, width := found.value.0, found.value.1;
      Assoc(done, ZeroPadded(width, value), Padded(s[p + n..], prefix, value));
    } else {
      Assoc(done, [s[p]], Padded(s[p + 1..], prefix, value));
    }
  }

  lemma PadEnds(done: string, s: string, prefix: string, value: nat)
    ensures PaddedUpTo("", s, 0, prefix, value)
    ensures PaddedUpTo(done, s, |s|, prefix, value) ==> done == Padded(s, prefix, value)
  {
    assert s[0..] == s;
    assert done + "" == done;
  }

  method ReadIdentifier(rest: string, prefix: string) returns (found: bool, n: nat, width: nat)
    ensures if found then WidthAt(rest, prefix) == Some((n, width)) && n <= |rest| else WidthAt(rest, prefix).None?
  {
    found, n, width := false, 0, 0;
    if prefix <= rest {
      var q, w, _ := ReadWidth(rest, |prefix|);
      if q > |prefix| && q + 1 < |rest| && rest[q] == 'd' && rest[q + 1] == '$' {
        return true, q + 2, w;
      }
    }
  }

  /** The buffer grows when a number or a character would not fit with the terminator. */
  method ReplacePadded(s: string, prefix: string, value: nat) returns (out: array<char>, len: nat)
    requires prefix != ""
    ensures len < out.Length && out[len] == '\0' && out[..len] == Padded(s, prefix, value)
  {
    hide PaddedUpTo, Padded, WidthAt, ZeroPadded;
    out := new char[|s| + 64];
    var p := 0;
    len := 0;
    PadEnds("", s, prefix, value);
    while p < |s|
      invariant p <= |s| && len < out.Length && out.Length >= 64 && fresh(out)
      invariant PaddedUpTo(out[..len], s, p, prefix, value)
      decreases |s| - p
    {
      PadStep(out[..len], s, p, prefix, value);
      var found, n, width := ReadIdentifier(s[p..], prefix);
      if found {
        LongerThan(s[p..], prefix);
        var num := ZeroPadded(width, value);
        var need := len + |num| + (|s| - p - n) + 1;
        if need > out.Length { out := Grow(out, len, need * 2); }
        Store(out, len, num);
        len, p := len + |num|, p + n;
      } else {
        if len + 2 > out.Length { out := Grow(out, len, out.Length * 2); }
        StoreChar(out, len, s[p]);
        len, p := len + 1, p + 1;
      }
    }
    PadEnds(out[..len], s, prefix, value);
    Terminate(out, len);
  }

  lemma LongerThan(s: string, prefix: string)
    ensures match WidthAt(s, prefix) case Some((n, _)) => n > 0 case None => true
  {
  }

  // --- the same as a pass ----------------------------------------------------------------

  /** The scan for one plain identifier is a pass. */
  lemma {:induction false} PlainIsPass(s: string, p: Pass, name: string, value: string, v: Values)
    requires NoDollar(name) && forall x :: PassValue(p, x, v) == if x == name then Some(value) else None
    ensures Swapped(s, "$" + name + "$", value) == Replaced(s, One(p), v)
    decreases |s|
  {
    hide PassValue;
    var needle := "$" + name + "$";
    if s != "" {
      if needle <= s {
        var tail := s[|needle|..];
        assert s == "$" + name + "$" + tail;
        DollarAfter(name, tail);
        assert s[1..|name| + 1] == name && s[|name| + 2..] == tail;
        PlainIsPass(tail, p, name, value, v);
      } else {
        PlainIsPass(s[1..], p, name, value, v);
        if s[0] == '$' { NameGivesNeedle(s, name, NextDollar(s, 1)); }
      }
    }
  }

  lemma NameGivesNeedle(s: string, name: string, j: nat)
    requires s != "" && s[0] == '$' && 1 <= j <= |s| && (j < |s| ==> s[j] == '$')
    ensures j < |s| && s[1..j] == name ==> "$" + name + "$" <= s
  {
    if j < |s| && s[1..j] == name {
      assert s[..j + 1] == "$" + name + "$";
    }
  }

  /** The scan for one identifier with a width is a pass. */
  lemma {:induction false} PaddedIsPass(s: string, p: Pass, token: string, value: nat, v: Values)
    requires NoDollar(token)
    requires forall x :: PassValue(p, x, v)
                         == if HasWidth(token, x) then Some(ZeroPadded(WidthOf(token, x), value)) else None
    ensures Padded(s, "$" + token + "%0", value) == Replaced(s, One(p), v)
    decreases |s|
  {
    hide PassValue, HasWidth, WidthOf, WidthAt, ZeroPadded;
    var prefix := "$" + token + "%0";
    if s != "" {
      if s[0] == '$' { WidthAtName(s, token); } else { NoPrefix(s, prefix); }
      LongerThan(s, prefix);
      match WidthAt(s, prefix)
      case Some((n, width)) => PaddedIsPass(s[n..], p, token, value, v);
      case None => PaddedIsPass(s[1..], p, token, value, v);
    }
  }

  lemma NoPrefix(s: string, prefix: string)
    requires s != "" && prefix != "" && s[0] != prefix[0]
    ensures WidthAt(s, prefix).None?
  {
  }

  /** An identifier with a width is found at a dollar exactly when one stands between it and the next dollar. */
  lemma {:induction false} WidthAtName(s: string, token: string)
    requires s != "" && s[0] == '$' && NoDollar(token)
    ensures var j := NextDollar(s, 1);
            WidthAt(s, "$" + token + "%0")
            == if j < |s| && HasWidth(token, s[1..j]) then Some((j + 1, WidthOf(token, s[1..j]))) else None
  {
    var prefix := "$" + token + "%0";
    var j := NextDollar(s, 1);
    if j < |s| && HasWidth(token, s[1..j]) {
      NameGivesWidth(s, token, j);
    } else if WidthAt(s, prefix).Some? {
      WidthGivesName(s, token);
    }
  }

  lemma NameGivesWidth(s: string, token: string, j: nat)
    requires 1 <= j < |s| && s[0] == '$' && s[j] == '$' && HasWidth(token, s[1..j])
    ensures WidthAt(s, "$" + token + "%0") == Some((j + 1, WidthOf(token, s[1..j])))
  {
    var prefix, name := "$" + token + "%0", s[1..j];
    var n := |token| + 2;
    assert |prefix| == n + 1 && |name| == j - 1;
    assert prefix <= s by { PrefixOf(s, name, token, j); }
    Inside(s, j, n, j - 2);
    assert s[j - 1] == name[|name| - 1];
    DigitsRun(s, n + 1, j - 1);
  }

  lemma PrefixOf(s: string, name: string, token: string, j: nat)
    requires 1 <= j <= |s| && s[0] == '$' && name == s[1..j]
    requires |token| + 2 <= |name| && name[..|token| + 2] == token + "%0"
    ensures "$" + token + "%0" <= s
  {
    var prefix := "$" + token + "%0";
    assert prefix == "$" + (token + "%0");
    assert s[..|token| + 3] == "$" + name[..|token| + 2];
  }

  lemma Inside(s: string, j: nat, a: nat, b: nat)
    requires 1 <= j <= |s| && a <= b <= j - 1
    ensures s[1..j][a..b] == s[a + 1..b + 1]
  {
    var t := s[1..j];
    assert forall k :: 0 <= k < |t| ==> t[k] == s[k + 1];
  }

  lemma {:induction false} DigitsRun(s: string, i: nat, q: nat)
    requires i <= q < |s| && AllDigits(s[i..q]) && !IsDigit(s[q])
    ensures DigitsEnd(s, i) == q
    decreases q - i
  {
    if i < q {
      assert s[i] == s[i..q][0] && s[i + 1..q] == s[i..q][1..];
      DigitsRun(s, i + 1, q);
    }
  }

  lemma {:induction false} WidthGivesName(s: string, token: string)
    requires NoDollar(token) && WidthAt(s, "$" + token + "%0").Some?
    ensures var j := NextDollar(s, 1);
            j < |s| && HasWidth(token, s[1..j])
  {
    hide WidthAt, HasWidth, DigitsEnd;
    var prefix := "$" + token + "%0";
    var q := WidthParts(s, prefix);
    IsName(s, token, prefix, q);
    FirstDollar(s, 1, q + 1);
  }

  lemma WidthParts(s: string, prefix: string) returns (q: nat)
    requires WidthAt(s, prefix).Some?
    ensures prefix <= s && |prefix| < q && q + 1 < |s| && AllDigits(s[|prefix|..q]) && s[q] == 'd' && s[q + 1] == '$'
  {
    q := DigitsEnd(s, |prefix|);
  }

  lemma IsName(s: string, token: string, prefix: string, q: nat)
    requires NoDollar(token) && prefix == "$" + token + "%0" && prefix <= s
    requires |prefix| < q < |s| && AllDigits(s[|prefix|..q]) && s[q] == 'd'
    ensures HasWidth(token, s[1..q + 1]) && NoDollar(s[1..q + 1])
  {
    var name, n := s[1..q + 1], |token| + 2;
    assert |prefix| == n + 1;
    assert prefix == "$" + (token + "%0");
    assert name[..n] == s[..n + 1][1..] == token + "%0";
    Inside(s, q + 1, n, q - 1);
    assert name[q - 1] == 'd';
    WidthHasNoDollar(token, name);
  }

  // --- the whole template ---------------------------------------------------------------------

  /** The passes in order; number and time only when there is one. */
  method FillTemplate(template: string, v: Values) returns (out: string)
    ensures out == Fill(template, v)
  {
    hide Replaced, Swapped, Padded;
    var a, n := ReplacePlain(template, "$" + "RepresentationID" + "$", v.id);
    PlainIsPass(template, RepresentationId, "RepresentationID", v.id, v);
    out := a[..n];
    ghost var s := template;
    assert out == Passes(s, v, 1);
    a, n := ReplacePlain(out, "$" + "Bandwidth" + "$", v.bandwidth);
    PlainIsPass(out, Bandwidth, "Bandwidth", v.bandwidth, v);
    out := a[..n];
    assert out == Passes(s, v, 2);
    out := FillNumber(out, "Number", Number, PaddedNumber, v.number, v);
    assert out == Passes(s, v, 4);
    out := FillNumber(out, "Time", Time, PaddedTime, v.time, v);
    assert out == Passes(s, v, 6);
  }

  method FillNumber(s: string, token: string, ghost plain: Pass, ghost padded: Pass, value: int, ghost v: Values)
    returns (out: string)
    requires NoDollar(token)
    requires value >= 0 ==> forall x ::
               && PassValue(plain, x, v) == (if x == token then Some(Cut(Digits(value), PLAIN_MAX)) else None)
               && PassValue(padded, x, v)
                  == if HasWidth(token, x) then Some(ZeroPadded(WidthOf(token, x), value)) else None
    requires value < 0 ==> forall x :: PassValue(plain, x, v).None? && PassValue(padded, x, v).None?
    ensures out == Replaced(Replaced(s, One(plain), v), One(padded), v)
  {
    if value < 0 {
      NoValues(s, plain, v);
      NoValues(s, padded, v);
      return s;
    }
    hide Replaced, Swapped, Padded, PassValue;
    var a, n := ReplacePlain(s, "$" + token + "$", Cut(Digits(value), PLAIN_MAX));
    PlainIsPass(s, plain, token, Cut(Digits(value), PLAIN_MAX), v);
    out := a[..n];
    a, n := ReplacePadded(out, "$" + token + "%0", value);
    PaddedIsPass(out, padded, token, value, v);
    out := a[..n];
  }

  lemma {:induction false} NoValues(s: string, p: Pass, v: Values)
    requires forall x :: PassValue(p, x, v).None?
    ensures Replaced(s, One(p), v) == s
    decreases |s|
  {
    if s != "" { NoValues(s[1..], p, v); }
  }
}
