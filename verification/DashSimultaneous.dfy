/**
 Filling in a template in six passes against replacing everything at once: the two agree
 exactly when no pass takes a piece of the text that the scan from left to right does not.

 A pass that is misled either leaves an identifier that has run into other text, or more
 text than belongs before a dollar, and the passes that follow keep such a difference; or
 the capitals tell, which the text gains with values and loses with identifiers alone.
 */
module DashSimultaneous {
  import opened Wrappers
  import opened Decimals
  import opened DashTemplate

  // --- the passes from one on --------------------------------------------------------------

  /** What the passes from number `k` on make of a text. */
  function Onward(t: string, v: Values, k: nat): string
    requires k <= |ORDER|
    decreases |ORDER| - k
  {
    if k == |ORDER| then t else Onward(Replaced(t, One(ORDER[k]), v), v, k + 1)
  }

  lemma {:induction false} FillGoesOn(s: string, v: Values, k: nat)
    requires k <= |ORDER|
    ensures Fill(s, v) == Onward(Passes(s, v, k), v, k)
    decreases |ORDER| - k
  {
    hide Replaced;
    if k < |ORDER| { FillGoesOn(s, v, k + 1); }
  }

  lemma FirstPasses()
    ensures |ORDER| == 6 && ORDER[0] == RepresentationId && ORDER[1] == Bandwidth
    ensures forall k :: 2 <= k < |ORDER| ==> ORDER[k] in {Number, PaddedNumber, Time, PaddedTime}
  {
  }

  predicate IsLeft(name: string, v: Values, k: nat) {
    IsOf(All, name, v) && (k > 0 ==> name != "RepresentationID") && (k > 1 ==> name != "Bandwidth")
  }

  /** The identifiers that are left belong to the passes from number `k` on. */
  predicate LeftFrom(parts: seq<Part>, v: Values, k: nat) {
    forall i :: 0 <= i < |parts| && parts[i].Part? ==> IsLeft(parts[i].name, v, k)
  }

  lemma NoneNamed(parts: seq<Part>, v: Values)
    ensures NoneOf(parts, RepresentationId, v)
            <==> forall i :: 0 <= i < |parts| && parts[i].Part? ==> parts[i].name != "RepresentationID"
    ensures NoneOf(parts, Bandwidth, v)
            <==> forall i :: 0 <= i < |parts| && parts[i].Part? ==> parts[i].name != "Bandwidth"
  {
  }

  lemma DoneIsLeft(head: string, parts: seq<Part>, v: Values, k: nat)
    requires k <= |ORDER| && WellFormed(head, parts, v) && forall j :: 0 <= j < k ==> NoneOf(parts, ORDER[j], v)
    ensures LeftFrom(parts, v, k)
  {
    FirstPasses();
    NoneNamed(parts, v);
    hide NoneOf, IsOf;
    if k > 0 { assert NoneOf(parts, ORDER[0], v); }
    if k > 1 { assert NoneOf(parts, ORDER[1], v); }
  }

  lemma FillPassLeaves(head: string, parts: seq<Part>, v: Values, k: nat)
    requires k < |ORDER| && WellFormed(head, parts, v) && PlainValues(v) && LeftFrom(parts, v, k)
    ensures var (h, ps) := FillPass(head, parts, ORDER[k], v);
            LeftFrom(ps, v, k + 1) && WellFormed(h, ps, v) && Filled(h, ps, v) == Filled(head, parts, v)
  {
    FirstPasses();
    FillPassKeeps(head, parts, ORDER[k], v);
    NoneNamed(parts, v);
    NoneNamed(FillPass(head, parts, ORDER[k], v).1, v);
    hide FillPass, Filled, PassValue, IsOf, NoneOf;
  }

  // --- capitals ------------------------------------------------------------------------------

  predicate Capital(c: char) { c in {'R', 'B', 'N', 'T'} }

  /** A piece with an identifier's first letter inside it can become no identifier. */
  predicate Dead(piece: string) {
    exists j :: 0 < j < |piece| && Capital(piece[j])
  }

  lemma NamesAreAlive(r: Rule, name: string, v: Values)
    requires IsOf(r, name, v)
    ensures !Dead(name) && name != "" && Capital(name[0])
  {
    assert IsOf(All, name, v) by { if r.One? { OnePass(name, r.p, v); } }
    if HasWidth("Number", name) { WidthIsAlive("Number", name); }
    if HasWidth("Time", name) { WidthIsAlive("Time", name); }
  }

  lemma WidthIsAlive(token: string, name: string)
    requires !Dead(token) && token != "" && HasWidth(token, name)
    ensures !Dead(name) && name[0] == token[0]
  {
    var n := |token| + 2;
    var digits := name[n..|name| - 1];
    assert name == (token + "%0") + digits + "d";
    assert forall i :: 0 <= i < |digits| ==> !Capital(digits[i]);
    forall j | 0 < j < |name| ensures !Capital(name[j]) {
      assert name[j] == if j < |token| then token[j] else if j < n then "%0"[j - |token|]
                        else if j < |name| - 1 then digits[j - n] else 'd';
    }
  }

  predicate HasCapital(s: string) { exists j :: 0 <= j < |s| && Capital(s[j]) }

  lemma DigitsAreFirm(n: nat)
    ensures Digits(n) != "" && Cut(Digits(n), PLAIN_MAX) != "" && AllDigits(Cut(Digits(n), PLAIN_MAX))
    ensures forall width :: ZeroPadded(width, n) != "" && AllDigits(ZeroPadded(width, n))
  {
  }

  /** The values of all passes but the first two are digits. */
  lemma LaterValue(p: Pass, name: string, v: Values)
    requires p != RepresentationId && p != Bandwidth && PassValue(p, name, v).Some?
    ensures PassValue(p, name, v).value != "" && AllDigits(PassValue(p, name, v).value)
  {
    if v.number >= 0 { DigitsAreFirm(v.number); }
    if v.time >= 0 { DigitsAreFirm(v.time); }
  }

  // --- values that leave a mark -----------------------------------------------------------------

  /** An identifier that runs into this can be one no more. */
  predicate Firm(x: string) { x != "" && (x[0] != '%' || HasCapital(x)) }

  /** The values of the passes from number `k` on are firm. */
  predicate FirmFrom(v: Values, k: nat) { (k == 0 ==> Firm(v.id)) && (k <= 1 ==> Firm(v.bandwidth)) }

  lemma PassIsFirm(k: nat, name: string, v: Values)
    requires k < |ORDER| && IsOf(One(ORDER[k]), name, v) && FirmFrom(v, k)
    ensures Firm(PassValue(ORDER[k], name, v).value)
  {
    FirstPasses();
    if k >= 2 { LaterValue(ORDER[k], name, v); }
  }

  lemma LeftIsFirm(name: string, v: Values, k: nat)
    requires IsLeft(name, v, k) && FirmFrom(v, k)
    ensures Firm(Value(All, name, v).value)
  {
    var p := PassOf(name, v).value;
    if p != RepresentationId && p != Bandwidth { LaterValue(p, name, v); }
  }

  /** An identifier that has run into other text can be one no more, whatever follows. */
  predicate Spoilt(piece: string, v: Values) {
    Dead(piece) || exists n :: 0 < n < |piece| && IsOf(All, piece[..n], v) && piece[n] != '%'
  }

  lemma RunIntoText(name: string, x: string, v: Values)
    requires IsOf(All, name, v) && (Firm(x) || HasCapital(x))
    ensures Spoilt(name + x, v)
  {
    NamesAreAlive(All, name, v);
    var n := |name|;
    assert (name + x)[..n] == name && (name + x)[n] == x[0];
    if HasCapital(x) {
      var j :| 0 <= j < |x| && Capital(x[j]);
      assert (name + x)[n + j] == x[j];
    }
  }

  lemma StaysSpoilt(piece: string, more: string, v: Values)
    requires Spoilt(piece, v) && piece <= more
    ensures Spoilt(more, v)
  {
    if Dead(piece) {
      var j :| 0 < j < |piece| && Capital(piece[j]);
      assert more[j] == piece[j];
    } else {
      var n :| 0 < n < |piece| && IsOf(All, piece[..n], v) && piece[n] != '%';
      assert more[..n] == piece[..n] && more[n] == piece[n];
    }
  }

  /**
   The pieces and the template agree up to some dollar. There the template has an
   identifier, and the pieces one that has run into other text, or less text before
   the dollar; or it has a dollar, and the pieces more text before it.
   */
  predicate Parted(cur: string, rest: seq<string>, head: string, parts: seq<Part>, v: Values)
    decreases |parts|
  {
    || (parts != [] && parts[0].Bare? && head < cur)
    || (rest != [] && Spoilt(rest[0], v) && (cur < head || (cur == head && parts != [] && parts[0].Part?)))
    || (parts != [] && parts[0].Part? && cur == head && |rest| >= 2 && rest[0] == parts[0].name
        && Parted(rest[1], rest[2..], parts[0].after, parts[1..], v))
    || (parts != [] && parts[0].Bare? && cur == head && rest != []
        && Parted(rest[0], rest[1..], parts[0].after, parts[1..], v))
  }

  /** Then the text is not that of the template filled in. */
  lemma {:induction false} PartedDiffers(cur: string, rest: seq<string>, head: string, parts: seq<Part>, v: Values)
    requires Parted(cur, rest, head, parts, v) && WellFormed(head, parts, v) && PlainValues(v) && LeftFrom(parts, v, 2)
    requires NoDollar(cur) && NoDollars(rest)
    ensures Join(cur, rest) != Filled(head, parts, v)
    decreases |parts|
  {
    hide Spoilt;
    var filled, joined := Filled(head, parts, v), Join(cur, rest);
    if parts != [] && parts[0].Bare? && head < cur {
      assert filled[|head|] == '$' && joined[|head|] == cur[|head|];
    } else if rest != [] && cur < head {
      assert joined[|cur|] == '$' && filled[|cur|] == head[|cur|];
    } else if parts[0].Part? {
      LeftIsFirm(parts[0].name, v, 2);
      ValueHasNoDollar(All, parts[0].name, v);
      assert joined[|head|] == '$' && filled[|head|] == Value(All, parts[0].name, v).value[0];
    } else {
      assert WellFormed(parts[0].after, parts[1..], v);
      PartedDiffers(rest[0], rest[1..], parts[0].after, parts[1..], v);
      assert joined[|head| + 1..] == Join(rest[0], rest[1..]);
      assert filled[|head| + 1..] == Filled(parts[0].after, parts[1..], v);
    }
  }

  lemma {:induction false} FirstGrows(cur: string, rest: seq<string>, r: Rule, v: Values)
    ensures cur <= PassPieces(cur, rest, r, v)[0]
    decreases |rest|
  {
    hide Value;
    if |rest| >= 2 && Value(r, rest[0], v).Some? {
      FirstGrows(cur + Value(r, rest[0], v).value + rest[1], rest[2..], r, v);
    }
  }

  lemma {:induction false} HeadGrows(head: string, parts: seq<Part>, v: Values, k: nat)
    requires k < |ORDER|
    ensures head <= FillPass(head, parts, ORDER[k], v).0
    ensures FirmFrom(v, k) && parts != [] && IsPart(parts[0], ORDER[k], v) ==>
              head < FillPass(head, parts, ORDER[k], v).0
    decreases |parts|
  {
    hide PassValue, Firm;
    if parts != [] && IsPart(parts[0], ORDER[k], v) {
      var value := PassValue(ORDER[k], parts[0].name, v).value;
      if FirmFrom(v, k) {
        PassIsFirm(k, parts[0].name, v);
        assert value != "" by { FirmIsText(value); }
      }
      HeadGrows(head + value + parts[0].after, parts[1..], v, k);
    }
  }

  lemma FirmIsText(x: string)
    requires Firm(x)
    ensures x != ""
  {
  }

  lemma {:induction false} PartedPrefix(a: string, cur: string, rest: seq<string>, head: string, parts: seq<Part>,
                                        v: Values)
    requires Parted(cur, rest, head, parts, v)
    ensures Parted(a + cur, rest, a + head, parts, v)
  {
    hide Spoilt;
    assert forall x: string, y: string :: x < y ==> a + x < a + y;
  }

  lemma SpoiltIsNoName(r: Rule, piece: string, v: Values)
    requires Spoilt(piece, v)
    ensures !IsOf(r, piece, v)
  {
    if IsOf(r, piece, v) {
      NamesAreAlive(r, piece, v);
      var n :| 0 < n < |piece| && IsOf(All, piece[..n], v) && piece[n] != '%';
      assert IsOf(All, piece, v) by { if r.One? { OnePass(piece, r.p, v); } }
      NameInName(piece, n, v);
    }
  }

  /** The only identifiers that go on after an identifier do so with a percent sign. */
  lemma NameInName(piece: string, n: nat, v: Values)
    requires 0 < n < |piece| && IsOf(All, piece, v) && IsOf(All, piece[..n], v)
    ensures piece[n] == '%'
  {
    var name := piece[..n];
    assert name[0] == piece[0];
    if HasWidth("Number", name) { StartsWith("Number", name); WidthEnds("Number", name); }
    if HasWidth("Time", name) { StartsWith("Time", name); WidthEnds("Time", name); }
    if HasWidth("Number", piece) { StartsWith("Number", piece); WidthHasNoD("Number", piece, n); }
    if HasWidth("Time", piece) { StartsWith("Time", piece); WidthHasNoD("Time", piece, n); }
  }

  lemma WidthEnds(token: string, name: string)
    requires HasWidth(token, name)
    ensures name[|name| - 1] == 'd'
  {
  }

  lemma WidthHasNoD(token: string, name: string, n: nat)
    requires HasWidth(token, name) && 'd' !in token && 0 < n < |name|
    ensures name[n - 1] != 'd'
  {
    var k := |token| + 2;
    assert name[..k] == token + "%0";
    assert n - 1 < k ==> name[n - 1] == (token + "%0")[n - 1];
    assert k <= n - 1 ==> name[n - 1] == name[k..|name| - 1][n - 1 - k];
  }

  /** Text between an identifier's own dollar and the next is taken: the identifier runs into what comes there. */
  lemma TakenAfterName(cur: string, name: string, after: string, more: seq<string>, p: Pass, v: Values)
    requires IsOf(All, name, v) && !IsOf(One(p), name, v) && IsOf(One(p), after, v) && more != []
    requires Firm(PassValue(p, after, v).value) || HasCapital(more[0])
    ensures var out := PassPieces(cur, [name, after] + more, One(p), v);
            |out| >= 2 && out[0] == cur && Spoilt(out[1], v)
  {
    hide Spoilt, PassValue, PassOf;
    var rest := [name, after] + more;
    FrontTwo(name, after, more, rest);
    assert rest[1..][2..] == more[1..] && rest[1..][1] == more[0];
    var x := PassValue(p, after, v).value;
    RunsInto(name, x, more[0], v);
    var tail := PassPieces(name + x + more[0], more[1..], One(p), v);
    FirstGrows(name + x + more[0], more[1..], One(p), v);
    StaysSpoilt(name + x + more[0], tail[0], v);
    assert PassPieces(cur, rest, One(p), v) == [cur] + tail;
  }

  lemma RunsInto(name: string, x: string, next: string, v: Values)
    requires IsOf(All, name, v) && (Firm(x) || HasCapital(next))
    ensures Spoilt(name + x + next, v)
  {
    hide Spoilt, IsOf;
    if Firm(x) {
      RunIntoText(name, x, v);
      StaysSpoilt(name + x, name + x + next, v);
    } else {
      var j :| 0 <= j < |next| && Capital(next[j]);
      assert (x + next)[|x| + j] == next[j];
      RunIntoText(name, x + next, v);
      assert name + (x + next) == name + x + next;
    }
  }

  /** Text between two single dollars is taken: there is more text where the first of them was. */
  lemma TakenAfterDollar(cur: string, after: string, more: seq<string>, p: Pass, v: Values)
    requires IsOf(One(p), after, v) && more != []
    requires Firm(PassValue(p, after, v).value) || HasCapital(more[0])
    ensures cur < PassPieces(cur, [after] + more, One(p), v)[0]
  {
    hide PassValue, PassOf;
    var x := PassValue(p, after, v).value;
    assert ([after] + more)[2..] == more[1..];
    FirstGrows(cur + x + more[0], more[1..], One(p), v);
    assert cur < cur + x + more[0];
  }

  lemma Behind(front: seq<string>, tail: seq<string>)
    requires |front| == 1
    ensures (front + tail)[0] == front[0] && (front + tail)[1..] == tail
  {
  }

  /** A pass keeps them apart. */
  lemma {:induction false} PartedPass(cur: string, rest: seq<string>, head: string, parts: seq<Part>, v: Values,
                                      k: nat)
    requires k < |ORDER| && Parted(cur, rest, head, parts, v) && LeftFrom(parts, v, k) && FirmFrom(v, k)
    ensures var out, filled := PassPieces(cur, rest, One(ORDER[k]), v), FillPass(head, parts, ORDER[k], v);
            Parted(out[0], out[1..], filled.0, filled.1, v)
    decreases |parts|
  {
    hide Spoilt, PassValue, PassOf, Firm, FirmFrom;
    var p := ORDER[k];
    var out := PassPieces(cur, rest, One(p), v);
    FirstGrows(cur, rest, One(p), v);
    HeadGrows(head, parts, v, k);
    if parts != [] && parts[0].Bare? && head < cur {
    } else if rest != [] && Spoilt(rest[0], v) && (cur < head || (cur == head && parts != [] && parts[0].Part?)) {
      SpoiltIsNoName(One(p), rest[0], v);
      FirstGrows(rest[0], rest[1..], One(p), v);
      StaysSpoilt(rest[0], out[1], v);
    } else if parts[0].Part? {
      var name, after := parts[0].name, parts[0].after;
      if IsPart(parts[0], p, v) {
        var a := cur + PassValue(p, name, v).value;
        PartedPrefix(a, rest[1], rest[2..], after, parts[1..], v);
        PartedPass(a + rest[1], rest[2..], a + after, parts[1..], v, k);
      } else {
        var more := rest[1..];
        if |more| >= 2 && IsOf(One(p), more[0], v) {
          assert rest == [name, more[0]] + more[1..];
          PassIsFirm(k, more[0], v);
          TakenAfterName(cur, name, more[0], more[1..], p, v);
        } else {
          PartedPass(rest[1], rest[2..], after, parts[1..], v, k);
          Behind([cur], [name] + PassPieces(rest[1], rest[2..], One(p), v));
          Behind([name], PassPieces(rest[1], rest[2..], One(p), v));
        }
      }
    } else {
      if |rest| >= 2 && IsOf(One(p), rest[0], v) {
        assert rest == [rest[0]] + rest[1..];
        PassIsFirm(k, rest[0], v);
        TakenAfterDollar(cur, rest[0], rest[1..], p, v);
      } else {
        PartedPass(rest[0], rest[1..], parts[0].after, parts[1..], v, k);
        Behind([cur], PassPieces(rest[0], rest[1..], One(p), v));
      }
    }
  }

  // --- when a pass is misled ---------------------------------------------------------------------

  /** The pass takes text for an identifier. */
  predicate Misled(parts: seq<Part>, p: Pass, v: Values) {
    && |parts| >= 2
    && ((!IsPart(parts[0], p, v) && IsOf(One(p), parts[0].after, v)) || Misled(parts[1..], p, v))
  }

  /** The first time it does, an identifier of its own comes next. */
  predicate Doubled(parts: seq<Part>, p: Pass, v: Values) {
    && |parts| >= 2
    && if !IsPart(parts[0], p, v) && IsOf(One(p), parts[0].after, v) then IsPart(parts[1], p, v)
       else Doubled(parts[1..], p, v)
  }

  lemma {:induction false} SpeltIsMisled(parts: seq<Part>, p: Pass, v: Values)
    ensures Misled(parts, p, v) || NoneSpelt(parts, p, v)
    decreases |parts|
  {
    hide IsOf;
    if |parts| >= 2 {
      SpeltIsMisled(parts[1..], p, v);
      assert forall i :: 0 < i < |parts| ==> parts[i] == parts[1..][i - 1];
    }
  }

  lemma OwnHasCapital(part: Part, more: seq<Part>, p: Pass, v: Values)
    requires IsPart(part, p, v)
    ensures HasCapital(Flat([part] + more)[0])
  {
    NamesAreAlive(One(p), part.name, v);
    assert Flat([part] + more)[0] == part.name;
  }

  /** That takes pieces and template apart, if the value leaves a mark or the next identifier does. */
  lemma {:induction false} MisledParts(head: string, parts: seq<Part>, v: Values, k: nat)
    requires k < |ORDER| && LeftFrom(parts, v, k)
    requires (FirmFrom(v, k) && Misled(parts, ORDER[k], v)) || Doubled(parts, ORDER[k], v)
    ensures var out, filled := PassPieces(head, Flat(parts), One(ORDER[k]), v), FillPass(head, parts, ORDER[k], v);
            Parted(out[0], out[1..], filled.0, filled.1, v)
    decreases |parts|
  {
    hide Spoilt, PassValue, PassOf, Firm, FirmFrom, HasCapital;
    var p := ORDER[k];
    var after, rest := parts[0].after, parts[1..];
    FlatSteps(parts);
    var out := PassPieces(head, Flat(parts), One(p), v);
    if IsPart(parts[0], p, v) {
      MisledParts(head + PassValue(p, parts[0].name, v).value + after, rest, v, k);
    } else if IsOf(One(p), after, v) {
      if FirmFrom(v, k) { PassIsFirm(k, after, v); } else {
        assert rest == [rest[0]] + rest[1..];
        OwnHasCapital(rest[0], rest[1..], p, v);
      }
      if parts[0].Part? {
        TakenAfterName(head, parts[0].name, after, Flat(rest), p, v);
      } else {
        TakenAfterDollar(head, after, Flat(rest), p, v);
      }
    } else {
      MisledParts(after, rest, v, k);
      var tail := PassPieces(after, Flat(rest), One(p), v);
      CleanStep(head, parts[0], Flat(rest), p, v);
      hide PassPieces;
      if parts[0].Part? {
        assert out == [head] + ([parts[0].name] + tail);
        Behind([head], [parts[0].name] + tail);
        Behind([parts[0].name], tail);
      } else {
        Behind([head], tail);
      }
    }
  }

  /** Once they are apart they are apart at the end. */
  lemma {:induction false} PartedEnds(cur: string, rest: seq<string>, head: string, parts: seq<Part>, v: Values, k: nat)
    requires k <= |ORDER| && PlainValues(v) && FirmFrom(v, k) && NoDollar(cur) && NoDollars(rest)
    requires WellFormed(head, parts, v) && LeftFrom(parts, v, k) && Parted(cur, rest, head, parts, v)
    ensures Onward(Join(cur, rest), v, k) != Filled(head, parts, v)
    decreases |ORDER| - k
  {
    hide Parted, WellFormed, Filled, Replaced, PassPieces, FillPass, Firm, IsLeft;
    if k == |ORDER| {
      AllLeft(parts, v, k);
      PartedDiffers(cur, rest, head, parts, v);
    } else {
      var out, filled := PassPieces(cur, rest, One(ORDER[k]), v), FillPass(head, parts, ORDER[k], v);
      PassOnPieces(cur, rest, One(ORDER[k]), v);
      PartedPass(cur, rest, head, parts, v, k);
      FillPassLeaves(head, parts, v, k);
      PartedEnds(out[0], out[1..], filled.0, filled.1, v, k + 1);
    }
  }

  lemma AllLeft(parts: seq<Part>, v: Values, k: nat)
    requires k >= 2 && LeftFrom(parts, v, k)
    ensures LeftFrom(parts, v, 2)
  {
  }

  /** A misled pass that leaves a mark, and firm values after it. */
  lemma MarkStays(head: string, parts: seq<Part>, v: Values, k: nat)
    requires k < |ORDER| && PlainValues(v) && WellFormed(head, parts, v) && LeftFrom(parts, v, k)
    requires (FirmFrom(v, k) && Misled(parts, ORDER[k], v)) || Doubled(parts, ORDER[k], v)
    requires FirmFrom(v, k + 1)
    ensures Onward(Text(head, parts), v, k) != Filled(head, parts, v)
  {
    hide Parted, WellFormed, Filled, Replaced, PassPieces, FillPass, Firm, IsLeft, Misled, Doubled, LeftFrom, Joined;
    var out, filled := PassPieces(head, Flat(parts), One(ORDER[k]), v), FillPass(head, parts, ORDER[k], v);
    PassOnText(head, parts, ORDER[k], v);
    MisledParts(head, parts, v, k);
    FillPassLeaves(head, parts, v, k);
    OutJoined(out);
    PartedEnds(out[0], out[1..], filled.0, filled.1, v, k + 1);
  }

  lemma OutJoined(out: seq<string>)
    requires out != [] && NoDollars(out)
    ensures Joined(out) == Join(out[0], out[1..]) && NoDollar(out[0]) && NoDollars(out[1..])
  {
  }

  // --- how often a pass takes something ------------------------------------------------------------

  /** How many identifiers the pass takes of the text from a dollar on. */
  function Taken(rest: seq<string>, p: Pass, v: Values): nat
    decreases |rest|
  {
    if |rest| < 2 then 0
    else if IsOf(One(p), rest[0], v) then 1 + Taken(rest[2..], p, v)
    else Taken(rest[1..], p, v)
  }

  /** How many the template has for it. */
  function Own(parts: seq<Part>, p: Pass, v: Values): nat {
    if parts == [] then 0 else OneIf(IsPart(parts[0], p, v)) + Own(parts[1..], p, v)
  }

  /**
   A pass takes at least as many as the template has; if it takes the first wrong one and
   yet no more, then one of the template's comes right after that.
   */
  lemma {:induction false} TakesMost(parts: seq<Part>, p: Pass, v: Values)
    ensures Taken(Flat(parts), p, v) >= Own(parts, p, v)
    ensures Misled(parts, p, v) && Taken(Flat(parts), p, v) == Own(parts, p, v) ==> Doubled(parts, p, v)
    decreases |parts|, 1
  {
    hide IsOf;
    if parts != [] {
      var after, rest := parts[0].after, parts[1..];
      FlatSteps(parts);
      TakesMost(rest, p, v);
      if IsPart(parts[0], p, v) {
        assert IsOf(One(p), parts[0].name, v);
      } else if IsOf(One(p), after, v) && rest != [] {
        TakesMostBehind(rest, p, v);
        TakenStep(after, Flat(rest), p, v);
        if parts[0].Part? { TakenSkips(parts[0].name, [after] + Flat(rest), p, v); }
      } else {
        TakenSkips(after, Flat(rest), p, v);
        if parts[0].Part? { TakenSkips(parts[0].name, [after] + Flat(rest), p, v); }
      }
    }
  }

  /** The same when it has already taken the first dollar of the template. */
  lemma {:induction false} TakesMostBehind(parts: seq<Part>, p: Pass, v: Values)
    requires parts != []
    ensures Taken(Flat(parts)[1..], p, v) + OneIf(IsPart(parts[0], p, v)) >= Own(parts, p, v)
    decreases |parts|, 0
  {
    hide IsOf;
    var after, rest := parts[0].after, parts[1..];
    FlatSteps(parts);
    TakesMost(rest, p, v);
    if parts[0].Part? {
      if IsOf(One(p), after, v) && rest != [] {
        TakesMostBehind(rest, p, v);
        TakenStep(after, Flat(rest), p, v);
      } else {
        TakenSkips(after, Flat(rest), p, v);
      }
    }
  }

  lemma TakenStep(name: string, more: seq<string>, p: Pass, v: Values)
    requires IsOf(One(p), name, v) && more != []
    ensures Taken([name] + more, p, v) == 1 + Taken(more[1..], p, v)
  {
    assert ([name] + more)[2..] == more[1..];
  }

  lemma TakenSkips(name: string, more: seq<string>, p: Pass, v: Values)
    requires !IsOf(One(p), name, v) || more == []
    ensures Taken([name] + more, p, v) == Taken(more, p, v)
  {
    assert ([name] + more)[1..] == more;
  }

  // --- the weight of a text ---------------------------------------------------------------------------

  /** A weight for one capital, for the three others, and for a dollar. */
  datatype Weights = Weights(letter: char, own: int, other: int, dollar: int)

  function Weight(c: char, w: Weights): int {
    if c == '$' then w.dollar else if c == w.letter then w.own else if Capital(c) then w.other else 0
  }

  function Weigh(s: string, w: Weights): int {
    if s == "" then 0 else Weight(s[0], w) + Weigh(s[1..], w)
  }

  lemma {:induction false} WeighBoth(a: string, b: string, w: Weights)
    ensures Weigh(a + b, w) == Weigh(a, w) + Weigh(b, w)
    decreases |a|
  {
    if a == "" {
      assert a + b == b;
    } else {
      assert (a + b)[1..] == a[1..] + b && (a + b)[0] == a[0];
      WeighBoth(a[1..], b, w);
    }
  }

  lemma {:induction false} WeighsNothing(s: string, w: Weights)
    requires forall i :: 0 <= i < |s| ==> Weight(s[i], w) == 0
    ensures Weigh(s, w) == 0
  {
    if s != "" { WeighsNothing(s[1..], w); }
  }

  /** An identifier weighs what its first letter does. */
  lemma NameWeighs(name: string, w: Weights, v: Values)
    requires IsOf(All, name, v) && Capital(w.letter)
    ensures Weigh(name, w) == Weight(name[0], w)
  {
    NamesAreAlive(All, name, v);
    NameHasNoDollar(name, v);
    assert name[1..] == name[1..|name|];
    forall i | 0 <= i < |name[1..]| ensures Weight(name[1..][i], w) == 0 {
      assert name[1..][i] == name[i + 1] && !Capital(name[i + 1]);
    }
    WeighsNothing(name[1..], w);
  }

  /**
   Weights that only the identifiers of pass `k` change: one of them with its dollars weighs
   something and its value nothing, a later one weighs nothing and neither does its value.
   */
  predicate Scales(w: Weights, v: Values, k: nat) {
    && k < 2 && w.letter == (if k == 0 then 'R' else 'B')
    && w.other + 2 * w.dollar == 0 < w.own + 2 * w.dollar
    && Weigh(v.bandwidth, w) == 0 && (k == 0 ==> Weigh(v.id, w) == 0)
  }

  function Cost(w: Weights): int { w.own + 2 * w.dollar }

  /** What putting a value in place of an identifier of pass `k` or a later one takes away. */
  lemma TakeWeighs(name: string, p: Pass, v: Values, k: nat, w: Weights)
    requires Scales(w, v, k) && PassValue(p, name, v).Some? && (k == 1 ==> p != RepresentationId)
    ensures Weigh(PassValue(p, name, v).value, w) == 0
    ensures 2 * w.dollar + Weigh(name, w) == if p == ORDER[k] then Cost(w) else 0
  {
    FirstPasses();
    OnePass(name, p, v);
    NameWeighs(name, w, v);
    FirstLetter(name, p, v);
    if p != RepresentationId && p != Bandwidth {
      LaterValue(p, name, v);
      WeighsNothing(PassValue(p, name, v).value, w);
    }
  }

  lemma FirstLetter(name: string, p: Pass, v: Values)
    requires PassValue(p, name, v).Some?
    ensures name != ""
    ensures name[0] == match p
                       case RepresentationId => 'R'
                       case Bandwidth => 'B'
                       case Number => 'N'
                       case PaddedNumber => 'N'
                       case Time => 'T'
                       case PaddedTime => 'T'
  {
    if HasWidth("Number", name) { WidthIsAlive("Number", name); }
    if HasWidth("Time", name) { WidthIsAlive("Time", name); }
  }

  lemma JoinWeighs(cur: string, rest: seq<string>, w: Weights)
    ensures Weigh(Join(cur, rest), w)
            == Weigh(cur, w) + if rest == [] then 0 else w.dollar + Weigh(Join(rest[0], rest[1..]), w)
  {
    if rest != [] {
      WeighBoth(cur + "$", Join(rest[0], rest[1..]), w);
      WeighBoth(cur, "$", w);
    }
  }

  /** The pass takes away as much for each identifier it takes. */
  lemma {:induction false} PassWeighs(cur: string, rest: seq<string>, p: Pass, v: Values, k: nat, w: Weights)
    requires Scales(w, v, k) && (k == 1 ==> p != RepresentationId)
    ensures Weigh(Joined(PassPieces(cur, rest, One(p), v)), w)
            == Weigh(Join(cur, rest), w) - if p == ORDER[k] then Times(Taken(rest, p, v), Cost(w)) else 0
    decreases |rest|
  {
    hide Weigh, PassValue, Scales, Join, Times;
    OneMoreTime(Taken(if |rest| >= 2 then rest[2..] else [], p, v), Cost(w));
    JoinWeighs(cur, rest, w);
    if rest == [] {
      NothingReplaced(cur, One(p), v);
    } else if |rest| >= 2 && IsOf(One(p), rest[0], v) {
      var value := PassValue(p, rest[0], v).value;
      PassWeighs(cur + value + rest[1], rest[2..], p, v, k, w);
      TakeWeighs(rest[0], p, v, k, w);
      JoinPrefix(cur + value, rest[1], rest[2..]);
      WeighBoth(cur + value, Join(rest[1], rest[2..]), w);
      WeighBoth(cur, value, w);
      JoinWeighs(rest[0], rest[1..], w);
      assert rest[1..][1..] == rest[2..];
    } else {
      PassWeighs(rest[0], rest[1..], p, v, k, w);
      JoinedWeighs(cur, PassPieces(rest[0], rest[1..], One(p), v), w);
    }
  }

  function Times(n: nat, d: int): int { n * d }

  lemma OneMoreTime(n: nat, d: int)
    ensures Times(1 + n, d) == d + Times(n, d) && Times(0, d) == 0
  {
  }

  lemma JoinedWeighs(cur: string, pieces: seq<string>, w: Weights)
    requires pieces != []
    ensures Weigh(Joined([cur] + pieces), w) == Weigh(cur, w) + w.dollar + Weigh(Joined(pieces), w)
  {
    Behind([cur], pieces);
    JoinWeighs(cur, pieces, w);
  }

  /** And filling in, for each identifier that is one of the pass. */
  lemma {:induction false} FilledWeighs(head: string, parts: seq<Part>, v: Values, k: nat, w: Weights)
    requires Scales(w, v, k) && WellFormed(head, parts, v) && LeftFrom(parts, v, k)
    ensures Weigh(Filled(head, parts, v), w) == Weigh(Text(head, parts), w) - Times(Own(parts, ORDER[k], v), Cost(w))
    decreases |parts|
  {
    FirstPasses();
    assert k < 2;
    hide *;
    if parts == [] {
      NothingFilled(head, v, k, w);
    } else {
      PartsBelow(head, parts, v, k);
      FilledWeighs(parts[0].after, parts[1..], v, k, w);
      FilledStep(head, parts, v, w);
      TextStep(head, parts, w);
      FirstWeighs(parts, v, k, w);
    }
  }

  lemma PartsBelow(head: string, parts: seq<Part>, v: Values, k: nat)
    requires parts != [] && WellFormed(head, parts, v) && LeftFrom(parts, v, k)
    ensures WellFormed(parts[0].after, parts[1..], v) && LeftFrom(parts[1..], v, k)
    ensures parts[0].Part? ==> IsLeft(parts[0].name, v, k)
  {
    hide IsOf, NoDollar, IsLeft;
  }

  /** What the first part weighs, and what stands in its place. */
  lemma FirstWeighs(parts: seq<Part>, v: Values, k: nat, w: Weights)
    requires parts != [] && Scales(w, v, k) && k < |ORDER|
    requires parts[0].Part? ==> IsLeft(parts[0].name, v, k)
    ensures w.dollar + (if parts[0].Part? then Weigh(parts[0].name, w) + w.dollar else 0)
            == Weigh(if parts[0].Part? then Value(All, parts[0].name, v).value else "$", w)
               + Times(Own(parts, ORDER[k], v), Cost(w)) - Times(Own(parts[1..], ORDER[k], v), Cost(w))
  {
    hide Weigh, Times, Cost, Scales, Value;
    OneMoreTime(Own(parts[1..], ORDER[k], v), Cost(w));
    if parts[0].Part? {
      PartWeighs(parts[0], v, k, w);
    } else {
      DollarWeighs(w);
    }
  }

  lemma PartWeighs(part: Part, v: Values, k: nat, w: Weights)
    requires Scales(w, v, k) && part.Part? && IsLeft(part.name, v, k)
    ensures Weigh(Value(All, part.name, v).value, w) == 0
    ensures 2 * w.dollar + Weigh(part.name, w) == if IsPart(part, ORDER[k], v) then Cost(w) else 0
  {
    FirstPasses();
    var p := LeftPass(part.name, v, k);
    TakeWeighs(part.name, p, v, k, w);
  }

  lemma NothingFilled(head: string, v: Values, k: nat, w: Weights)
    requires k < |ORDER| && WellFormed(head, [], v)
    ensures Weigh(Filled(head, [], v), w) == Weigh(Text(head, []), w) - Times(Own([], ORDER[k], v), Cost(w))
  {
    assert Filled(head, [], v) == Text(head, []);
    hide Weigh;
  }

  lemma FilledStep(head: string, parts: seq<Part>, v: Values, w: Weights)
    requires parts != [] && WellFormed(head, parts, v) && WellFormed(parts[0].after, parts[1..], v)
    ensures Weigh(Filled(head, parts, v), w)
            == Weigh(head, w) + Weigh(if parts[0].Part? then Value(All, parts[0].name, v).value else "$", w)
               + Weigh(Filled(parts[0].after, parts[1..], v), w)
  {
    hide Weigh, PassValue, PassOf;
    var first := if parts[0].Part? then Value(All, parts[0].name, v).value else "$";
    WeighBoth(head + first, Filled(parts[0].after, parts[1..], v), w);
    WeighBoth(head, first, w);
  }

  lemma TextStep(head: string, parts: seq<Part>, w: Weights)
    requires parts != []
    ensures Weigh(Text(head, parts), w)
            == Weigh(head, w) + w.dollar + (if parts[0].Part? then Weigh(parts[0].name, w) + w.dollar else 0)
               + Weigh(Text(parts[0].after, parts[1..]), w)
  {
    hide Weigh, Join;
    FlatSteps(parts);
    JoinWeighs(head, Flat(parts), w);
    if parts[0].Part? { JoinWeighs(parts[0].name, [parts[0].after] + Flat(parts[1..]), w); }
  }

  lemma DollarWeighs(w: Weights)
    ensures Weigh("$", w) == w.dollar
  {
  }

  /** The pass of an identifier that is left. */
  lemma LeftPass(name: string, v: Values, k: nat) returns (p: Pass)
    requires IsLeft(name, v, k) && k < |ORDER|
    ensures PassValue(p, name, v).Some? && PassValue(p, name, v) == Value(All, name, v)
    ensures (k > 0 ==> p != RepresentationId) && (IsOf(One(ORDER[k]), name, v) <==> p == ORDER[k])
  {
    p := PassOf(name, v).value;
    if IsOf(One(ORDER[k]), name, v) { OnePass(name, ORDER[k], v); }
  }

  /** A pass changes the weight of the text only if it is pass `k`. */
  lemma {:induction false} OnwardWeighs(t: string, v: Values, j: nat, k: nat, w: Weights)
    requires Scales(w, v, k) && k < j <= |ORDER| && PlainValues(v)
    ensures Weigh(Onward(t, v, j), w) == Weigh(t, w)
    decreases |ORDER| - j
  {
    hide Weigh, Replaced, Scales, PassPieces;
    FirstPasses();
    if j < |ORDER| {
      var pieces := Pieces(t);
      PassOnPieces(pieces[0], pieces[1..], One(ORDER[j]), v);
      assert ORDER[j] != ORDER[k] && ORDER[j] != RepresentationId;
      PassWeighs(pieces[0], pieces[1..], ORDER[j], v, k, w);
      OnwardWeighs(Replaced(t, One(ORDER[j]), v), v, j + 1, k, w);
    }
  }

  lemma SameTimes(n: nat, m: nat, d: int)
    requires d > 0 && Times(n, d) == Times(m, d)
    ensures n == m
  {
    assert (n - m) * d == 0;
  }

  /** If all comes to the same, the pass has taken as many as the template has. */
  lemma AsManyTaken(head: string, parts: seq<Part>, v: Values, k: nat, w: Weights)
    requires Scales(w, v, k) && PlainValues(v) && WellFormed(head, parts, v) && LeftFrom(parts, v, k)
    requires Onward(Text(head, parts), v, k) == Filled(head, parts, v)
    ensures Taken(Flat(parts), ORDER[k], v) == Own(parts, ORDER[k], v)
  {
    FirstPasses();
    assert k < 2 && Cost(w) > 0 && (k == 1 ==> ORDER[k] != RepresentationId);
    hide Weigh, Replaced, Scales, PassPieces, Filled, Taken, Own, Cost, WellFormed, LeftFrom, Times;
    PassOnText(head, parts, ORDER[k], v);
    OnwardWeighs(Replaced(Text(head, parts), One(ORDER[k]), v), v, k + 1, k, w);
    PassWeighs(head, Flat(parts), ORDER[k], v, k, w);
    FilledWeighs(head, parts, v, k, w);
    SameTimes(Taken(Flat(parts), ORDER[k], v), Own(parts, ORDER[k], v), Cost(w));
  }

  // --- which scales there are -----------------------------------------------------------------------

  /** How often the letter is in the text, and how many capitals are. */
  function Letters(s: string, c: char): nat {
    if s == "" then 0 else OneIf(s[0] == c) + Letters(s[1..], c)
  }

  function Capitals(s: string): nat {
    if s == "" then 0 else OneIf(Capital(s[0])) + Capitals(s[1..])
  }

  lemma {:induction false} WeighLetters(s: string, w: Weights)
    requires NoDollar(s) && Capital(w.letter)
    ensures Letters(s, w.letter) <= Capitals(s)
    ensures Weigh(s, w) == Times(Letters(s, w.letter), w.own - w.other) + Times(Capitals(s), w.other)
  {
    if s != "" {
      WeighLetters(s[1..], w);
      OneMoreTime(Letters(s[1..], w.letter), w.own - w.other);
      OneMoreTime(Capitals(s[1..]), w.other);
      hide Weigh, Letters, Capitals;
    }
  }

  lemma {:induction false} NoCapitals(s: string)
    requires !HasCapital(s)
    ensures Capitals(s) == 0
  {
    if s != "" { NoCapitals(s[1..]); }
  }

  lemma Balance(r: int, c: int)
    ensures r * (2 * c - 2 * r - -2 * r) + c * (-2 * r) == 0
  {
    assert r * (2 * c) == 2 * (r * c) && c * (-2 * r) == -2 * (r * c);
  }

  /** When the value of pass `k` has no capitals there are scales. */
  lemma FindScales(v: Values, k: nat) returns (w: Weights)
    requires PlainValues(v) && k < 2 && !HasCapital(if k == 0 then v.id else v.bandwidth)
    ensures Scales(w, v, k)
  {
    hide Weigh, Letters, Capitals, HasCapital;
    NoCapitals(if k == 0 then v.id else v.bandwidth);
    var r: int, c: int := Letters(v.bandwidth, 'R'), Capitals(v.bandwidth);
    w := if k == 0 && r > 0 then Weights('R', 2 * c - 2 * r, -2 * r, r)
         else Weights(if k == 0 then 'R' else 'B', 2, 0, 0);
    WeighLetters(v.id, w);
    WeighLetters(v.bandwidth, w);
    Balance(r, c);
  }

  // --- where the first letters of the first pass stand --------------------------------------------------

  /** For every R of a text whether an even number of dollars comes before it, when `e` says so of its start. */
  function Trace(s: string, e: bool): seq<bool> {
    if s == "" then []
    else if s[0] == '$' then Trace(s[1..], !e)
    else (if s[0] == 'R' then [e] else []) + Trace(s[1..], e)
  }

  lemma {:induction false} TraceBoth(a: string, b: string, e: bool)
    requires NoDollar(a)
    ensures Trace(a + b, e) == Trace(a, e) + Trace(b, e)
    decreases |a|
  {
    if a == "" {
      assert a + b == b;
    } else {
      var first := if a[0] == 'R' then [e] else [];
      TraceStep(a, e);
      TraceStep(a + b, e);
      hide Trace;
      assert (a + b)[1..] == a[1..] + b && (a + b)[0] == a[0];
      TraceBoth(a[1..], b, e);
      assert first + (Trace(a[1..], e) + Trace(b, e)) == first + Trace(a[1..], e) + Trace(b, e);
    }
  }

  lemma TraceStep(s: string, e: bool)
    requires s != "" && s[0] != '$'
    ensures Trace(s, e) == (if s[0] == 'R' then [e] else []) + Trace(s[1..], e)
  {
  }

  lemma {:induction false} NoTrace(s: string, e: bool)
    requires NoDollar(s) && 'R' !in s
    ensures Trace(s, e) == []
  {
    if s != "" { NoTrace(s[1..], e); }
  }

  lemma {:induction false} SomeTrace(s: string, e: bool)
    requires NoDollar(s) && 'R' in s
    ensures [e] <= Trace(s, e)
  {
    if s[0] != 'R' { SomeTrace(s[1..], e); }
  }

  lemma JoinTrace(cur: string, rest: seq<string>, e: bool)
    requires NoDollar(cur)
    ensures Trace(Join(cur, rest), e)
            == Trace(cur, e) + if rest == [] then [] else Trace(Join(rest[0], rest[1..]), !e)
  {
    if rest != [] {
      var tail := Join(rest[0], rest[1..]);
      assert cur + "$" + tail == cur + ("$" + tail) && ("$" + tail)[1..] == tail;
      TraceBoth(cur, "$" + tail, e);
    }
  }

  /** No pass but the first changes it, if the bandwidth has no R. */
  lemma {:induction false} PassTrace(cur: string, rest: seq<string>, p: Pass, v: Values, e: bool)
    requires p != RepresentationId && 'R' !in v.bandwidth && PlainValues(v) && NoDollar(cur) && NoDollars(rest)
    ensures Trace(Joined(PassPieces(cur, rest, One(p), v)), e) == Trace(Join(cur, rest), e)
    decreases |rest|
  {
    hide Trace, PassValue, Join, Joined;
    JoinTrace(cur, rest, e);
    if rest == [] {
      NothingReplaced(cur, One(p), v);
    } else if |rest| >= 2 && IsOf(One(p), rest[0], v) {
      var value := PassValue(p, rest[0], v).value;
      TakeTrace(rest[0], p, v, e);
      PassTrace(cur + value + rest[1], rest[2..], p, v, e);
      JoinPrefix(cur + value, rest[1], rest[2..]);
      TraceBoth(cur + value, Join(rest[1], rest[2..]), e);
      TraceBoth(cur, value, e);
      JoinTrace(rest[0], rest[1..], !e);
      assert rest[1..][1..] == rest[2..];
    } else {
      PassTrace(rest[0], rest[1..], p, v, !e);
      JoinedTrace(cur, PassPieces(rest[0], rest[1..], One(p), v), e);
    }
  }

  lemma JoinedTrace(cur: string, pieces: seq<string>, e: bool)
    requires NoDollar(cur) && pieces != []
    ensures Trace(Joined([cur] + pieces), e) == Trace(cur, e) + Trace(Joined(pieces), !e)
  {
    hide Trace;
    Behind([cur], pieces);
    JoinTrace(cur, pieces, e);
  }

  lemma TakeTrace(name: string, p: Pass, v: Values, e: bool)
    requires p != RepresentationId && 'R' !in v.bandwidth && PlainValues(v) && PassValue(p, name, v).Some?
    ensures NoDollar(PassValue(p, name, v).value) && Trace(PassValue(p, name, v).value, e) == []
    ensures Trace(name, !e) == []
  {
    hide Trace;
    ValueHasNoDollar(One(p), name, v);
    if p != Bandwidth { LaterValue(p, name, v); }
    NoTrace(PassValue(p, name, v).value, e);
    OnePass(name, p, v);
    NameHasNoDollar(name, v);
    NamesAreAlive(One(p), name, v);
    FirstLetter(name, p, v);
    forall j | 0 <= j < |name| ensures name[j] != 'R' {
      assert j > 0 ==> !Capital(name[j]);
    }
    NoTrace(name, !e);
  }

  lemma {:induction false} OnwardTrace(t: string, v: Values, j: nat, e: bool)
    requires 'R' !in v.bandwidth && 0 < j <= |ORDER| && PlainValues(v)
    ensures Trace(Onward(t, v, j), e) == Trace(t, e)
    decreases |ORDER| - j
  {
    hide Trace, Replaced, PassPieces;
    FirstPasses();
    if j < |ORDER| {
      var pieces := Pieces(t);
      PassOnPieces(pieces[0], pieces[1..], One(ORDER[j]), v);
      PassTrace(pieces[0], pieces[1..], ORDER[j], v, e);
      OnwardTrace(Replaced(t, One(ORDER[j]), v), v, j + 1, e);
    }
  }

  /** The first identifier that is taken and should not be leaves the next R where the template has none. */
  lemma {:induction false} TraceApart(head: string, parts: seq<Part>, v: Values, e: bool)
    requires PlainValues(v) && 'R' !in v.bandwidth && WellFormed(head, parts, v)
    requires ('R' in v.id && Misled(parts, RepresentationId, v)) || Doubled(parts, RepresentationId, v)
    ensures Trace(Joined(PassPieces(head, Flat(parts), One(RepresentationId), v)), e)
            != Trace(Filled(head, parts, v), e)
    decreases |parts|
  {
    hide Trace, PassValue, PassOf, Join, Filled, PassPieces, Joined, HasCapital;
    var after, rest := parts[0].after, parts[1..];
    assert WellFormed(after, rest, v);
    FlatSteps(parts);
    var p := RepresentationId;
    if IsPart(parts[0], p, v) {
      OwnFilled(head, parts, v);
      PassTakes(head, parts[0].name, after, Flat(rest), One(p), v);
      TraceApart(head + v.id + after, rest, v, e);
    } else if IsOf(One(p), after, v) {
      NextHasR(parts, v);
      TraceParts(head, parts, v, e);
    } else {
      var tail := PassPieces(after, Flat(rest), One(p), v);
      CleanStep(head, parts[0], Flat(rest), p, v);
      OtherFilled(head, parts, v, e);
      if parts[0].Part? {
        TraceApart(after, rest, v, e);
        TwoDollars(head, parts[0].name, tail, v, e);
        Cancel(Trace(head, e), Trace(Joined(tail), e), Trace(Filled(after, rest, v), e));
      } else {
        TraceApart(after, rest, v, !e);
        JoinedTrace(head, tail, e);
        Cancel(Trace(head, e), Trace(Joined(tail), !e), Trace(Filled(after, rest, v), !e));
      }
    }
  }

  lemma TwoDollars(head: string, name: string, tail: seq<string>, v: Values, e: bool)
    requires NoDollar(head) && IsOf(All, name, v) && Trace(name, !e) == [] && tail != []
    ensures Trace(Joined([head, name] + tail), e) == Trace(head, e) + Trace(Joined(tail), e)
  {
    hide Trace, Joined, IsOf;
    NameHasNoDollar(name, v);
    assert [head, name] + tail == [head] + ([name] + tail);
    JoinedTrace(head, [name] + tail, e);
    JoinedTrace(name, tail, !e);
    assert [] + Trace(Joined(tail), e) == Trace(Joined(tail), e);
  }

  lemma Cancel(a: seq<bool>, x: seq<bool>, y: seq<bool>)
    requires x != y
    ensures a + x != a + y
  {
    assert (a + x)[|a|..] == x && (a + y)[|a|..] == y;
  }

  lemma OwnFilled(head: string, parts: seq<Part>, v: Values)
    requires parts != [] && IsPart(parts[0], RepresentationId, v) && PlainValues(v)
    requires WellFormed(head, parts, v) && WellFormed(parts[0].after, parts[1..], v)
    ensures PassValue(RepresentationId, parts[0].name, v) == Some(v.id)
    ensures WellFormed(head + v.id + parts[0].after, parts[1..], v)
    ensures Filled(head, parts, v) == Filled(head + v.id + parts[0].after, parts[1..], v)
  {
    OnePass(parts[0].name, RepresentationId, v);
    FilledPrefix(head + v.id, parts[0].after, parts[1..], v);
  }

  /** An identifier of another pass shows no R, whether it is filled in or not. */
  lemma OtherFilled(head: string, parts: seq<Part>, v: Values, e: bool)
    requires parts != [] && !IsPart(parts[0], RepresentationId, v) && PlainValues(v) && 'R' !in v.bandwidth
    requires WellFormed(head, parts, v) && WellFormed(parts[0].after, parts[1..], v)
    ensures Trace(Filled(head, parts, v), e)
            == Trace(head, e) + Trace(Filled(parts[0].after, parts[1..], v), if parts[0].Part? then e else !e)
    ensures parts[0].Part? ==> Trace(parts[0].name, !e) == []
  {
    hide Trace, PassValue;
    var tail := Filled(parts[0].after, parts[1..], v);
    if parts[0].Part? {
      var name := parts[0].name;
      var p := LeftPass(name, v, 0);
      FirstPasses();
      assert p != RepresentationId;
      TakeTrace(name, p, v, e);
      var value := PassValue(p, name, v).value;
      TraceBoth(head + value, tail, e);
      TraceBoth(head, value, e);
    } else {
      DollarTrace(head, tail, e);
    }
  }

  lemma DollarTrace(a: string, b: string, e: bool)
    requires NoDollar(a)
    ensures Trace(a + "$" + b, e) == Trace(a, e) + Trace(b, !e)
  {
    assert a + "$" + b == a + ("$" + b) && ("$" + b)[1..] == b;
    TraceBoth(a, "$" + b, e);
  }

  lemma NextHasR(parts: seq<Part>, v: Values)
    requires |parts| >= 2 && !IsPart(parts[0], RepresentationId, v) && IsOf(One(RepresentationId), parts[0].after, v)
    requires 'R' in v.id || Doubled(parts, RepresentationId, v)
    ensures 'R' in v.id + Flat(parts[1..])[0]
  {
    var id, next := v.id, Flat(parts[1..])[0];
    if 'R' in id {
      var j :| 0 <= j < |id| && id[j] == 'R';
      assert (id + next)[j] == 'R';
    } else {
      assert next == parts[1].name == "RepresentationID";
      assert (id + next)[|id|] == 'R';
    }
  }

  /** The pieces have their next R in one piece, the template in the next. */
  lemma TraceParts(head: string, parts: seq<Part>, v: Values, e: bool)
    requires PlainValues(v) && 'R' !in v.bandwidth && |parts| >= 2 && !IsPart(parts[0], RepresentationId, v)
    requires WellFormed(head, parts, v) && WellFormed(parts[0].after, parts[1..], v)
    requires IsOf(One(RepresentationId), parts[0].after, v) && 'R' in v.id + Flat(parts[1..])[0]
    ensures Trace(Joined(PassPieces(head, Flat(parts), One(RepresentationId), v)), e)
            != Trace(Filled(head, parts, v), e)
  {
    hide Trace, PassValue, PassPieces, Joined, Filled, IsOf;
    var p, after, flat := RepresentationId, parts[0].after, Flat(parts[1..]);
    PassOnText(head, parts, p, v);
    FlatSteps(parts);
    OtherFilled(head, parts, v, e);
    var cur := if parts[0].Part? then parts[0].name else head;
    var tail := PassPieces(cur, [after] + flat, One(p), v);
    IdTaken(cur, after, flat, v);
    if parts[0].Part? {
      assert Flat(parts) == [cur] + ([after] + flat);
      PassLeaves(head, cur, [after] + flat, One(p), v);
      Behind([head], tail);
      FilledShowsR(after, parts[1..], v, e);
      JoinedTrace(head, tail, e);
      PiecesShowR(cur, v.id + flat[0], tail, !e);
      NextApart(Trace(head, e), Trace(Joined([head] + tail), e), Trace(Filled(after, parts[1..], v), e), !e);
    } else {
      FilledShowsR(after, parts[1..], v, !e);
      PiecesShowR(cur, v.id + flat[0], tail, e);
      NextApart(Trace(head, e), Trace(Joined(tail), e), Trace(Filled(after, parts[1..], v), !e), e);
    }
  }

  lemma IdTaken(cur: string, after: string, flat: seq<string>, v: Values)
    requires IsOf(One(RepresentationId), after, v) && flat != []
    ensures after == "RepresentationID"
    ensures cur + (v.id + flat[0]) <= PassPieces(cur, [after] + flat, One(RepresentationId), v)[0]
  {
    assert [after, flat[0]] + flat[1..] == [after] + flat;
    PassTakes(cur, after, flat[0], flat[1..], One(RepresentationId), v);
    FirstGrows(cur + v.id + flat[0], flat[1..], One(RepresentationId), v);
    assert cur + v.id + flat[0] == cur + (v.id + flat[0]);
  }

  /** The first R of the text comes before its first dollar. */
  lemma FilledShowsR(after: string, parts: seq<Part>, v: Values, e: bool)
    requires WellFormed(after, parts, v) && after == "RepresentationID"
    ensures [e] <= Trace(Filled(after, parts, v), e)
  {
    var f := Filled(after, parts, v);
    assert after <= f;
    assert f == after + f[|after|..];
    assert after[0] == 'R';
    hide Trace, Filled;
    SomeTrace(after, e);
    TraceBoth(after, f[|after|..], e);
  }

  lemma PiecesShowR(cur: string, x: string, out: seq<string>, e: bool)
    requires out != [] && NoDollars(out) && cur + x <= out[0] && 'R' in x
    ensures Trace(cur, e) + [e] <= Trace(Joined(out), e)
  {
    var first := out[0];
    assert NoDollar(first);
    var more := first[|cur|..];
    assert first == cur + more && x <= more;
    hide Trace, Join;
    JoinTrace(first, out[1..], e);
    TraceBoth(cur, more, e);
    SomeTrace(more, e);
  }

  lemma NextApart(a: seq<bool>, f: seq<bool>, u: seq<bool>, e: bool)
    requires a + [e] <= f && [!e] <= u
    ensures f != a + u
  {
    assert f[|a|] == (a + [e])[|a|] == e && (a + u)[|a|] == !e;
  }

  /** The first pass that is misled, if there is one. */
  lemma {:induction false} FirstMisled(head: string, parts: seq<Part>, v: Values, n: nat) returns (k: nat)
    requires n <= |ORDER|
    ensures k <= n && forall j :: 0 <= j < k ==> NoneSpelt(FillPasses(head, parts, v, j).1, ORDER[j], v)
    ensures k < n ==> !NoneSpelt(FillPasses(head, parts, v, k).1, ORDER[k], v)
  {
    hide NoneSpelt, FillPasses;
    if n == 0 { return 0; }
    k := FirstMisled(head, parts, v, n - 1);
    if k == n - 1 && NoneSpelt(FillPasses(head, parts, v, k).1, ORDER[k], v) { k := n; }
  }

  lemma NotFirm(x: string)
    requires !Firm(x)
    ensures !HasCapital(x) && 'R' !in x
  {
    assert forall j :: 0 <= j < |x| && x[j] == 'R' ==> Capital(x[j]);
  }

  /** Where the value leaves no mark, and all comes to the same, an identifier of the pass comes next. */
  lemma AloneIsDoubled(head: string, parts: seq<Part>, v: Values, k: nat)
    requires k < |ORDER| && PlainValues(v) && WellFormed(head, parts, v) && LeftFrom(parts, v, k)
    requires Misled(parts, ORDER[k], v) && FirmFrom(v, k + 1) && !FirmFrom(v, k)
    requires Onward(Text(head, parts), v, k) == Filled(head, parts, v)
    ensures Doubled(parts, ORDER[k], v)
  {
    hide Firm, HasCapital, Scales, Onward, Filled, WellFormed, LeftFrom, Misled, Doubled, Taken, Own;
    NotFirm(if k == 0 then v.id else v.bandwidth);
    var w := FindScales(v, k);
    AsManyTaken(head, parts, v, k, w);
    TakesMost(parts, ORDER[k], v);
  }

  /** A first pass that is misled shows, if the bandwidth leaves no mark. */
  lemma TraceTells(head: string, parts: seq<Part>, v: Values)
    requires PlainValues(v) && WellFormed(head, parts, v) && LeftFrom(parts, v, 0)
    requires !Firm(v.bandwidth) && Misled(parts, ORDER[0], v)
    ensures Onward(Text(head, parts), v, 0) != Filled(head, parts, v)
  {
    hide Firm, HasCapital, Filled, WellFormed, LeftFrom, Misled, Doubled, Taken, Own, Trace, Replaced, PassPieces;
    FirstPasses();
    NotFirm(v.bandwidth);
    if Onward(Text(head, parts), v, 0) == Filled(head, parts, v) {
      if 'R' !in v.id {
        PlainScales(v);
        AsManyTaken(head, parts, v, 0, Weights('R', 2, 0, 0));
        TakesMost(parts, ORDER[0], v);
      }
      TraceApart(head, parts, v, true);
      PassOnText(head, parts, ORDER[0], v);
      OnwardTrace(Replaced(Text(head, parts), One(ORDER[0]), v), v, 1, true);
    }
  }

  lemma PlainScales(v: Values)
    requires 'R' !in v.id && 'R' !in v.bandwidth
    ensures Scales(Weights('R', 2, 0, 0), v, 0)
  {
    WeighsNothing(v.id, Weights('R', 2, 0, 0));
    WeighsNothing(v.bandwidth, Weights('R', 2, 0, 0));
  }

  /** If a pass is misled the passes come to something else than the template filled in. */
  lemma MisledDiffers(head: string, parts: seq<Part>, v: Values, k: nat)
    requires k < |ORDER| && PlainValues(v) && WellFormed(head, parts, v) && LeftFrom(parts, v, k)
    requires !NoneSpelt(parts, ORDER[k], v)
    ensures Onward(Text(head, parts), v, k) != Filled(head, parts, v)
  {
    hide WellFormed, Filled, Replaced, NoneSpelt, LeftFrom, Misled, Doubled, HasCapital;
    SpeltIsMisled(parts, ORDER[k], v);
    if Onward(Text(head, parts), v, k) == Filled(head, parts, v) {
      if k == 0 && !Firm(v.bandwidth) {
        TraceTells(head, parts, v);
      } else {
        if !FirmFrom(v, k) { AloneIsDoubled(head, parts, v, k); }
        MarkStays(head, parts, v, k);
      }
    }
  }

  // --- the passes against one replacement ------------------------------------------------------------

  lemma {:induction false} NothingToFill(head: string, parts: seq<Part>, v: Values)
    requires WellFormed(head, parts, v) && forall i :: 0 <= i < |parts| ==> parts[i].Bare?
    ensures Filled(head, parts, v) == Text(head, parts)
    decreases |parts|
  {
    if parts != [] {
      assert WellFormed(parts[0].after, parts[1..], v);
      FlatSteps(parts);
      NothingToFill(parts[0].after, parts[1..], v);
    }
  }

  /** The result for a template that has been scanned. */
  lemma FillIsSimultaneousOnParts(head: string, parts: seq<Part>, v: Values)
    requires WellFormed(head, parts, v) && Scanned(parts, v) && PlainValues(v)
    ensures Fill(Text(head, parts), v) == Simultaneous(Text(head, parts), v) <==> Clear(head, parts, v)
  {
    hide WellFormed, Filled, Replaced, NoneSpelt, FillPasses, FillPass, IsOf, Scanned, LeftFrom;
    SimultaneousFills(head, parts, v);
    var k := FirstMisled(head, parts, v, |ORDER|);
    CleanPasses(head, parts, v, k);
    var (h, ps) := FillPasses(head, parts, v, k);
    if k == |ORDER| {
      NothingLeft(ps, h, v);
      NothingToFill(h, ps, v);
    } else {
      DoneIsLeft(h, ps, v, k);
      MisledDiffers(h, ps, v, k);
      FillGoesOn(Text(head, parts), v, k);
    }
  }

  /** No pass takes anything of the text that a scan from left to right does not take. */
  predicate NoneMisled(s: string, v: Values) {
    Clear(Pieces(s)[0], Scan(Pieces(s)[1..], v), v)
  }

  /**
   For any text whatever the passes do what one simultaneous replacement does exactly
   when none of them takes a piece that the scan from left to right does not.
   */
  lemma FillIsSimultaneous(s: string, v: Values)
    requires PlainValues(v)
    ensures Fill(s, v) == Simultaneous(s, v) <==> NoneMisled(s, v)
  {
    hide Replaced, Scan, IsOf;
    var pieces := Pieces(s);
    ScanKeepsText(pieces[0], pieces[1..], v);
    FillIsSimultaneousOnParts(pieces[0], Scan(pieces[1..], v), v);
  }

  // --- templates that are safe, and some that are not ------------------------------------------------

  /** Characters no identifier contains: slash, dash, dot, underscore and all but letters, digits and %. */
  predicate Separator(c: char) {
    !('a' <= c <= 'z') && !('A' <= c <= 'Z') && !IsDigit(c) && c != '%'
  }

  predicate Separates(s: string) { exists j :: 0 <= j < |s| && Separator(s[j]) }

  predicate AllSeparate(parts: seq<Part>) {
    forall i :: 0 <= i < |parts| - 1 ==> Separates(parts[i].after)
  }

  lemma {:induction false} SeparatorSpellsNothing(r: Rule, name: string, v: Values)
    requires Separates(name)
    ensures !IsOf(r, name, v)
  {
    if HasWidth("Number", name) { WidthIsPlain("Number", name); }
    if HasWidth("Time", name) { WidthIsPlain("Time", name); }
  }

  lemma WidthIsPlain(token: string, name: string)
    requires HasWidth(token, name) && !Separates(token)
    ensures !Separates(name)
  {
    var n := |token| + 2;
    var digits := name[n..|name| - 1];
    assert name == (token + "%0") + digits + "d";
    forall j | 0 <= j < |name| ensures !Separator(name[j]) {
      assert name[j] == if j < |token| then token[j] else if j < n then "%0"[j - |token|]
                        else if j < |name| - 1 then digits[j - n] else 'd';
    }
  }

  lemma {:induction false} StaySeparate(head: string, parts: seq<Part>, p: Pass, v: Values)
    requires AllSeparate(parts)
    ensures AllSeparate(FillPass(head, parts, p, v).1)
    ensures |FillPass(head, parts, p, v).1| <= |parts|
    ensures Separates(head) ==> Separates(FillPass(head, parts, p, v).0)
    decreases |parts|
  {
    hide PassValue, Separates;
    if parts != [] {
      var after, rest := parts[0].after, parts[1..];
      if IsPart(parts[0], p, v) {
        var value := PassValue(p, parts[0].name, v).value;
        if Separates(head) { SeparatesMore(head, value + after); }
        assert head + (value + after) == head + value + after;
        StaySeparate(head + value + after, rest, p, v);
      } else {
        StaySeparate(after, rest, p, v);
        var (h, ps) := FillPass(after, rest, p, v);
        var out := [parts[0].(after := h)] + ps;
        assert forall i :: 1 <= i < |out| ==> out[i] == ps[i - 1];
      }
    }
  }

  lemma SeparatesMore(a: string, b: string)
    requires Separates(a)
    ensures Separates(a + b)
  {
    var j :| 0 <= j < |a| && Separator(a[j]);
    assert (a + b)[j] == a[j];
  }

  lemma {:induction false} SeparateAfterPasses(head: string, parts: seq<Part>, v: Values, k: nat)
    requires k <= |ORDER| && AllSeparate(parts)
    ensures AllSeparate(FillPasses(head, parts, v, k).1)
  {
    if k > 0 {
      SeparateAfterPasses(head, parts, v, k - 1);
      var (h, ps) := FillPasses(head, parts, v, k - 1);
      StaySeparate(h, ps, ORDER[k - 1], v);
    }
  }

  /** With a separator in every text that stands between two dollars, no pass is misled. */
  lemma SeparatedIsClear(head: string, parts: seq<Part>, v: Values)
    requires AllSeparate(parts)
    ensures Clear(head, parts, v)
  {
    hide IsOf;
    forall k | 0 <= k < |ORDER| ensures NoneSpelt(FillPasses(head, parts, v, k).1, ORDER[k], v) {
      SeparateAfterPasses(head, parts, v, k);
      var ps := FillPasses(head, parts, v, k).1;
      forall i | 0 <= i < |ps| - 1 ensures !IsOf(One(ORDER[k]), ps[i].after, v) {
        SeparatorSpellsNothing(One(ORDER[k]), ps[i].after, v);
      }
    }
  }

  /** Between two dollars there is an identifier or text with a separator, and no two identifiers share a dollar. */
  predicate Separated(rest: seq<string>, v: Values) {
    && (forall i :: 0 <= i < |rest| - 1 ==> IsOf(All, rest[i], v) || Separates(rest[i]))
    && (forall i :: 0 <= i < |rest| - 2 && IsOf(All, rest[i], v) ==> Separates(rest[i + 1]))
  }

  lemma {:induction false} ScanSeparates(rest: seq<string>, v: Values)
    requires Separated(rest, v)
    ensures AllSeparate(Scan(rest, v))
    decreases |rest|
  {
    hide IsOf, Separates;
    if rest != [] {
      var parts := Scan(rest, v);
      if |rest| >= 2 && IsOf(All, rest[0], v) {
        assert forall i :: 0 <= i < |rest[2..]| ==> rest[2..][i] == rest[i + 2];
        ScanSeparates(rest[2..], v);
        assert |rest| == 2 ==> parts[1..] == [];
      } else {
        assert forall i :: 0 <= i < |rest[1..]| ==> rest[1..][i] == rest[i + 1];
        ScanSeparates(rest[1..], v);
        assert |rest| == 1 ==> parts[1..] == [];
      }
      assert forall i :: 0 < i < |parts| ==> parts[i] == parts[1..][i - 1];
    }
  }

  /**
   With a slash, a dash or the like in all other text between two dollars, and no two
   identifiers with a dollar in common, filling in is one simultaneous replacement.
   */
  lemma SeparatedTemplatesFill(s: string, v: Values)
    requires PlainValues(v) && Separated(Pieces(s)[1..], v)
    ensures Fill(s, v) == Simultaneous(s, v)
  {
    hide Replaced, Scan, IsOf, Separated;
    ScanSeparates(Pieces(s)[1..], v);
    SeparatedIsClear(Pieces(s)[0], Scan(Pieces(s)[1..], v), v);
    FillIsSimultaneous(s, v);
  }

  /** $Time$Number$Time$: the word between the two times is taken for an identifier. */
  lemma {:induction false} WordBetweenIdentifiers(v: Values)
    requires PlainValues(v) && v.number >= 0 && v.time >= 0
    ensures var parts := [Part("Time", "Number"), Part("Time", "")];
            && Text("", parts) == "$" + "Time" + "$" + "Number" + "$" + "Time" + "$"
            && Fill(Text("", parts), v) != Simultaneous(Text("", parts), v)
  {
    var parts := [Part("Time", "Number"), Part("Time", "")];
    assert parts[1..] == [Part("Time", "")] && parts[1..][1..] == [];
    TimeText(parts);
    Untouched(parts, RepresentationId, v);
    Untouched(parts, Bandwidth, v);
    assert FillPasses("", parts, v, 2).1 == parts by {
      assert FillPasses("", parts, v, 0) == ("", parts);
      assert FillPasses("", parts, v, 1) == ("", parts);
    }
    assert !NoneSpelt(parts, ORDER[2], v) by {
      assert !IsPart(parts[0], Number, v) && IsOf(One(Number), parts[0].after, v);
    }
    FillIsSimultaneousOnParts("", parts, v);
  }

  lemma TimeText(parts: seq<Part>)
    requires parts == [Part("Time", "Number"), Part("Time", "")]
    ensures Text("", parts) == "$" + "Time" + "$" + "Number" + "$" + "Time" + "$" + ""
  {
    assert parts[1..] == [parts[1]] && parts[1..][1..] == [];
    assert Flat(parts) == [parts[0].name, parts[0].after, parts[1].name, parts[1].after];
    JoinFour(parts[0].name, parts[0].after, parts[1].name, parts[1].after);
  }

  lemma JoinFour(a: string, b: string, c: string, d: string)
    ensures Join("", [a, b, c, d]) == "$" + a + "$" + b + "$" + c + "$" + d
  {
    var four := [a, b, c, d];
    assert four[1..] == [b, c, d] && [b, c, d][1..] == [c, d] && [c, d][1..] == [d] && [d][1..] == [];
    assert Join(d, []) == d;
    assert Join(c, [d]) == c + "$" + d;
    assert Join(b, [c, d]) == b + "$" + Join(c, [d]);
    assert Join(a, [b, c, d]) == a + "$" + Join(b, [c, d]);
  }

  lemma {:induction false} Untouched(parts: seq<Part>, p: Pass, v: Values)
    requires NoneOf(parts, p, v)
    ensures forall head :: FillPass(head, parts, p, v) == (head, parts)
    decreases |parts|
  {
    if parts != [] {
      Untouched(parts[1..], p, v);
      assert [parts[0]] + parts[1..] == parts;
    }
  }

  lemma {:induction false} OneDollarStays(a: string, b: string, v: Values, s: string, k: nat, n: nat)
    requires 0 < k <= n <= |ORDER| && NoDollar(a) && NoDollar(b) && PlainValues(v)
    requires Passes(s, v, k) == a + "$" + b
    ensures Passes(s, v, n) == a + "$" + b
  {
    hide Replaced;
    if k < n {
      OneDollarStays(a, b, v, s, k, n - 1);
      assert [b][1..] == [];
      assert Join(a, [b]) == a + "$" + b;
      PassOnPieces(a, [b], One(ORDER[n - 1]), v);
      assert PassPieces(a, [b], One(ORDER[n - 1]), v) == [a, b];
      assert [a, b][1..] == [b];
    }
  }

  /**
   $Bandwidth$RepresentationID$ has no two dollars in a row, but one that two
   identifiers would have to share: the passes take the second, a replacement from
   left to right takes the first.
   */
  lemma SharedDollar(v: Values)
    requires PlainValues(v)
    ensures var s := "$" + "Bandwidth" + "$" + "RepresentationID" + "$";
            Fill(s, v) == "$Bandwidth" + v.id && Simultaneous(s, v) == v.bandwidth + "RepresentationID$"
  {
    SharedText();
    SharedFill(SHARED, v);
    SharedAtOnce(v);
  }

  const SHARED: seq<string> := ["Bandwidth", "RepresentationID", ""]

  lemma SharedText()
    ensures Join("", SHARED) == "$" + "Bandwidth" + "$" + "RepresentationID" + "$" && NoDollars(SHARED)
  {
    JoinThree("Bandwidth", "RepresentationID", "");
  }

  lemma JoinThree(a: string, b: string, c: string)
    ensures Join("", [a, b, c]) == "$" + a + "$" + b + "$" + c
  {
    var three := [a, b, c];
    assert three[1..] == [b, c] && [b, c][1..] == [c] && [c][1..] == [];
    assert Join(c, []) == c;
    assert Join(b, [c]) == b + "$" + c;
    assert Join(a, [b, c]) == a + "$" + Join(b, [c]);
  }

  lemma SharedFill(rest: seq<string>, v: Values)
    requires PlainValues(v) && rest == SHARED
    ensures Fill(Join("", rest), v) == "$Bandwidth" + v.id
  {
    SharedText();
    hide Replaced, Join;
    var s, left := Join("", rest), "Bandwidth" + v.id;
    FirstPass(v, rest);
    PassOnPieces("", rest, One(RepresentationId), v);
    TwoPieces("", left);
    assert Passes(s, v, 0) == s;
    OneDollarStays("", left, v, s, 1, |ORDER|);
    assert "" + "$" + left == "$Bandwidth" + v.id;
  }

  lemma SharedAtOnce(v: Values)
    requires PlainValues(v)
    ensures Simultaneous(Join("", SHARED), v) == v.bandwidth + "RepresentationID$"
  {
    SharedText();
    hide Replaced, Join;
    FirstPass(v, SHARED);
    PassOnPieces("", SHARED, All, v);
    TwoPieces(v.bandwidth + "RepresentationID", "");
    assert v.bandwidth + "RepresentationID" + "$" + "" == v.bandwidth + "RepresentationID$";
  }

  lemma TwoPieces(a: string, b: string)
    ensures Joined([a, b]) == a + "$" + b
  {
    assert [a, b][1..] == [b] && [b][1..] == [];
    assert Join(b, []) == b;
  }

  lemma FirstPass(v: Values, rest: seq<string>)
    requires rest == ["Bandwidth", "RepresentationID", ""]
    ensures PassPieces("", rest, One(RepresentationId), v) == ["", "Bandwidth" + v.id]
    ensures PassPieces("", rest, All, v) == [v.bandwidth + "RepresentationID", ""]
  {
    var two := ["RepresentationID", ""];
    assert rest[1..] == two && rest[2..] == [""] && two[1..] == [""] && two[2..] == [] && [""][1..] == [];
    assert PassPieces("Bandwidth", two, One(RepresentationId), v) == ["Bandwidth" + v.id + ""];
    assert "Bandwidth" + v.id + "" == "Bandwidth" + v.id;
    var x := "" + v.bandwidth + "RepresentationID";
    assert x == v.bandwidth + "RepresentationID";
    assert PassPieces("", [], All, v) == [""];
    assert PassPieces(x, [""], All, v) == [x, ""];
  }

  /**
   A value with dollars may spell an identifier of a later pass, which is then filled in
   as well; one replacement leaves it.
   */
  lemma DollarInValue(v: Values)
    requires v.id == "$" + ("Bandwidth" + "$" + "") && NoDollar(v.bandwidth)
    ensures var s := "$" + ("RepresentationID" + "$" + "");
            Fill(s, v) == v.bandwidth && Simultaneous(s, v) == v.id
  {
    var s := "$" + ("RepresentationID" + "$" + "");
    FirstPasses();
    OneName("RepresentationID", One(RepresentationId), v);
    OneName("RepresentationID", All, v);
    OneName("Bandwidth", One(Bandwidth), v);
    hide Replaced, ORDER;
    assert Passes(s, v, 0) == s;
    assert Passes(s, v, 1) == v.id;
    assert Passes(s, v, 2) == v.bandwidth;
    TextStays(v.bandwidth, v, s, |ORDER|);
  }

  lemma OneName(name: string, r: Rule, v: Values)
    requires NoDollar(name) && IsOf(r, name, v)
    ensures Replaced("$" + (name + "$" + ""), r, v) == Value(r, name, v).value
  {
    FromName(name, "", r, v);
    assert Value(r, name, v).value + "" == Value(r, name, v).value;
  }

  lemma {:induction false} TextStays(t: string, v: Values, s: string, n: nat)
    requires NoDollar(t) && 2 <= n <= |ORDER| && Passes(s, v, 2) == t
    ensures Passes(s, v, n) == t
  {
    if n > 2 {
      TextStays(t, v, s, n - 1);
      SkipsText(t, "", One(ORDER[n - 1]), v);
      assert t + "" == t;
    }
  }
}
