/**
 Which paths of a remote listing are written at all, and where they lead: only to
 places below the directory they are joined to.
 */
module WebrootPaths {

  const PATH_MAX: nat := 200

  predicate PlainChar(c: char) {
    'a' <= c <= 'z' || 'A' <= c <= 'Z' || '0' <= c <= '9' || c == '.' || c == '-' || c == '_'
  }

  /** Neither empty nor ".", ".." or a dotfile, and of plain characters. */
  predicate PlainName(part: string) {
    part != "" && part[0] != '.' && forall i :: 0 <= i < |part| ==> PlainChar(part[i])
  }

  /** The first slash at or after `i`. */
  function NextSlash(s: string, i: nat): (j: nat)
    requires i <= |s|
    ensures i <= j <= |s|
    ensures forall k :: i <= k < j ==> s[k] != '/'
    ensures j < |s| ==> s[j] == '/'
    decreases |s| - i
  {
    if i == |s| || s[i] == '/' then i else NextSlash(s, i + 1)
  }

  /** The parts of `s` from place `i` on. */
  function PartsFrom(s: string, i: nat): seq<string>
    requires i <= |s|
    decreases |s| - i
  {
    var j := NextSlash(s, i);
    if j == |s| then [s[i..]] else [s[i..j]] + PartsFrom(s, j + 1)
  }

  function Parts(s: string): seq<string> { PartsFrom(s, 0) }

  /** Where a path leads from a directory, given as its parts from the root: "." stays, ".." goes up. */
  function Resolve(dir: seq<string>, parts: seq<string>): seq<string>
    decreases |parts|
  {
    if parts == [] then dir
    else if parts[0] == "" || parts[0] == "." then Resolve(dir, parts[1..])
    else if parts[0] == ".." then Resolve(if dir == [] then [] else dir[..|dir| - 1], parts[1..])
    else Resolve(dir + [parts[0]], parts[1..])
  }

  predicate AllPlain(parts: seq<string>) { forall i :: 0 <= i < |parts| ==> PlainName(parts[i]) }

  /** What the check comes to: not too long, and every part a plain name. */
  predicate SafeRelative(rel: string) {
    |rel| <= PATH_MAX && AllPlain(Parts(rel))
  }

  lemma PartIsNothingSpecial(part: string)
    requires PlainName(part)
    ensures part != "" && part != "." && part != ".."
  {
  }

  /** Plain parts lead down, part by part. */
  lemma {:induction false} PlainLeadsDown(dir: seq<string>, parts: seq<string>)
    requires AllPlain(parts)
    ensures Resolve(dir, parts) == dir + parts
    decreases |parts|
  {
    if parts != [] {
      PartIsNothingSpecial(parts[0]);
      PlainLeadsDown(dir + [parts[0]], parts[1..]);
      assert dir + [parts[0]] + parts[1..] == dir + parts by { assert parts == [parts[0]] + parts[1..]; }
    } else {
      assert dir + parts == dir;
    }
  }

  /** Every listed file, and the temporary file beside it, is written strictly below the directory. */
  lemma WritesStayInside(dir: seq<string>, rel: string)
    requires SafeRelative(rel)
    ensures Resolve(dir, Parts(rel)) == dir + Parts(rel) && |Parts(rel)| > 0
    ensures Resolve(dir, Parts(rel + ".part")) == dir + Parts(rel + ".part") && |Parts(rel + ".part")| > 0
  {
    PlainLeadsDown(dir, Parts(rel));
    assert forall k :: 0 <= k < |".part"| ==> PlainChar(".part"[k]);
    PartPlain(rel, ".part", 0);
    PlainLeadsDown(dir, Parts(rel + ".part"));
  }

  lemma PlainPart(name: string, tail: string)
    requires PlainName(name) && forall k :: 0 <= k < |tail| ==> PlainChar(tail[k])
    ensures PlainName(name + tail) && '/' !in name + tail
  {
    var long := name + tail;
    assert forall k :: 0 <= k < |long| ==> long[k] == if k < |name| then name[k] else tail[k - |name|];
  }

  /** Plain characters at the end leave every part a plain name. */
  lemma {:induction false} PartPlain(rel: string, tail: string, i: nat)
    requires i <= |rel| && AllPlain(PartsFrom(rel, i))
    requires forall k :: 0 <= k < |tail| ==> PlainChar(tail[k])
    ensures AllPlain(PartsFrom(rel + tail, i)) && |PartsFrom(rel + tail, i)| > 0
    decreases |rel| - i
  {
    var long := rel + tail;
    var j := NextSlash(rel, i);
    PartsSplit(rel, i);
    hide AllPlain, PlainName;
    if j == |rel| {
      assert long[i..] == rel[i..j] + tail && long[i..|long|] == long[i..];
      PlainPart(rel[i..j], tail);
      SlashAt(long, i, |long|);
    } else {
      assert long[i..j] == rel[i..j];
      SlashAt(long, i, j);
      PartPlain(rel, tail, j + 1);
    }
    PartsSplit(long, i);
  }

  lemma {:induction false} SlashAt(s: string, i: nat, j: nat)
    requires i <= j <= |s| && '/' !in s[i..j] && (j < |s| ==> s[j] == '/')
    ensures NextSlash(s, i) == j
    decreases j - i
  {
    if i < j {
      assert s[i] == s[i..j][0] && s[i + 1..j] == s[i..j][1..];
      SlashAt(s, i + 1, j);
    }
  }

  // --- the check as it is made ---------------------------------------------------------

  method FindSlash(s: string, from: nat) returns (j: nat)
    requires from <= |s|
    ensures j == NextSlash(s, from)
  {
    j := from;
    while j < |s| && s[j] != '/'
      invariant from <= j <= |s| && NextSlash(s, from) == NextSlash(s, j)
    {
      j := j + 1;
    }
  }

  method IsPlainName(part: string) returns (ok: bool)
    ensures ok == PlainName(part)
  {
    if part == "" || part[0] == '.' { return false; }
    for i := 0 to |part|
      invariant forall k :: 0 <= k < i ==> PlainChar(part[k])
    {
      if !PlainChar(part[i]) { return false; }
    }
    return true;
  }

  /** The early tests refuse nothing that the test of the parts would let through. */
  method IsSafeRelative(rel: string) returns (ok: bool)
    ensures ok == SafeRelative(rel)
  {
    if rel == "" || |rel| > PATH_MAX {
      assert rel == "" ==> PartsFrom(rel, 0) == [""] && !PlainName(PartsFrom(rel, 0)[0]);
      return false;
    }
    if AllPlain(Parts(rel)) { PlainEverywhere(rel, 0); }
    if rel[0] == '/' || rel[0] == '.' { return false; }
    if '\\' in rel { return false; }
    var twoSlashes := HasTwoSlashes(rel);
    if twoSlashes { return false; }
    if rel[|rel| - 1] == '/' { return false; }
    var start := 0;
    while true
      invariant start <= |rel|
      invariant AllPlain(Parts(rel)) == AllPlain(PartsFrom(rel, start))
      decreases |rel| - start
    {
      var end := FindSlash(rel, start);
      var part := rel[start..end];
      PartsSplit(rel, start);
      var plain := IsPlainName(part);
      if !plain { return false; }
      if end == |rel| { return true; }
      start := end + 1;
    }
  }

  method HasTwoSlashes(s: string) returns (found: bool)
    ensures found <==> exists k :: 0 <= k < |s| - 1 && s[k] == '/' && s[k + 1] == '/'
  {
    if |s| > 0 {
      for k := 0 to |s| - 1
        invariant forall m :: 0 <= m < k ==> !(s[m] == '/' && s[m + 1] == '/')
      {
        if s[k] == '/' && s[k + 1] == '/' { return true; }
      }
    }
    return false;
  }

  /** What plain parts say of the characters of the path. */
  lemma {:induction false} PlainEverywhere(s: string, i: nat)
    requires i <= |s| && AllPlain(PartsFrom(s, i))
    ensures i < |s| && s[i] != '/' && s[i] != '.'
    ensures forall k :: i <= k < |s| ==> s[k] == '/' || PlainChar(s[k])
    ensures forall k :: i <= k < |s| && s[k] == '/' ==> k + 1 < |s| && s[k + 1] != '/' && s[k + 1] != '.'
    decreases |s| - i
  {
    var j := NextSlash(s, i);
    PartsSplit(s, i);
    var part := s[i..j];
    assert part[0] == s[i];
    assert forall k :: i <= k < j ==> s[k] == part[k - i];
    if j < |s| { PlainEverywhere(s, j + 1); }
  }

  lemma PartsSplit(rel: string, start: nat)
    requires start <= |rel|
    ensures var j := NextSlash(rel, start);
            AllPlain(PartsFrom(rel, start))
            <==> PlainName(rel[start..j]) && (j == |rel| || AllPlain(PartsFrom(rel, j + 1)))
  {
    var j := NextSlash(rel, start);
    if j == |rel| {
      assert rel[start..] == rel[start..j];
      assert PartsFrom(rel, start) == [rel[start..j]] && PartsFrom(rel, start)[0] == rel[start..j];
    } else {
      var more := PartsFrom(rel, j + 1);
      var all := PartsFrom(rel, start);
      assert all == [rel[start..j]] + more;
      assert all[0] == rel[start..j];
      assert forall i :: 0 <= i < |more| ==> more[i] == all[i + 1];
    }
  }
}
