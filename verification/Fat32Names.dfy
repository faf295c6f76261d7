/** 8.3 names. */
module Fat32Names {
  import opened Basics
  import opened Fat32Layout

  const SPACE: byte := 0x20
  const DOT: byte := 0x2e
  const SLASH: byte := 0x2f

  /** ASCII upper case; other bytes are left alone. */
  function Upper(c: byte): byte {
    if 0x61 <= c <= 0x7a then c - 0x20 else c
  }

  function UpperAll(s: seq<byte>): (r: seq<byte>)
    ensures |r| == |s|
  {
    seq(|s|, i requires 0 <= i < |s| => Upper(s[i]))
  }

  /** Control bytes, the space and the punctuation an 8.3 name may not hold. */
  predicate Refused(c: byte) {
    c <= SPACE || c == 0x22 || c == 0x2a || c == 0x2b || c == 0x2c || c == 0x3a || c == 0x3b || c == 0x3c
    || c == 0x3d || c == 0x3e || c == 0x3f || c == 0x5b || c == 0x5c || c == 0x5d || c == 0x7c
  }

  /** A byte that may stand in an 8.3 name. */
  predicate Good(c: byte) {
    c != SLASH && c != DOT && !Refused(c)
  }

  predicate AllGood(s: seq<byte>) {
    forall i :: 0 <= i < |s| ==> Good(s[i])
  }

  /** The name without a leading slash. */
  function Strip(name: seq<byte>): seq<byte> {
    if |name| > 0 && name[0] == SLASH then name[1..] else name
  }

  /** The position of the first dot from `k` on, or the length. */
  function DotFrom(s: seq<byte>, k: nat): (d: nat)
    requires k <= |s|
    ensures k <= d <= |s| && (forall i :: k <= i < d ==> s[i] != DOT) && (d < |s| ==> s[d] == DOT)
    decreases |s| - k
  {
    if k == |s| || s[k] == DOT then k else DotFrom(s, k + 1)
  }

  function Pad(s: seq<byte>, n: nat): (r: seq<byte>)
    requires |s| <= n
    ensures |r| == n
  {
    s + seq(n - |s|, _ => SPACE)
  }

  function Ext(s: seq<byte>): seq<byte> {
    var d := DotFrom(s, 0);
    if d < |s| then s[d + 1..] else []
  }

  /** A base of one to eight good bytes, alone or with a dot and an extension of one to three. */
  predicate IsShort(s: seq<byte>) {
    var d := DotFrom(s, 0);
    && 1 <= d <= 8 && AllGood(s[..d])
    && (d < |s| ==> 1 <= |s| - d - 1 <= 3 && AllGood(s[d + 1..]))
  }

  /** The name as it stands in a directory entry. */
  function ShortName(name: seq<byte>): (r: Option<seq<byte>>)
    ensures r.Some? ==> |r.value| == 11
  {
    var s := Strip(name);
    if IsShort(s) then Some(Pad(UpperAll(s[..DotFrom(s, 0)]), 8) + Pad(UpperAll(Ext(s)), 3)) else None
  }

  // ----- Two names are one entry just when they differ in case only

  predicate NoSpace(s: seq<byte>) {
    forall i :: 0 <= i < |s| ==> s[i] != SPACE
  }

  lemma PadInjective(a: seq<byte>, b: seq<byte>, n: nat)
    requires |a| <= n && |b| <= n && Pad(a, n) == Pad(b, n)
    requires NoSpace(a) && NoSpace(b)
    ensures a == b
  {
    assert |a| < n ==> Pad(a, n)[|a|] == SPACE;
    assert |b| < n ==> Pad(b, n)[|b|] == SPACE;
    assert forall i :: 0 <= i < |a| ==> Pad(a, n)[i] == a[i];
    assert forall i :: 0 <= i < |b| ==> Pad(b, n)[i] == b[i];
    assert |a| == |b|;
    assert a == Pad(a, n)[..|a|] && b == Pad(b, n)[..|b|];
  }

  lemma UpperKeeps(c: byte)
    ensures (Upper(c) == DOT <==> c == DOT) && (Upper(c) == SLASH <==> c == SLASH)
    ensures Refused(Upper(c)) <==> Refused(c)
    ensures Good(c) ==> Upper(c) != SPACE
  {
  }

  lemma GoodParts(s: seq<byte>)
    requires IsShort(s)
    ensures NoSpace(UpperAll(s[..DotFrom(s, 0)])) && NoSpace(UpperAll(Ext(s)))
  {
  }

  /** Upper-casing keeps the dot where it is. */
  lemma UpperParts(a: seq<byte>, b: seq<byte>)
    requires UpperAll(a) == UpperAll(b)
    ensures DotFrom(a, 0) == DotFrom(b, 0)
    ensures UpperAll(a[..DotFrom(a, 0)]) == UpperAll(b[..DotFrom(b, 0)]) && UpperAll(Ext(a)) == UpperAll(Ext(b))
  {
    assert |a| == |UpperAll(a)| == |b|;
    forall i | 0 <= i < |a|
      ensures Upper(a[i]) == Upper(b[i]) && (a[i] == DOT <==> b[i] == DOT)
    {
      assert UpperAll(a)[i] == UpperAll(b)[i];
      UpperKeeps(a[i]);
      UpperKeeps(b[i]);
    }
  }

  lemma UpperConcat(a: seq<byte>, b: seq<byte>)
    ensures UpperAll(a + b) == UpperAll(a) + UpperAll(b)
  {
  }

  lemma UpperDot()
    ensures UpperAll([DOT]) == [DOT]
  {
  }

  lemma DotSplit(s: seq<byte>, d: nat)
    requires d < |s| && s[d] == DOT
    ensures s == s[..d] + ([DOT] + s[d + 1..])
  {
  }

  lemma JoinParts(s: seq<byte>, d: nat)
    requires d == DotFrom(s, 0)
    ensures d < |s| ==> UpperAll(s) == UpperAll(s[..d]) + ([DOT] + UpperAll(Ext(s)))
    ensures d == |s| ==> s[..d] == s
  {
    hide UpperAll, DotFrom;
    if d < |s| {
      DotSplit(s, d);
      UpperConcat(s[..d], [DOT] + Ext(s));
      UpperConcat([DOT], Ext(s));
      UpperDot();
    }
  }

  /** Names that name a directory entry name the same one exactly when they differ in case only. */
  lemma ShortNameInjective(a: seq<byte>, b: seq<byte>)
    requires ShortName(a).Some? && ShortName(b).Some?
    ensures ShortName(a) == ShortName(b) <==> UpperAll(Strip(a)) == UpperAll(Strip(b))
  {
    var s, t := Strip(a), Strip(b);
    hide UpperAll, Pad, NoSpace;
    if UpperAll(s) == UpperAll(t) {
      UpperParts(s, t);
    }
    if ShortName(a) == ShortName(b) {
      var p, q := UpperAll(s[..DotFrom(s, 0)]), UpperAll(t[..DotFrom(t, 0)]);
      var x, y := Pad(p, 8) + Pad(UpperAll(Ext(s)), 3), Pad(q, 8) + Pad(UpperAll(Ext(t)), 3);
      assert x == y;
      assert x[..8] == Pad(p, 8) && y[..8] == Pad(q, 8);
      assert x[8..] == Pad(UpperAll(Ext(s)), 3) && y[8..] == Pad(UpperAll(Ext(t)), 3);
      GoodParts(s);
      GoodParts(t);
      PadInjective(p, q, 8);
      PadInjective(UpperAll(Ext(s)), UpperAll(Ext(t)), 3);
      JoinParts(s, DotFrom(s, 0));
      JoinParts(t, DotFrom(t, 0));
    }
  }

  /** The first byte of a stored name: never the end mark, and the deleted mark only for a name that begins with it. */
  lemma ShortNameFirst(name: seq<byte>)
    requires ShortName(name).Some?
    ensures ShortName(name).value[0] != 0
    ensures ShortName(name).value[0] == 0xe5 <==> Strip(name)[0] == 0xe5
  {
    var s := Strip(name);
    assert Good(s[..DotFrom(s, 0)][0]);
  }

  // ----- The conversion loop

  /** `out` holds the first `base` bytes of `s` and, after the dot at `d`, the next `ext`. */
  ghost predicate Progress(s: seq<byte>, i: nat, base: nat, ext: nat, inExt: bool, out: seq<byte>) {
    var d := DotFrom(s, 0);
    && i <= |s| && |out| == 11 && base <= 8 && ext <= 3
    && (inExt <==> i > d)
    && (if inExt then base == d && base > 0 && ext == i - d - 1 else base == i && ext == 0)
    && (forall k :: 0 <= k < i && k != d ==> Good(s[k]))
    && (forall k :: 0 <= k < 8 ==> out[k] == if k < base then Upper(s[k]) else SPACE)
    && (forall k :: 8 <= k < 11 ==> out[k] == if k - 8 < ext then Upper(s[d + 1 + (k - 8)]) else SPACE)
  }

  lemma ProgressStart(s: seq<byte>)
    ensures Progress(s, 0, 0, 0, false, seq(11, _ => SPACE))
  {
  }

  lemma ProgressDot(s: seq<byte>, i: nat, base: nat, out: seq<byte>)
    requires Progress(s, i, base, 0, false, out) && i < |s| && s[i] == DOT && base > 0
    ensures Progress(s, i + 1, base, 0, true, out)
  {
  }

  lemma ProgressBase(s: seq<byte>, i: nat, base: nat, ext: nat, out: seq<byte>)
    requires Progress(s, i, base, ext, false, out) && i < |s| && Good(s[i]) && base < 8
    ensures Progress(s, i + 1, base + 1, ext, false, out[base := Upper(s[i])])
  {
  }

  lemma ProgressExt(s: seq<byte>, i: nat, base: nat, ext: nat, out: seq<byte>)
    requires Progress(s, i, base, ext, true, out) && i < |s| && Good(s[i]) && ext < 3
    ensures Progress(s, i + 1, base, ext + 1, true, out[8 + ext := Upper(s[i])])
  {
  }

  /** A byte that cannot come next spoils the name, and so does a part that is too long. */
  lemma ProgressStuck(s: seq<byte>, i: nat, base: nat, ext: nat, inExt: bool, out: seq<byte>)
    requires Progress(s, i, base, ext, inExt, out) && i < |s|
    requires if s[i] == DOT then inExt || base == 0 else !Good(s[i]) || (if inExt then ext >= 3 else base >= 8)
    ensures !IsShort(s)
  {
    var d := DotFrom(s, 0);
    if i < d {
      assert s[..d][i] == s[i];
    } else if i > d {
      assert s[d + 1..][i - d - 1] == s[i];
    }
  }

  lemma PadAt(s: seq<byte>, n: nat, k: nat)
    requires |s| <= n && k < n
    ensures Pad(UpperAll(s), n)[k] == if k < |s| then Upper(s[k]) else SPACE
  {
  }

  lemma ProgressDone(s: seq<byte>, base: nat, ext: nat, inExt: bool, out: seq<byte>)
    requires Progress(s, |s|, base, ext, inExt, out)
    ensures IsShort(s) <==> !(base == 0 || (inExt && ext == 0))
    ensures IsShort(s) ==> out == Pad(UpperAll(s[..DotFrom(s, 0)]), 8) + Pad(UpperAll(Ext(s)), 3)
  {
    hide Good, Pad, UpperAll, Upper;
    var d := DotFrom(s, 0);
    assert AllGood(s[..d]) && (d < |s| ==> AllGood(s[d + 1..]));
    if IsShort(s) {
      var r := Pad(UpperAll(s[..d]), 8) + Pad(UpperAll(Ext(s)), 3);
      forall k | 0 <= k < 11
        ensures out[k] == r[k]
      {
        if k < 8 {
          PadAt(s[..d], 8, k);
        } else {
          PadAt(Ext(s), 3, k - 8);
        }
      }
    }
  }

  /** `make_short_name`. */
  method MakeShortName(name: seq<byte>) returns (r: Option<seq<byte>>)
    ensures r == ShortName(name)
  {
    hide Upper, Refused, Progress, Pad, UpperAll, AllGood, DotFrom, Ext;
    if |name| == 0 {
      return None;
    }
    var s := name;
    if s[0] == SLASH {
      s := s[1..];
      if |s| == 0 {
        return None;
      }
    }
    var i, base, ext, inExt := 0, 0, 0, false;
    var out: seq<byte> := seq(11, _ => SPACE);
    ProgressStart(s);
    while i < |s|
      invariant i <= |s| && |out| == 11 && base <= 8 && ext <= 3 && (!inExt ==> ext == 0)
      invariant Progress(s, i, base, ext, inExt, out)
    {
      var c := Upper(s[i]);
      UpperKeeps(s[i]);
      if c == SLASH {
        ProgressStuck(s, i, base, ext, inExt, out);
        return None;
      }
      if c == DOT {
        if inExt || base == 0 {
          ProgressStuck(s, i, base, ext, inExt, out);
          return None;
        }
        ProgressDot(s, i, base, out);
        inExt := true;
        i := i + 1;
        continue;
      }
      if Refused(c) {
        ProgressStuck(s, i, base, ext, inExt, out);
        return None;
      }
      if !inExt {
        if base >= 8 {
          ProgressStuck(s, i, base, ext, inExt, out);
          return None;
        }
        ProgressBase(s, i, base, ext, out);
        out := out[base := c];
        base := base + 1;
      } else {
        if ext >= 3 {
          ProgressStuck(s, i, base, ext, inExt, out);
          return None;
        }
        ProgressExt(s, i, base, ext, out);
        out := out[8 + ext := c];
        ext := ext + 1;
      }
      i := i + 1;
    }
    ProgressDone(s, base, ext, inExt, out);
    if base == 0 || (inExt && ext == 0) {
      return None;
    }
    return Some(out);
  }
}
