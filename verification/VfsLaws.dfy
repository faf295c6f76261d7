/** What the components of a path do to it, whatever stands before and after them. */
module VfsLaws {
  import opened Basics
  import opened VfsPath

  /** How many levels the components go down, on balance. */
  function Descent(parts: seq<string>): int {
    if |parts| == 0 then 0
    else Descent(parts[..|parts| - 1])
         + (if parts[|parts| - 1] == "." then 0 else if parts[|parts| - 1] == ".." then -1 else 1)
  }

  /** Some first part of the way goes up more often than down. */
  ghost predicate Climbs(parts: seq<string>) {
    exists k: nat :: Above(parts, k)
  }

  ghost predicate Above(parts: seq<string>, k: nat) {
    k <= |parts| && Descent(parts[..k]) < 0
  }

  lemma {:induction false} ResolveConcat(a: seq<string>, b: seq<string>, at: seq<string>)
    ensures Resolve(a + b, at) == match Resolve(a, at) case None => None case Some(m) => Resolve(b, m)
    decreases |a|
  {
    if |a| == 0 {
      assert a + b == b;
    } else {
      assert (a + b)[1..] == a[1..] + b;
      var next := if a[0] == "." then at
        else if a[0] == ".." then (if |at| == 0 then [] else at[..|at| - 1])
        else at + [a[0]];
      ResolveConcat(a[1..], b, next);
    }
  }

  /** A path is refused exactly when it climbs above the root at some point; otherwise it ends as deep as it went on balance. */
  lemma {:induction false} ResolveWhen(parts: seq<string>)
    ensures Resolve(parts, []).None? <==> Climbs(parts)
    ensures Resolve(parts, []).Some? ==> |Resolve(parts, []).value| == Descent(parts)
    decreases |parts|
  {
    if |parts| > 0 {
      hide Resolve, Descent;
      var n := |parts| - 1;
      var front, last := parts[..n], parts[n];
      ResolveWhen(front);
      LastStep(parts);
      ClimbsLater(parts);
    } else {
      ResolveNothing(parts);
    }
  }

  lemma ResolveNothing(parts: seq<string>)
    requires |parts| == 0
    ensures Resolve(parts, []) == Some([]) && Descent(parts) == 0 && !Climbs(parts)
  {
    assert forall k: nat :: k <= |parts| ==> parts[..k] == parts;
  }

  /** What the last component does. */
  lemma LastStep(parts: seq<string>)
    requires |parts| > 0
    ensures var n := |parts| - 1;
            var c, up := parts[n], Resolve(parts[..n], []);
            && Descent(parts) == Descent(parts[..n]) + (if c == "." then 0 else if c == ".." then -1 else 1)
            && Resolve(parts, []) == (if up.None? then None
                                      else if c == "." then up
                                      else if c == ".." then (if |up.value| == 0 then None else Some(up.value[..|up.value| - 1]))
                                      else Some(up.value + [c]))
  {
    var n := |parts| - 1;
    hide Resolve;
    assert parts == parts[..n] + [parts[n]];
    ResolveConcat(parts[..n], [parts[n]], []);
    if Resolve(parts[..n], []).Some? {
      OneMore(parts[n], Resolve(parts[..n], []).value);
    }
  }

  lemma AboveEnd(parts: seq<string>)
    ensures Above(parts, |parts|) <==> Descent(parts) < 0
  {
    assert parts[..|parts|] == parts;
  }

  lemma AboveFront(parts: seq<string>, n: nat, k: nat)
    requires n <= |parts|
    ensures Above(parts[..n], k) <==> k <= n && Above(parts, k)
    ensures Above(parts, k) ==> k <= |parts|
  {
    if k <= n {
      assert parts[..n][..k] == parts[..k];
    }
  }

  lemma ClimbsLater(parts: seq<string>)
    requires |parts| > 0
    ensures Climbs(parts) <==> Climbs(parts[..|parts| - 1]) || Descent(parts) < 0
  {
    hide Descent, Above;
    var n := |parts| - 1;
    AboveEnd(parts);
    if k: nat :| Above(parts[..n], k) {
      AboveFront(parts, n, k);
    }
    if k: nat :| Above(parts, k) {
      AboveFront(parts, n, k);
    }
  }

  lemma OneMore(c: string, at: seq<string>)
    ensures Resolve([c], at) == if c == "." then Some(at) else if c == ".." then (if |at| == 0 then None else Some(at[..|at| - 1])) else Some(at + [c])
  {
    assert [c][1..] == [];
  }

  lemma {:induction false} PartsShift(a: string, b: string, i: nat)
    requires i <= |b|
    ensures Parts(a + b, |a| + i) == Parts(b, i)
    decreases |b| - i
  {
    hide NextSlash;
    if i < |b| {
      assert (a + b)[|a| + i] == b[i];
      if b[i] == '/' {
        PartsShift(a, b, i + 1);
      } else {
        SlashShift(a, b, i);
        var j := NextSlash(b, i);
        assert j > i;
        PartsShift(a, b, j);
        PartsHere(a + b, |a| + i, |a| + j);
        PartsHere(b, i, j);
        assert (a + b)[|a| + i..|a| + j] == b[i..j];
      }
    }
  }

  lemma PartsHere(s: string, i: nat, j: nat)
    requires i < |s| && s[i] != '/' && j == NextSlash(s, i)
    ensures Parts(s, i) == [s[i..j]] + Parts(s, j)
  {
  }

  lemma {:induction false} SlashShift(a: string, b: string, i: nat)
    requires i <= |b|
    ensures NextSlash(a + b, |a| + i) == |a| + NextSlash(b, i)
    decreases |b| - i
  {
    if i < |b| {
      assert (a + b)[|a| + i] == b[i];
      if b[i] != '/' {
        SlashShift(a, b, i + 1);
      }
    }
  }

  /** A path that goes on after `a` with `b`. */
  predicate GoesOn(a: string, b: string) {
    |a| > 0 && a[0] == '/' && (|b| == 0 || b[0] == '/')
  }

  lemma PartsThen(a: string, b: string)
    requires GoesOn(a, b)
    ensures Parts(a + b, 1) == Parts(a, 1) + Parts(b, 0)
  {
    PartsConcat(a, b, 1);
    PartsShift(a, b, 0);
  }

  lemma PartOf(c: string)
    requires |c| > 0 && forall i :: 0 <= i < |c| ==> c[i] != '/'
    ensures Parts("/" + c, 0) == [c]
  {
    var s := "/" + c;
    assert s[1..] == c && forall i :: 1 <= i < |s| ==> s[i] == c[i - 1];
    assert NextSlash(s, 1) == |s|;
    assert Parts(s, |s|) == [] && s[1..|s|] == c;
  }

  lemma WithPart(a: string, c: string, b: string)
    requires GoesOn(a, b) && |c| > 0 && forall i :: 0 <= i < |c| ==> c[i] != '/'
    ensures Parts(a + "/" + c + b, 1) == Parts(a, 1) + [c] + Parts(b, 0)
  {
    var d := "/" + c;
    assert a + "/" + c + b == a + d + b;
    PartsThen(a + d, b);
    PartsThen(a, d);
    PartOf(c);
  }

  /** `.` and an extra slash mean nothing, and a name followed by `..` cancels, wherever in a path they stand. */
  lemma Cancels(a: string, b: string, x: string)
    requires GoesOn(a, b) && PlainName(x) && |a + "/" + x + "/.." + b| < MAX_PATH
    ensures Normalize(a + "/." + b) == Normalize(a + b)
    ensures Normalize(a + "/" + b) == Normalize(a + b)
    ensures Normalize(a + "/" + x + "/.." + b) == Normalize(a + b)
  {
    hide Render;
    var p, q := Parts(a, 1), Parts(b, 0);
    PartsThen(a, b);
    ResolveConcat(p, q, []);
    // a dot
    assert a + "/" + "." + b == a + "/." + b;
    WithPart(a, ".", b);
    ResolveConcat(p + ["."], q, []);
    ResolveConcat(p, ["."], []);
    // a slash
    assert a + "/" + b == a + ("/" + b);
    PartsThen(a, "/" + b);
    PartsShift("/", b, 0);
    // a name and the way back
    var up := "/.." + b;
    assert a + "/" + x + "/.." + b == a + "/" + x + up;
    WithPart(a, x, up);
    assert ".." + b == up[1..];
    UpFirst(b);
    ResolveConcat(p + [x], [".."] + q, []);
    ResolveConcat(p, [x], []);
    BackAgain(p, q, x);
    assert |a + "/." + b| < MAX_PATH && |a + "/" + b| < MAX_PATH && |a + b| < MAX_PATH;
  }

  lemma UpFirst(b: string)
    requires |b| == 0 || b[0] == '/'
    ensures Parts("/.." + b, 0) == [".."] + Parts(b, 0)
  {
    PartsConcat("/..", b, 0);
    PartsShift("/..", b, 0);
    assert "/" + ".." == "/..";
    PartOf("..");
  }

  lemma BackAgain(p: seq<string>, q: seq<string>, x: string)
    requires PlainName(x)
    ensures Resolve(p + [x] + ([".."] + q), []) == Resolve(p + q, [])
  {
    ResolveConcat(p + [x], [".."] + q, []);
    ResolveConcat(p, [x], []);
    ResolveConcat(p, q, []);
    if Resolve(p, []).Some? {
      var at := Resolve(p, []).value;
      OneMore(x, at);
      assert ([".."] + q)[1..] == q && (at + [x])[..|at|] == at;
    }
  }
}
