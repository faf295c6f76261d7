/** Path normalisation. */
module VfsPath {
  import opened Basics

  const MAX_PATH: nat := 64

  // ----- What a path means

  /** The first slash at or after `i`, or the end. */
  function NextSlash(s: string, i: nat): (j: nat)
    requires i <= |s|
    ensures i <= j <= |s| && (j < |s| ==> s[j] == '/') && forall k :: i <= k < j ==> s[k] != '/'
    decreases |s| - i
  {
    if i == |s| || s[i] == '/' then i else NextSlash(s, i + 1)
  }

  /** The components of a path from `i` on: its longest stretches without a slash. */
  function Parts(s: string, i: nat): seq<string>
    requires i <= |s|
    decreases |s| - i
  {
    if i == |s| then []
    else if s[i] == '/' then Parts(s, i + 1)
    else [s[i..NextSlash(s, i)]] + Parts(s, NextSlash(s, i))
  }

  /** Walking the components from the directory `at`: `.` stays, `..` goes up, and going up from the root is an error. */
  function Resolve(parts: seq<string>, at: seq<string>): Option<seq<string>>
    decreases |parts|
  {
    if |parts| == 0 then Some(at)
    else if parts[0] == "." then Resolve(parts[1..], at)
    else if parts[0] == ".." then if |at| == 0 then None else Resolve(parts[1..], at[..|at| - 1])
    else Resolve(parts[1..], at + [parts[0]])
  }

  function Joined(at: seq<string>): string {
    if |at| == 0 then "" else Joined(at[..|at| - 1]) + "/" + at[|at| - 1]
  }

  /** The plain path of a directory. */
  function Render(at: seq<string>): string {
    if |at| == 0 then "/" else Joined(at)
  }

  /** Absolute paths of fewer than 64 characters that never leave the root, as plain paths. */
  function Normalize(path: string): Option<string> {
    if |path| == 0 || path[0] != '/' || |path| >= MAX_PATH then None
    else
      match Resolve(Parts(path, 1), [])
      case None => None
      case Some(at) => Some(Render(at))
  }

  // ----- Plain components

  predicate PlainName(c: string) {
    |c| > 0 && c != "." && c != ".." && forall i :: 0 <= i < |c| ==> c[i] != '/'
  }

  ghost predicate AllPlain(at: seq<string>) {
    forall i :: 0 <= i < |at| ==> PlainName(at[i])
  }

  ghost predicate AllParts(parts: seq<string>) {
    forall i :: 0 <= i < |parts| ==> |parts[i]| > 0 && forall k :: 0 <= k < |parts[i]| ==> parts[i][k] != '/'
  }

  lemma {:induction false} PartsOk(s: string, i: nat)
    requires i <= |s|
    ensures AllParts(Parts(s, i))
    decreases |s| - i
  {
    if i < |s| {
      if s[i] == '/' {
        PartsOk(s, i + 1);
      } else {
        PartsOk(s, NextSlash(s, i));
      }
    }
  }

  lemma {:induction false} ResolvePlain(parts: seq<string>, at: seq<string>)
    requires AllParts(parts) && AllPlain(at)
    ensures Resolve(parts, at).Some? ==> AllPlain(Resolve(parts, at).value)
    decreases |parts|
  {
    if |parts| > 0 {
      var next := if parts[0] == "." then at
        else if parts[0] == ".." then (if |at| == 0 then [] else at[..|at| - 1])
        else at + [parts[0]];
      ResolvePlain(parts[1..], next);
    }
  }

  // ----- A plain path has the components it was made of

  /** What follows a slash or the end does not change the components before it. */
  lemma {:induction false} PartsConcat(a: string, b: string, i: nat)
    requires i <= |a| && (|b| == 0 || b[0] == '/')
    ensures Parts(a + b, i) == Parts(a, i) + Parts(a + b, |a|)
    decreases |a| - i
  {
    if i < |a| {
      if a[i] == '/' {
        PartsConcat(a, b, i + 1);
      } else {
        NextSlashConcat(a, b, i);
        var j := NextSlash(a, i);
        PartsConcat(a, b, j);
        assert (a + b)[i..j] == a[i..j];
        assert [a[i..j]] + (Parts(a, j) + Parts(a + b, |a|)) == [a[i..j]] + Parts(a, j) + Parts(a + b, |a|);
      }
    }
  }

  lemma {:induction false} NextSlashConcat(a: string, b: string, i: nat)
    requires i <= |a| && (|b| == 0 || b[0] == '/')
    ensures NextSlash(a + b, i) == NextSlash(a, i)
    decreases |a| - i
  {
    if i < |a| && a[i] != '/' {
      NextSlashConcat(a, b, i + 1);
    }
  }

  lemma {:induction false} PartsOfJoined(at: seq<string>)
    requires AllPlain(at)
    ensures Parts(Joined(at), 0) == at
    decreases |at|
  {
    if |at| > 0 {
      var front, c := at[..|at| - 1], at[|at| - 1];
      var a, b := Joined(front), "/" + c;
      PartsOfJoined(front);
      PartsConcat(a, b, 0);
      assert a + b == Joined(at);
      LastPart(a, c);
      assert at == front + [c];
    }
  }

  lemma LastPart(a: string, c: string)
    requires PlainName(c)
    ensures Parts(a + ("/" + c), |a|) == [c]
  {
    var s, k := a + ("/" + c), |a| + 1;
    assert s[|a|] == '/' && s[k..] == c && s[k] != '/';
    forall i | k <= i < |s|
      ensures s[i] != '/'
    {
      assert s[i] == c[i - k];
    }
    var j := NextSlash(s, k);
    assert j == |s|;
    assert Parts(s, |s|) == [];
    assert s[k..j] == c;
  }

  lemma {:induction false} ResolveRest(at: seq<string>, parts: seq<string>)
    requires AllPlain(parts)
    ensures Resolve(parts, at) == Some(at + parts)
    decreases |parts|
  {
    if |parts| > 0 {
      ResolveRest(at + [parts[0]], parts[1..]);
      assert at + [parts[0]] + parts[1..] == at + parts;
    } else {
      assert at + parts == at;
    }
  }

  lemma {:induction false} JoinedLength(at: seq<string>)
    ensures |at| > 0 ==> |Joined(at)| > 0 && Joined(at)[0] == '/'
    decreases |at|
  {
    if |at| > 1 {
      JoinedLength(at[..|at| - 1]);
    } else if |at| == 1 {
      assert Joined(at[..0]) == "";
    }
  }

  /** From its second character on, a plain path still has all its components. */
  lemma PartsOfRender(at: seq<string>)
    requires AllPlain(at)
    ensures |Render(at)| > 0 && Render(at)[0] == '/' && Parts(Render(at), 1) == at
  {
    JoinedLength(at);
    if |at| > 0 {
      PartsOfJoined(at);
    }
  }

  /** Walking adds no characters: the plain path is no longer than what has been read. */
  lemma JoinedPush(at: seq<string>, c: string)
    ensures Joined(at + [c]) == Joined(at) + "/" + c
  {
    assert (at + [c])[..|at|] == at;
  }

  /** The result is the plain path of the directory meant, with no empty, `.` or `..` component, and is its own normal form. */
  lemma NormalizeOk(path: string)
    requires Normalize(path).Some?
    ensures var n := Normalize(path).value;
            && Resolve(Parts(path, 1), []) == Some(Parts(n, 1)) && AllPlain(Parts(n, 1))
            && |n| < MAX_PATH && Normalize(n) == Some(n)
  {
    var at := Resolve(Parts(path, 1), []).value;
    PartsOk(path, 1);
    ResolvePlain(Parts(path, 1), []);
    PartsOfRender(at);
    ResolveRest([], at);
    assert [] + at == at;
    ResolveLength(path, 1, []);
  }

  /** Characters of the plain path never outnumber those read. */
  lemma {:induction false} ResolveLength(s: string, i: nat, at: seq<string>)
    requires 1 <= i <= |s| && |Render(at)| <= i && (i < |s| && s[i] != '/' && |at| > 0 ==> |Render(at)| < i)
    ensures Resolve(Parts(s, i), at).Some? ==> |Render(Resolve(Parts(s, i), at).value)| <= |s|
    decreases |s| - i
  {
    if i < |s| {
      if s[i] == '/' {
        ResolveLength(s, i + 1, at);
      } else {
        var j := NextSlash(s, i);
        var c := s[i..j];
        assert Parts(s, i)[0] == c && Parts(s, i)[1..] == Parts(s, j);
        JoinedPush(at, c);
        if |at| > 0 {
          JoinedPush(at[..|at| - 1], at[|at| - 1]);
          assert at[..|at| - 1] + [at[|at| - 1]] == at;
        }
        if c == "." {
          ResolveLength(s, j, at);
        } else if c == ".." {
          if |at| > 0 {
            ResolveLength(s, j, at[..|at| - 1]);
          }
        } else {
          ResolveLength(s, j, at + [c]);
        }
      }
    }
  }

  // ----- The loop

  /** Character `i` of a C string. */
  function CharAt(path: string, i: nat): char
    requires i <= |path|
  {
    if i < |path| then path[i] else '\0'
  }

  /** The loop has read `i` characters of the path and stands in the directory `at`, written out in `out`. */
  ghost predicate Standing(path: string, i: nat, at: seq<string>, out: seq<char>) {
    && 1 <= i <= |path| && AllPlain(at) && out == Render(at) && |out| <= i
    && (i < |path| && path[i] != '/' && |at| > 0 ==> |out| < i)
    && Resolve(Parts(path, i), at) == Resolve(Parts(path, 1), [])
  }

  lemma StandingSkip(path: string, i: nat, at: seq<string>, out: seq<char>)
    requires Standing(path, i, at, out) && i < |path| && path[i] == '/'
    ensures Standing(path, i + 1, at, out)
  {
  }

  /** The component from `i` to `j` was `.`. */
  lemma StandingStay(path: string, i: nat, j: nat, at: seq<string>, out: seq<char>)
    requires Standing(path, i, at, out) && i < |path| && path[i] != '/' && j == NextSlash(path, i) && path[i..j] == "."
    ensures Standing(path, j, at, out)
  {
    assert Parts(path, i)[0] == "." && Parts(path, i)[1..] == Parts(path, j);
  }

  lemma StandingEscape(path: string, i: nat, j: nat, at: seq<string>, out: seq<char>)
    requires Standing(path, i, at, out) && i < |path| && path[i] != '/' && j == NextSlash(path, i) && path[i..j] == ".." && |out| == 1
    ensures Resolve(Parts(path, 1), []) == None
  {
    OneCharacter(at);
    assert Parts(path, i)[0] == ".." && Parts(path, i)[1..] == Parts(path, j);
  }

  lemma OneCharacter(at: seq<string>)
    requires AllPlain(at)
    ensures |Render(at)| == 1 <==> |at| == 0
    ensures |Render(at)| >= 1
  {
    if |at| > 0 {
      JoinedPush(at[..|at| - 1], at[|at| - 1]);
      assert at[..|at| - 1] + [at[|at| - 1]] == at;
    }
  }

  lemma StandingUp(path: string, i: nat, j: nat, at: seq<string>, out: seq<char>)
    requires Standing(path, i, at, out) && i < |path| && path[i] != '/' && j == NextSlash(path, i) && path[i..j] == ".." && |at| > 0
    ensures Standing(path, j, at[..|at| - 1], Render(at[..|at| - 1]))
  {
    assert Parts(path, i)[0] == ".." && Parts(path, i)[1..] == Parts(path, j);
    JoinedPush(at[..|at| - 1], at[|at| - 1]);
    assert at[..|at| - 1] + [at[|at| - 1]] == at;
  }

  /** Any other component is appended, and there is always space for it. */
  lemma StandingDown(path: string, i: nat, j: nat, at: seq<string>, out: seq<char>)
    requires Standing(path, i, at, out) && i < |path| && path[i] != '/' && j == NextSlash(path, i)
    requires path[i..j] != "." && path[i..j] != ".."
    ensures var out' := (if |out| > 1 then out + "/" else out) + path[i..j];
            Standing(path, j, at + [path[i..j]], out') && |out'| <= j
  {
    var c := path[i..j];
    assert Parts(path, i)[0] == c && Parts(path, i)[1..] == Parts(path, j);
    JoinedPush(at, c);
    OneCharacter(at);
    if |at| == 0 {
      assert Joined(at) + "/" + c == "/" + c;
    }
  }

  /** Where the last component of a plain path begins. */
  lemma LastSlash(at: seq<string>, k: nat)
    requires AllPlain(at) && |at| > 0
    ensures var front := Joined(at[..|at| - 1]);
            && |Render(at)| == |front| + 1 + |at[|at| - 1]| && Render(at)[|front|] == '/' && Render(at)[..|front|] == front
            && (|front| < k < |Render(at)| ==> Render(at)[k] != '/')
  {
    var front, c := Joined(at[..|at| - 1]), at[|at| - 1];
    JoinedPush(at[..|at| - 1], c);
    assert at[..|at| - 1] + [c] == at;
    assert Joined(at) == front + "/" + c;
    assert PlainName(c);
    if |front| < k < |Render(at)| {
      assert Render(at)[k] == c[k - |front| - 1];
    }
  }

  /** Takes the last component off the path in `normalized`. */
  method Up(normalized: array<char>, length: nat, ghost at: seq<string>) returns (output: nat)
    requires AllPlain(at) && |at| > 0 && length <= normalized.Length && normalized[..length] == Render(at)
    ensures 1 <= output < length && normalized[..output] == Render(at[..|at| - 1])
  {
    ghost var front := Joined(at[..|at| - 1]);
    LastSlash(at, 0);
    output := length;
    while output > 1 && normalized[output - 1] != '/'
      invariant 1 <= |front| + 1 <= output <= length
    {
      LastSlash(at, output - 1);
      assert normalized[..length][output - 1] == normalized[output - 1];
      assert normalized[..length][|front|] == normalized[|front|];
      output := output - 1;
    }
    LastSlash(at, output - 1);
    assert normalized[..length][output - 1] == normalized[output - 1];
    assert output == |front| + 1;
    assert normalized[..|front|] == normalized[..length][..|front|];
    if output > 1 {
      output := output - 1;
    }
    RenderFront(at[..|at| - 1]);
  }

  lemma RenderFront(at: seq<string>)
    requires AllPlain(at)
    ensures |Joined(at)| == 0 <==> |at| == 0
    ensures Render(at) == if |Joined(at)| == 0 then "/" else Joined(at)
  {
    JoinedLength(at);
  }

  /** `vfs_normalize_path`: the length of the path left in `normalized`, which is then terminated. */
  method NormalizePath(path: string, normalized: array<char>) returns (r: Option<nat>)
    requires normalized.Length == MAX_PATH && '\0' !in path
    modifies normalized
    ensures r.Some? <==> Normalize(path).Some?
    ensures r.Some? ==> r.value < MAX_PATH && normalized[..r.value] == Normalize(path).value && normalized[r.value] == '\0'
  {
    hide Standing, Resolve, Parts;
    if CharAt(path, 0) != '/' {
      return None;
    }
    var input: nat, output: nat := 1, 1;
    normalized[0] := '/';
    ghost var at: seq<string> := [];
    StandingStart(path);
    assert normalized[..1] == "/";
    while true
      invariant 1 <= output < MAX_PATH && 1 <= input <= |path| && Standing(path, input, at, normalized[..output])
      decreases |path| - input, 1
    {
      while input < MAX_PATH && CharAt(path, input) == '/'
        invariant input <= |path| && Standing(path, input, at, normalized[..output])
      {
        StandingSkip(path, input, at, normalized[..output]);
        input := input + 1;
      }
      if input >= MAX_PATH {
        return None;
      }
      if CharAt(path, input) == '\0' {
        break;
      }
      var start := input;
      while input < MAX_PATH && CharAt(path, input) != '/' && CharAt(path, input) != '\0'
        invariant start <= input <= |path| && forall k :: start <= k < input ==> path[k] != '/'
      {
        input := input + 1;
      }
      if input >= MAX_PATH {
        return None;
      }
      SlashHere(path, start, input);
      var length := input - start;
      if length == 1 && path[start] == '.' {
        assert path[start..input] == ".";
        StandingStay(path, start, input, at, normalized[..output]);
        continue;
      }
      if length == 2 && path[start] == '.' && path[start + 1] == '.' {
        assert path[start..input] == "..";
        if output == 1 {
          StandingEscape(path, start, input, at, normalized[..output]);
          return None;
        }
        StandingAt(path, start, at, normalized[..output]);
        StandingUp(path, start, input, at, normalized[..output]);
        output := Up(normalized, output, at);
        at := at[..|at| - 1];
        continue;
      }
      StandingDown(path, start, input, at, normalized[..output]);
      var required := length + if output > 1 then 1 else 0;
      assert output <= MAX_PATH - 1 - required;
      ghost var before := normalized[..output];
      output := Append(path, start, length, normalized, output);
      at := at + [path[start..input]];
    }
    StandingEnd(path, input, at, normalized[..output]);
    normalized[output] := '\0';
    return Some(output);
  }

  /** Appends a component, with a slash before it unless it is the first. */
  method Append(path: string, start: nat, length: nat, normalized: array<char>, output: nat) returns (end: nat)
    requires start + length <= |path| && 1 <= output && output + length + (if output > 1 then 1 else 0) < normalized.Length
    modifies normalized
    ensures end == output + length + (if output > 1 then 1 else 0)
    ensures normalized[..end] == old((if output > 1 then normalized[..output] + "/" else normalized[..output])) + path[start..start + length]
  {
    end := output;
    if end > 1 {
      normalized[end] := '/';
      end := end + 1;
    }
    ghost var lead := normalized[..end];
    for i := 0 to length
      invariant end == |lead| + i && |lead| + length < normalized.Length && normalized[..end] == lead + path[start..start + i]
    {
      normalized[end] := path[start + i];
      end := end + 1;
      assert path[start..start + i + 1] == path[start..start + i] + [path[start + i]];
    }
  }

  lemma StandingStart(path: string)
    requires |path| > 0
    ensures Standing(path, 1, [], "/")
  {
  }

  lemma StandingAt(path: string, i: nat, at: seq<string>, out: seq<char>)
    requires Standing(path, i, at, out) && |out| != 1
    ensures AllPlain(at) && out == Render(at) && |at| > 0
  {
    OneCharacter(at);
  }

  lemma SlashHere(path: string, i: nat, j: nat)
    requires i <= j <= |path| && (j < |path| ==> path[j] == '/' ) && forall k :: i <= k < j ==> path[k] != '/'
    ensures j == NextSlash(path, i)
  {
  }

  lemma StandingEnd(path: string, i: nat, at: seq<string>, out: seq<char>)
    requires Standing(path, i, at, out) && i == |path|
    ensures Resolve(Parts(path, 1), []) == Some(at) && out == Render(at)
  {
  }
}
