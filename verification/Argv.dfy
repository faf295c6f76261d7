/** Program arguments: copied out of the caller's memory, packed, and laid out on the new program's stack. */
module Argv {
  import opened Basics

  /** The bytes of the caller's memory that it may read, by address. */
  type UserMemory = map<nat, byte>

  const MAX_STRINGS: nat := 8
  const MAX_BYTES: nat := 256

  // ----- Little-endian words

  function Bytes(v: nat, n: nat): (s: seq<byte>)
    ensures |s| == n
  {
    if n == 0 then [] else [v % 256] + Bytes(v / 256, n - 1)
  }

  function Value(s: seq<byte>): nat {
    if |s| == 0 then 0 else s[0] as int + 256 * Value(s[1..])
  }

  function Power(n: nat): nat {
    if n == 0 then 1 else 256 * Power(n - 1)
  }

  /** Byte `k` of a word is its `k`-th digit to the base 256, the low one first. */
  lemma {:induction false} ByteOf(low: nat, digit: byte, high: nat, n: nat, k: nat)
    requires k < n && low < Power(k)
    ensures Bytes(low + Power(k) * (digit + 256 * high), n)[k] == digit
    decreases k
  {
    var rest := digit + 256 * high;
    if k == 0 {
      assert Power(0) * rest == rest;
    } else {
      var v, p := low + Power(k) * rest, Power(k - 1) * rest;
      assert Power(k) * rest == 256 * p;
      assert v == low % 256 + 256 * (low / 256 + p);
      assert v / 256 == low / 256 + p;
      ByteOf(low / 256, digit, high, n - 1, k - 1);
    }
  }

  lemma {:induction false} ValueOfBytes(v: nat, n: nat)
    requires v < Power(n)
    ensures Value(Bytes(v, n)) == v
    decreases n
  {
    if n > 0 {
      assert v / 256 < Power(n - 1);
      ValueOfBytes(v / 256, n - 1);
      assert Bytes(v, n)[1..] == Bytes(v / 256, n - 1);
    }
  }

  lemma Word(v: nat)
    requires v < U64_LIMIT
    ensures Value(Bytes(v, 8)) == v
  {
    assert Power(4) == 0x1_0000_0000;
    assert Power(6) == 65536 * Power(4);
    assert Power(8) == 65536 * Power(6);
    ValueOfBytes(v, 8);
  }

  // ----- The caller's arguments

  /** The bytes from `p` up to a zero within `room` bytes. */
  function StringAt(user: UserMemory, p: nat, room: nat): (s: Option<seq<byte>>)
    ensures s.Some? ==> |s.value| < room
    decreases room
  {
    if room == 0 || p !in user then None
    else if user[p] == 0 then Some([])
    else
      match StringAt(user, p + 1, room - 1)
      case None => None
      case Some(s) => Some([user[p]] + s)
  }

  predicate Readable(user: UserMemory, p: nat, n: nat) {
    forall a :: p <= a < p + n ==> a in user
  }

  function Range(user: UserMemory, p: nat, n: nat): seq<byte>
    requires Readable(user, p, n)
    decreases n
  {
    if n == 0 then [] else [user[p]] + Range(user, p + 1, n - 1)
  }

  /** A word of the caller's memory. */
  function WordAt(user: UserMemory, p: nat): Option<nat> {
    if Readable(user, p, 8) then Some(Value(Range(user, p, 8))) else None
  }

  /** The argument strings from the `i`-th on, if they fit `room` bytes with their zeros. */
  function Args(user: UserMemory, table: nat, argc: nat, i: nat, room: nat): (r: Option<seq<seq<byte>>>)
    requires i <= argc
    ensures r.Some? ==> |r.value| == argc - i
    decreases argc - i
  {
    if i == argc then Some([])
    else
      match WordAt(user, table + 8 * i)
      case None => None
      case Some(p) =>
        if p == 0 || room == 0 then None
        else
          match StringAt(user, p, room)
          case None => None
          case Some(s) =>
            match Args(user, table, argc, i + 1, room - |s| - 1)
            case None => None
            case Some(rest) => Some([s] + rest)
  }

  /** What a call of `sys_copy_argv_from_user` is asked to copy. */
  function CallerArgs(user: UserMemory, table: nat, argc: nat): Option<seq<seq<byte>>> {
    if argc > MAX_STRINGS || (argc == 0) != (table == 0) then None else Args(user, table, argc, 0, MAX_BYTES)
  }

  /** `s` is the string at `p`: its bytes are there, none of them zero, and a zero follows. */
  ghost predicate IsString(user: UserMemory, p: nat, s: seq<byte>) {
    && (forall a :: p <= a < p + |s| ==> a in user && user[a] == s[a - p] && s[a - p] != 0)
    && p + |s| in user && user[p + |s|] == 0
  }

  lemma {:induction false} StringAtOk(user: UserMemory, p: nat, room: nat)
    requires StringAt(user, p, room).Some?
    ensures IsString(user, p, StringAt(user, p, room).value)
    decreases room
  {
    if user[p] != 0 {
      StringAtOk(user, p + 1, room - 1);
      var rest := StringAt(user, p + 1, room - 1).value;
      var s := StringAt(user, p, room).value;
      assert p + 1 + |rest| == p + |s|;
      assert s == [user[p]] + rest;
    }
  }

  /** The arguments are the strings behind the pointers of the caller's table. */
  lemma {:induction false} ArgsOk(user: UserMemory, table: nat, argc: nat, i: nat, room: nat, k: nat)
    requires i <= k < argc && Args(user, table, argc, i, room).Some?
    ensures WordAt(user, table + 8 * k).Some? && WordAt(user, table + 8 * k).value != 0
    ensures IsString(user, WordAt(user, table + 8 * k).value, Args(user, table, argc, i, room).value[k - i])
    decreases argc - i
  {
    hide IsString, WordAt;
    var p := WordAt(user, table + 8 * i).value;
    var s := StringAt(user, p, room).value;
    if k == i {
      StringAtOk(user, p, room);
    } else {
      ArgsOk(user, table, argc, i + 1, room - |s| - 1, k);
    }
  }

  /** A string that is there and fits is the one copied. */
  lemma {:induction false} StringFound(user: UserMemory, p: nat, room: nat, s: seq<byte>)
    requires IsString(user, p, s) && |s| < room
    ensures StringAt(user, p, room) == Some(s)
    decreases room
  {
    if |s| > 0 {
      assert user[p] == s[0] && s[0] != 0;
      assert p + 1 + |s[1..]| == p + |s|;
      forall a | p + 1 <= a < p + 1 + |s[1..]|
        ensures a in user && user[a] == s[1..][a - (p + 1)] && s[1..][a - (p + 1)] != 0
      {
        assert s[1..][a - (p + 1)] == s[a - p];
      }
      StringFound(user, p + 1, room - 1, s[1..]);
      assert [s[0]] + s[1..] == s;
    }
  }

  lemma {:induction false} StringFits(user: UserMemory, p: nat, room: nat)
    requires StringAt(user, p, room).Some?
    ensures |StringAt(user, p, room).value| < room
    decreases room
  {
    if user[p] != 0 {
      StringFits(user, p + 1, room - 1);
    }
  }

  /** Entry `k` of the caller's table points at the string `s`. */
  ghost predicate Passes(user: UserMemory, table: nat, k: nat, s: seq<byte>) {
    var w := WordAt(user, table + 8 * k);
    w.Some? && w.value != 0 && IsString(user, w.value, s)
  }

  /** The bytes that strings take, each with its zero. */
  function Cost(ss: seq<seq<byte>>): nat {
    if |ss| == 0 then 0 else |ss[0]| + 1 + Cost(ss[1..])
  }

  lemma {:induction false} CostConcat(a: seq<seq<byte>>, s: seq<byte>)
    ensures Cost(a + [s]) == Cost(a) + |s| + 1
  {
    if |a| == 0 {
      assert a + [s] == [s] && [s][1..] == [];
    } else {
      assert (a + [s])[1..] == a[1..] + [s];
      CostConcat(a[1..], s);
    }
  }

  lemma {:induction false} PackedCost(ss: seq<seq<byte>>)
    ensures |Packed(ss)| == Cost(ss)
  {
    if |ss| > 0 {
      var n := |ss| - 1;
      PackedCost(ss[..n]);
      CostConcat(ss[..n], ss[n]);
      assert ss[..n] + [ss[n]] == ss;
    }
  }

  /** The strings behind the pointers of the table, if they fit, are the arguments. */
  lemma {:induction false} ArgsFound(user: UserMemory, table: nat, argc: nat, i: nat, room: nat, ss: seq<seq<byte>>)
    requires i <= argc && |ss| == argc - i && Cost(ss) <= room
    requires forall k: nat :: k < |ss| ==> Passes(user, table, i + k, ss[k])
    ensures Args(user, table, argc, i, room) == Some(ss)
    decreases argc - i
  {
    hide IsString, WordAt, StringAt;
    if i < argc {
      assert Passes(user, table, i + 0, ss[0]);
      StringFound(user, WordAt(user, table + 8 * i).value, room, ss[0]);
      forall k: nat | k < |ss[1..]|
        ensures Passes(user, table, i + 1 + k, ss[1..][k])
      {
        assert Passes(user, table, i + (k + 1), ss[k + 1]);
      }
      ArgsFound(user, table, argc, i + 1, room - |ss[0]| - 1, ss[1..]);
      assert [ss[0]] + ss[1..] == ss;
    }
  }

  lemma {:induction false} ArgsFit(user: UserMemory, table: nat, argc: nat, i: nat, room: nat)
    requires i <= argc && Args(user, table, argc, i, room).Some?
    ensures Cost(Args(user, table, argc, i, room).value) <= room
    decreases argc - i
  {
    hide WordAt, StringAt;
    if i < argc {
      var p := WordAt(user, table + 8 * i).value;
      var s := StringAt(user, p, room).value;
      StringFits(user, p, room);
      ArgsFit(user, table, argc, i + 1, room - |s| - 1);
      var rest := Args(user, table, argc, i + 1, room - |s| - 1).value;
      assert ([s] + rest)[1..] == rest;
    }
  }

  /**
   * What a caller passes is `ss` exactly when the counts are in order, each entry of its table points at the string in turn,
   * and all of them fit with their zeros.
   */
  lemma CallerArgsAre(user: UserMemory, table: nat, argc: nat, ss: seq<seq<byte>>)
    ensures CallerArgs(user, table, argc) == Some(ss) <==>
              && argc <= MAX_STRINGS && (argc == 0 <==> table == 0) && |ss| == argc
              && |Packed(ss)| <= MAX_BYTES && forall k: nat :: k < |ss| ==> Passes(user, table, k, ss[k])
  {
    hide Packed, Args, Passes;
    PackedCost(ss);
    if argc <= MAX_STRINGS && (argc == 0 <==> table == 0) {
      if Args(user, table, argc, 0, MAX_BYTES) == Some(ss) {
        ArgsFit(user, table, argc, 0, MAX_BYTES);
        forall k: nat | k < |ss|
          ensures Passes(user, table, k, ss[k])
        {
          ArgsPass(user, table, argc, 0, MAX_BYTES, k);
        }
      }
      if |ss| == argc && Cost(ss) <= MAX_BYTES && (forall k: nat :: k < |ss| ==> Passes(user, table, k, ss[k])) {
        forall k: nat | k < |ss|
          ensures Passes(user, table, 0 + k, ss[k])
        {
        }
        ArgsFound(user, table, argc, 0, MAX_BYTES, ss);
      }
    }
  }

  lemma ArgsPass(user: UserMemory, table: nat, argc: nat, i: nat, room: nat, k: nat)
    requires i <= k < argc && Args(user, table, argc, i, room).Some?
    ensures Passes(user, table, k, Args(user, table, argc, i, room).value[k - i])
  {
    ArgsOk(user, table, argc, i, room, k);
  }

  // ----- Packing

  /** The strings one after another, each with its zero. */
  function Packed(ss: seq<seq<byte>>): seq<byte> {
    if |ss| == 0 then [] else Packed(ss[..|ss| - 1]) + ss[|ss| - 1] + [0]
  }

  function Starts(ss: seq<seq<byte>>): (r: seq<nat>)
    ensures |r| == |ss|
  {
    if |ss| == 0 then [] else Starts(ss[..|ss| - 1]) + [|Packed(ss[..|ss| - 1])|]
  }

  lemma PackedPush(ss: seq<seq<byte>>, s: seq<byte>)
    ensures Packed(ss + [s]) == Packed(ss) + s + [0] && Starts(ss + [s]) == Starts(ss) + [|Packed(ss)|]
  {
    assert (ss + [s])[..|ss|] == ss;
  }

  /** Each string is found at its offset in the packed bytes. */
  lemma {:induction false} PackedAt(ss: seq<seq<byte>>, i: nat)
    requires i < |ss|
    ensures Starts(ss)[i] + |ss[i]| < |Packed(ss)|
    ensures Packed(ss)[Starts(ss)[i]..Starts(ss)[i] + |ss[i]|] == ss[i] && Packed(ss)[Starts(ss)[i] + |ss[i]|] == 0
    decreases |ss|
  {
    var n := |ss| - 1;
    var front, last := ss[..n], ss[n];
    assert Packed(ss) == Packed(front) + last + [0];
    if i < n {
      PackedAt(front, i);
      var o := Starts(ss)[i];
      assert o == Starts(front)[i] && front[i] == ss[i];
      assert Packed(ss)[o..o + |ss[i]|] == Packed(front)[o..o + |ss[i]|];
    }
  }

  /** `sys_user_copy_cstr`: the length of the string copied to `out` from `at` on. */
  method CopyString(user: UserMemory, p: nat, out: array<byte>, at: nat) returns (length: Option<nat>)
    requires at <= out.Length
    modifies out
    ensures length.Some? <==> p != 0 && StringAt(user, p, out.Length - at).Some?
    ensures length.Some? ==> length.value == |StringAt(user, p, out.Length - at).value|
                             && out[at..at + length.value] == StringAt(user, p, out.Length - at).value && out[at + length.value] == 0
    ensures out[..at] == old(out[..at])
  {
    if p == 0 {
      return None;
    }
    var i := 0;
    ghost var done: seq<byte> := [];
    ghost var whole := StringAt(user, p, out.Length - at);
    assert whole.Some? ==> [] + whole.value == whole.value;
    while i < out.Length - at
      invariant 0 <= i <= out.Length - at && |done| == i && out[at..at + i] == done && out[..at] == old(out[..at])
      invariant forall k :: 0 <= k < i ==> done[k] != 0
      invariant match StringAt(user, p + i, out.Length - at - i)
                case None => StringAt(user, p, out.Length - at).None?
                case Some(s) => StringAt(user, p, out.Length - at) == Some(done + s)
    {
      if p + i !in user {
        return None;
      }
      out[at + i] := user[p + i];
      if out[at + i] == 0 {
        assert done + [] == done;
        return Some(i);
      }
      ghost var rest := StringAt(user, p + i + 1, out.Length - at - i - 1);
      if rest.Some? {
        assert done + ([user[p + i]] + rest.value) == done + [user[p + i]] + rest.value;
      }
      done := done + [user[p + i]];
      i := i + 1;
    }
    return None;
  }

  /** `sys_copy_argv_from_user`: how many bytes the packed arguments take. */
  method CopyArgv(user: UserMemory, table: nat, argc: nat, offsets: array<nat>, bytes: array<byte>) returns (used: Option<nat>)
    requires offsets.Length == MAX_STRINGS && bytes.Length == MAX_BYTES
    modifies offsets, bytes
    ensures used.Some? <==> CallerArgs(user, table, argc).Some?
    ensures used.Some? ==> argc <= MAX_STRINGS && used.value <= MAX_BYTES
                           && bytes[..used.value] == Packed(CallerArgs(user, table, argc).value)
                           && offsets[..argc] == Starts(CallerArgs(user, table, argc).value)
  {
    hide WordAt, StringAt, Sofar, Packed, Starts, CallerArgs;
    ArgsStart(user, table, argc);
    if argc > MAX_STRINGS || (argc == 0 && table != 0) || (argc != 0 && table == 0) {
      return None;
    }
    var n: nat := 0;
    ghost var done: seq<seq<byte>> := [];
    for i := 0 to argc
      invariant |done| == i && n <= MAX_BYTES && bytes[..n] == Packed(done) && offsets[..i] == Starts(done)
      invariant Sofar(user, table, argc, i, n, done)
    {
      SofarStep(user, table, argc, i, n, done);
      var pointer := WordAt(user, table + 8 * i);
      if pointer.None? || pointer.value == 0 || n >= MAX_BYTES {
        return None;
      }
      offsets[i] := n;
      ghost var s := StringAt(user, pointer.value, MAX_BYTES - n);
      var length := CopyString(user, pointer.value, bytes, n);
      if length.None? {
        return None;
      }
      PackedPush(done, s.value);
      assert bytes[..n + length.value + 1] == bytes[..n] + bytes[n..n + length.value] + [0];
      assert offsets[..i + 1] == offsets[..i] + [n];
      done := done + [s.value];
      n := n + length.value + 1;
    }
    SofarEnd(user, table, argc, n, done);
    return Some(n);
  }

  /** The arguments are `done` and then those still to come. */
  ghost predicate Sofar(user: UserMemory, table: nat, argc: nat, i: nat, n: nat, done: seq<seq<byte>>)
    requires i <= argc && n <= MAX_BYTES
  {
    match Args(user, table, argc, i, MAX_BYTES - n)
    case None => CallerArgs(user, table, argc).None?
    case Some(rest) => CallerArgs(user, table, argc) == Some(done + rest)
  }

  lemma ArgsStart(user: UserMemory, table: nat, argc: nat)
    ensures argc > MAX_STRINGS || (argc == 0) != (table == 0) ==> CallerArgs(user, table, argc).None?
    ensures !(argc > MAX_STRINGS || (argc == 0) != (table == 0)) ==> Sofar(user, table, argc, 0, 0, [])
    ensures Packed([]) == [] && Starts([]) == []
  {
    var whole := Args(user, table, argc, 0, MAX_BYTES);
    assert whole.Some? ==> [] + whole.value == whole.value;
  }

  lemma SofarStep(user: UserMemory, table: nat, argc: nat, i: nat, n: nat, done: seq<seq<byte>>)
    requires i < argc && n <= MAX_BYTES && Sofar(user, table, argc, i, n, done)
    ensures var p := WordAt(user, table + 8 * i);
            if p.None? || p.value == 0 || n >= MAX_BYTES || StringAt(user, p.value, MAX_BYTES - n).None?
            then CallerArgs(user, table, argc).None?
            else
              var s := StringAt(user, p.value, MAX_BYTES - n).value;
              Sofar(user, table, argc, i + 1, n + |s| + 1, done + [s])
  {
    hide WordAt, StringAt;
    var p := WordAt(user, table + 8 * i);
    if p.Some? && p.value != 0 && n < MAX_BYTES && StringAt(user, p.value, MAX_BYTES - n).Some? {
      var s := StringAt(user, p.value, MAX_BYTES - n).value;
      var rest := Args(user, table, argc, i + 1, MAX_BYTES - n - |s| - 1);
      if rest.Some? {
        assert done + ([s] + rest.value) == done + [s] + rest.value;
      }
    }
  }

  lemma SofarEnd(user: UserMemory, table: nat, argc: nat, n: nat, done: seq<seq<byte>>)
    requires n <= MAX_BYTES && Sofar(user, table, argc, argc, n, done)
    ensures CallerArgs(user, table, argc) == Some(done)
  {
    assert done + [] == done;
  }

  // ----- The stack

  /** The strings `ss` laid out on a stack at `base`: a table of pointers at `table`, ended by a null, and the strings above it. */
  ghost predicate LaidOut(stack: seq<byte>, base: nat, table: nat, ss: seq<seq<byte>>) {
    && base <= table && table + 8 * (|ss| + 1) <= base + |stack|
    && (forall i :: 0 <= i < |ss| ==> PointsTo(stack, base, table, i, ss[i], table + 8 * (|ss| + 1)))
    && Value(stack[table - base + 8 * |ss|..table - base + 8 * |ss| + 8]) == 0
  }

  /** Entry `i` of the table points at `s`, ended by a zero, inside the stack and not below `floor`. */
  ghost predicate PointsTo(stack: seq<byte>, base: nat, table: nat, i: nat, s: seq<byte>, floor: nat)
    requires base <= table && table + 8 * (i + 1) <= base + |stack|
  {
    var p := Value(stack[table - base + 8 * i..table - base + 8 * i + 8]);
    && floor <= p && base <= p && p + |s| < base + |stack|
    && stack[p - base..p - base + |s|] == s && stack[p - base + |s|] == 0
  }

  /** The table as it will stand: a pointer for each offset, then a null. */
  function Table(strings: nat, offsets: seq<nat>, argc: nat): (t: seq<byte>)
    requires argc <= |offsets|
    ensures |t| == 8 * (argc + 1)
  {
    Pointers(strings, offsets, argc) + Bytes(0, 8)
  }

  function Pointers(strings: nat, offsets: seq<nat>, n: nat): (t: seq<byte>)
    requires n <= |offsets|
    ensures |t| == 8 * n
  {
    if n == 0 then [] else Pointers(strings, offsets, n - 1) + Bytes(strings + offsets[n - 1], 8)
  }

  lemma {:induction false} PointerAt(strings: nat, offsets: seq<nat>, n: nat, i: nat)
    requires i < n <= |offsets|
    ensures Pointers(strings, offsets, n)[8 * i..8 * i + 8] == Bytes(strings + offsets[i], 8)
    decreases n
  {
    if i < n - 1 {
      PointerAt(strings, offsets, n - 1, i);
      assert Pointers(strings, offsets, n)[8 * i..8 * i + 8] == Pointers(strings, offsets, n - 1)[8 * i..8 * i + 8];
    }
  }

  lemma NullIsZero()
    ensures Value(Bytes(0, 8)) == 0
  {
    Word(0);
  }

  /** A table over packed strings, at the top of the stack, is what the new program reads back. */
  lemma LayoutOk(stack: seq<byte>, base: nat, o: nat, ss: seq<seq<byte>>, f: nat)
    requires |ss| > 0 && f == 8 * (|ss| + 1) && base + |stack| < U64_LIMIT && o + f + |Packed(ss)| <= |stack|
    requires stack[o..o + f] == Table(base + o + f, Starts(ss), |ss|) && stack[o + f..o + f + |Packed(ss)|] == Packed(ss)
    ensures LaidOut(stack, base, base + o, ss)
  {
    hide Packed, Starts, Table, PointsTo, Value;
    var n := |ss|;
    forall i | 0 <= i < n
      ensures PointsTo(stack, base, base + o, i, ss[i], base + o + f)
    {
      EntryOk(stack, base, o, ss, i, f);
    }
    NullEntry(base + o + f, Starts(ss), n);
    SubSlice(stack, o, o + f, 8 * n, 8 * n + 8);
    NullIsZero();
  }

  lemma SubSlice(s: seq<byte>, a: nat, b: nat, x: nat, y: nat)
    requires a <= b <= |s| && x <= y <= b - a
    ensures s[a..b][x..y] == s[a + x..a + y]
  {
    var p, q := s[a..b][x..y], s[a + x..a + y];
    forall i | 0 <= i < y - x
      ensures p[i] == q[i]
    {
      assert p[i] == s[a..b][x + i] == s[a + (x + i)];
    }
  }

  lemma NullEntry(strings: nat, offsets: seq<nat>, n: nat)
    requires n <= |offsets|
    ensures Table(strings, offsets, n)[8 * n..8 * n + 8] == Bytes(0, 8)
  {
    var p := Pointers(strings, offsets, n);
    assert (p + Bytes(0, 8))[8 * n..8 * n + 8] == Bytes(0, 8);
  }

  lemma TableAt(strings: nat, offsets: seq<nat>, n: nat, i: nat)
    requires i < n <= |offsets|
    ensures Table(strings, offsets, n)[8 * i..8 * i + 8] == Bytes(strings + offsets[i], 8)
  {
    PointerAt(strings, offsets, n, i);
    assert Table(strings, offsets, n)[8 * i..8 * i + 8] == Pointers(strings, offsets, n)[8 * i..8 * i + 8];
  }

  lemma EntryOk(stack: seq<byte>, base: nat, o: nat, ss: seq<seq<byte>>, i: nat, f: nat)
    requires i < |ss| && f == 8 * (|ss| + 1) && base + |stack| < U64_LIMIT && o + f + |Packed(ss)| <= |stack|
    requires stack[o..o + f] == Table(base + o + f, Starts(ss), |ss|) && stack[o + f..o + f + |Packed(ss)|] == Packed(ss)
    ensures PointsTo(stack, base, base + o, i, ss[i], base + o + f)
  {
    hide Packed, Starts, Table, Value;
    var s, k := o + f, Starts(ss)[i];
    PackedAt(ss, i);
    TableAt(base + s, Starts(ss), |ss|, i);
    SubSlice(stack, o, s, 8 * i, 8 * i + 8);
    Word(base + s + k);
    SubSlice(stack, s, s + |Packed(ss)|, k, k + |ss[i]|);
    assert stack[s..s + |Packed(ss)|][k + |ss[i]|] == stack[s + (k + |ss[i]|)];
  }

  function AlignUp16(n: nat): (r: nat)
    ensures n <= r < n + 16
  {
    (n + 15) / 16 * 16
  }

  /** Stores a word. */
  method StoreWord(stack: array<byte>, at: nat, value: nat)
    requires at + 8 <= stack.Length
    modifies stack
    ensures stack[..] == old(stack[..at]) + Bytes(value, 8) + old(stack[at + 8..])
  {
    var v := value;
    ghost var was, word := stack[..], Bytes(value, 8);
    for i := 0 to 8
      invariant stack[..at] == was[..at] && stack[at..at + i] == word[..i] && stack[at + i..] == was[at + i..]
      invariant word[i..] == Bytes(v, 8 - i)
    {
      assert word[i..][0] == v % 256 && word[i..][1..] == Bytes(v / 256, 8 - i - 1);
      assert stack[at + i..][1..] == was[at + i..][1..];
      stack[at + i] := v % 256;
      assert stack[at..at + i + 1] == word[..i] + [v % 256];
      v := v / 256;
    }
    assert stack[..] == stack[..at] + stack[at..at + 8] + stack[at + 8..];
  }

  /** When `panel_boot_place_argv_on_stack` accepts its arguments. */
  predicate Placeable(size: nat, base: nat, offsets: seq<nat>, used: nat, argc: nat) {
    && 0 < argc <= MAX_STRINGS && argc <= |offsets| && 0 < used <= MAX_BYTES && (forall i :: 0 <= i < argc ==> offsets[i] < used)
    && AlignUp16(8 * (argc + 1) + used) <= size && base + size < U64_LIMIT
  }

  /** `panel_boot_place_argv_on_stack`: the address of the pointer table, 0 when there are no arguments. */
  method PlaceArgv(stack: array<byte>, base: nat, offsets: seq<nat>, bytes: seq<byte>, argc: nat) returns (table: Option<nat>)
    requires argc <= |offsets|
    modifies stack
    ensures table.Some? <==> if argc == 0 then stack.Length > 0 else Placeable(stack.Length, base, offsets, |bytes|, argc)
    ensures table.None? || argc == 0 ==> stack[..] == old(stack[..])
    ensures table.Some? && argc == 0 ==> table.value == 0
    ensures table.Some? && argc > 0 ==>
              var o := stack.Length - AlignUp16(8 * (argc + 1) + |bytes|);
              && o >= 0 && table.value == base + o && o + 8 * (argc + 1) + |bytes| <= stack.Length
              && ((base + stack.Length) % 16 == 0 ==> table.value % 16 == 0)
              && stack[..o] == old(stack[..o])
              && stack[o..o + 8 * (argc + 1)] == Table(base + o + 8 * (argc + 1), offsets, argc)
              && stack[o + 8 * (argc + 1)..o + 8 * (argc + 1) + |bytes|] == bytes
  {
    hide AlignUp16, Table;
    if stack.Length == 0 {
      return None;
    }
    if argc == 0 {
      return Some(0);
    }
    if argc > MAX_STRINGS || |bytes| == 0 || |bytes| > MAX_BYTES {
      return None;
    }
    var within := OffsetsWithin(offsets, |bytes|, argc);
    var pointers := 8 * (argc + 1);
    var total := AlignUp16(pointers + |bytes|);
    if !within || total > stack.Length || base + stack.Length >= U64_LIMIT {
      return None;
    }
    var o := stack.Length - total;
    AlignedTop(base, o, stack.Length, pointers + |bytes|);
    WriteArgs(stack, o, base + o + pointers, offsets, bytes, argc);
    return Some(base + o);
  }

  method OffsetsWithin(offsets: seq<nat>, used: nat, argc: nat) returns (ok: bool)
    requires argc <= |offsets|
    ensures ok <==> forall i :: 0 <= i < argc ==> offsets[i] < used
  {
    for i := 0 to argc
      invariant forall k :: 0 <= k < i ==> offsets[k] < used
    {
      if offsets[i] >= used {
        return false;
      }
    }
    return true;
  }

  /** The strings, then the table below them. */
  method WriteArgs(stack: array<byte>, o: nat, strings: nat, offsets: seq<nat>, bytes: seq<byte>, argc: nat)
    requires argc <= |offsets| && o + 8 * (argc + 1) + |bytes| <= stack.Length
    modifies stack
    ensures stack[..o] == old(stack[..o]) && stack[o..o + 8 * (argc + 1)] == Table(strings, offsets, argc)
    ensures stack[o + 8 * (argc + 1)..o + 8 * (argc + 1) + |bytes|] == bytes
  {
    hide Table;
    var pointers := 8 * (argc + 1);
    ghost var was := stack[..];
    Write(stack, o + pointers, bytes);
    ghost var mid := stack[..];
    WritePointers(stack, o, strings, offsets, argc);
    BothKept(was, mid, stack[..], o, o + pointers, |bytes|);
  }

  /** The first write leaves what lies below it, the second what lies beside it. */
  lemma BothKept(was: seq<byte>, mid: seq<byte>, now: seq<byte>, o: nat, end: nat, n: nat)
    requires |was| == |mid| == |now| && o <= end && end + n <= |now|
    requires mid[..end] == was[..end] && now[..o] == mid[..o] && now[end..] == mid[end..]
    ensures now[..o] == was[..o] && now[end..end + n] == mid[end..end + n]
  {
    assert was[..end][..o] == was[..o] && mid[..end][..o] == mid[..o];
    assert now[end..][..n] == now[end..end + n] && mid[end..][..n] == mid[end..end + n];
  }

  method Write(stack: array<byte>, at: nat, bytes: seq<byte>)
    requires at + |bytes| <= stack.Length
    modifies stack
    ensures stack[..at] == old(stack[..at]) && stack[at..at + |bytes|] == bytes
  {
    for i := 0 to |bytes|
      invariant stack[..at] == old(stack[..at]) && stack[at..at + i] == bytes[..i]
    {
      stack[at + i] := bytes[i];
    }
  }

  method WritePointers(stack: array<byte>, o: nat, strings: nat, offsets: seq<nat>, argc: nat)
    requires argc <= |offsets| && o + 8 * (argc + 1) <= stack.Length
    modifies stack
    ensures stack[..o] == old(stack[..o]) && stack[o + 8 * (argc + 1)..] == old(stack[o + 8 * (argc + 1)..])
    ensures stack[o..o + 8 * (argc + 1)] == Table(strings, offsets, argc)
  {
    hide Bytes, Pointers;
    ghost var end := o + 8 * (argc + 1);
    PointersStep(strings, offsets, 0);
    for i := 0 to argc
      invariant stack[..o] == old(stack[..o]) && stack[end..] == old(stack[end..])
      invariant stack[o..o + 8 * i] == Pointers(strings, offsets, i)
    {
      ghost var was := stack[..];
      StoreWord(stack, o + 8 * i, strings + offsets[i]);
      Stored(was, stack[..], o, 8 * i, end, Bytes(strings + offsets[i], 8));
      PointersStep(strings, offsets, i);
    }
    ghost var was := stack[..];
    StoreWord(stack, o + 8 * argc, 0);
    Stored(was, stack[..], o, 8 * argc, end, Bytes(0, 8));
  }

  lemma PointersStep(strings: nat, offsets: seq<nat>, i: nat)
    requires i <= |offsets|
    ensures Pointers(strings, offsets, 0) == []
    ensures i < |offsets| ==> Pointers(strings, offsets, i + 1) == Pointers(strings, offsets, i) + Bytes(strings + offsets[i], 8)
  {
  }

  lemma Stored(was: seq<byte>, now: seq<byte>, o: nat, k: nat, end: nat, word: seq<byte>)
    requires |word| == 8 && o + k + 8 <= end <= |was| && now == was[..o + k] + word + was[o + k + 8..]
    ensures |now| == |was| && now[..o] == was[..o] && now[end..] == was[end..] && now[o..o + k + 8] == was[o..o + k] + word
  {
  }

  /**
   * The round trip: what the caller passed is what the new program finds on its stack, ended by a null,
   * with the table 16-byte aligned whenever the top of the stack is.
   */
  method PassArgv(user: UserMemory, table: nat, argc: nat, stack: array<byte>, base: nat) returns (argv: Option<nat>)
    modifies stack
    ensures argv.Some? <==>
              && CallerArgs(user, table, argc).Some?
              && if argc == 0 then stack.Length > 0
                 else AlignUp16(8 * (argc + 1) + |Packed(CallerArgs(user, table, argc).value)|) <= stack.Length
                      && base + stack.Length < U64_LIMIT
    ensures argv.Some? && argc > 0 ==> LaidOut(stack[..], base, argv.value, CallerArgs(user, table, argc).value)
    ensures argv.Some? && (base + stack.Length) % 16 == 0 ==> argv.value % 16 == 0
    ensures argv.Some? && argc == 0 ==> argv.value == 0
    ensures argv.None? || argc == 0 ==> stack[..] == old(stack[..])
  {
    hide Packed, Starts, CallerArgs, Table, AlignUp16, Placeable, LaidOut;
    var offsets, bytes := new nat[MAX_STRINGS], new byte[MAX_BYTES];
    var used := CopyArgv(user, table, argc, offsets, bytes);
    if used.None? {
      return None;
    }
    ghost var ss := CallerArgs(user, table, argc).value;
    CallerCount(user, table, argc);
    if argc > 0 {
      Fitting(stack.Length, base, offsets[..], ss);
    }
    argv := PlaceArgv(stack, base, offsets[..], bytes[..used.value], argc);
    if argv.Some? && argc > 0 {
      LayoutFound(stack[..], base, argv.value - base, offsets[..], ss, 8 * (argc + 1));
    }
  }

  lemma Fitting(size: nat, base: nat, offsets: seq<nat>, ss: seq<seq<byte>>)
    requires 0 < |ss| <= |offsets| && offsets[..|ss|] == Starts(ss) && |ss| <= MAX_STRINGS && |Packed(ss)| <= MAX_BYTES
    ensures Placeable(size, base, offsets, |Packed(ss)|, |ss|) <==>
              AlignUp16(8 * (|ss| + 1) + |Packed(ss)|) <= size && base + size < U64_LIMIT
  {
    AllInside(ss);
    hide Starts, Packed, AlignUp16;
    assert forall i :: 0 <= i < |ss| ==> offsets[i] == offsets[..|ss|][i];
  }

  lemma AlignedTop(base: nat, o: nat, size: nat, n: nat)
    requires o + AlignUp16(n) == size
    ensures (base + size) % 16 == 0 ==> (base + o) % 16 == 0
  {
    var q := (n + 15) / 16;
    assert base + size == base + o + 16 * q;
  }

  lemma LayoutFound(stack: seq<byte>, base: nat, o: nat, offsets: seq<nat>, ss: seq<seq<byte>>, f: nat)
    requires 0 < |ss| <= |offsets| && offsets[..|ss|] == Starts(ss) && base + |stack| < U64_LIMIT
    requires f == 8 * (|ss| + 1) && o + f + |Packed(ss)| <= |stack| && stack[o..o + f] == Table(base + o + f, offsets, |ss|)
    requires stack[o + f..o + f + |Packed(ss)|] == Packed(ss)
    ensures LaidOut(stack, base, base + o, ss)
  {
    hide Starts, Packed, Table, LaidOut;
    TablePrefix(base + o + f, offsets, |ss|);
    LayoutOk(stack, base, o, ss, f);
  }

  lemma CallerCount(user: UserMemory, table: nat, argc: nat)
    requires CallerArgs(user, table, argc).Some?
    ensures |CallerArgs(user, table, argc).value| == argc <= MAX_STRINGS
  {
  }

  lemma AllInside(ss: seq<seq<byte>>)
    ensures forall i :: 0 <= i < |ss| ==> Starts(ss)[i] < |Packed(ss)|
    ensures |ss| > 0 ==> |Packed(ss)| > 0
  {
    forall i | 0 <= i < |ss|
      ensures Starts(ss)[i] < |Packed(ss)|
    {
      PackedAt(ss, i);
    }
  }

  lemma {:induction false} TablePrefix(strings: nat, offsets: seq<nat>, n: nat)
    requires n <= |offsets|
    ensures Table(strings, offsets, n) == Table(strings, offsets[..n], n)
  {
    PointersPrefix(strings, offsets, offsets[..n], n);
  }

  lemma {:induction false} PointersPrefix(strings: nat, a: seq<nat>, b: seq<nat>, n: nat)
    requires n <= |a| && n <= |b| && a[..n] == b[..n]
    ensures Pointers(strings, a, n) == Pointers(strings, b, n)
    decreases n
  {
    if n > 0 {
      assert a[..n - 1] == a[..n][..n - 1] && b[..n - 1] == b[..n][..n - 1];
      assert a[n - 1] == a[..n][n - 1] && b[n - 1] == b[..n][n - 1];
      PointersPrefix(strings, a, b, n - 1);
    }
  }
}
