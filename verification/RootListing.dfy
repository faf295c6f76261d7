/** The listing of the root directory, and the files of the volume it shows. */
module RootListing {
  import opened Basics
  import opened Fat32Layout
  import opened Fat32Disk
  import opened Fat32Volume
  import opened Fat32Changes
  import opened Fat32Names
  import opened Fat32Entries
  import opened Fat32Spelling
  import opened Fat32Driver
  import opened DirListing

  // ----- Which entries are shown

  /** The volume label and the parts of long names have bit 3 of the attributes. */
  predicate HasLabelBit(e: Slot32) {
    e[11] as int / 8 % 2 == 1
  }

  predicate HasFolderBit(e: Slot32) {
    e[11] as int / 16 % 2 == 1
  }

  /** `.` and `..`. */
  predicate DotEntry(e: Slot32) {
    e[..2] == [0x2e, 0x20] || e[..3] == [0x2e, 0x2e, 0x20]
  }

  /** A file of the volume, or a subdirectory; no label, no part of a long name, neither `.` nor `..`. */
  ghost predicate Shows(dir: seq<Slot32>, chains: Chains, n: nat) {
    && n < |dir| && !HasLabelBit(dir[n]) && !DotEntry(dir[n])
    && (Slot(n) in chains || (HasFolderBit(dir[n]) && !IsFree(dir[n])))
  }

  lemma DotIs(e: Slot32)
    ensures IsDot(e) <==> DotEntry(e)
  {
    assert e[..2] == [e[0], e[1]] && e[..3] == [e[0], e[1], e[2]];
  }

  lemma ShowsIs(g: Geometry, dir: seq<Slot32>, chains: Chains, n: nat)
    requires DirOk(g, dir, chains) && n < |dir|
    ensures Shows(dir, chains, n) <==> dir[n][0] != 0 && Listed(dir[n])
  {
    hide EntryOk, UniqueNames, FreeTail, IsDot, DotEntry;
    DotIs(dir[n]);
  }

  // ----- What a line says

  /** `field` is `part` and spaces after it. */
  predicate Trims(field: seq<byte>, part: seq<byte>) {
    && |part| <= |field| && field[..|part|] == part && (|part| > 0 ==> part[|part| - 1] != 0x20)
    && forall i :: |part| <= i < |field| ==> field[i] == 0x20
  }

  /** The line of an entry: base, a dot and the extension if there is one, a slash for a directory, and the end of the line. */
  ghost predicate IsLine(line: seq<byte>, e: Slot32, base: seq<byte>, ext: seq<byte>) {
    && Trims(e[..8], base) && Trims(e[8..11], ext)
    && line == Spelled(base, ext) + (if HasFolderBit(e) then [0x2f] else []) + [0x0a]
  }

  lemma {:induction false} TrimmedIs(s: seq<byte>, n: nat)
    requires n <= |s| && forall i :: n <= i < |s| ==> s[i] == 0x20
    ensures Trims(s, s[..Trimmed(s, n)])
    decreases n
  {
    if n > 0 && s[n - 1] == 0x20 {
      TrimmedIs(s, n - 1);
    }
  }

  lemma LineSays(e: Slot32) returns (base: seq<byte>, ext: seq<byte>)
    ensures IsLine(Line(e), e, base, ext)
  {
    var b, x := Trimmed(e[..8], 8), Trimmed(e[8..11], 3);
    TrimmedIs(e[..8], 8);
    TrimmedIs(e[8..11], 3);
    hide Trimmed;
    base, ext := e[..8][..b], e[8..11][..x];
    assert base == e[..b] && ext == e[8..8 + x];
    assert Line(e) == Spelled(base, ext) + (if HasFolderBit(e) then [0x2f] else []) + [0x0a];
  }

  /** There is one such line. */
  lemma OneLine(e: Slot32, line: seq<byte>, base: seq<byte>, ext: seq<byte>, line': seq<byte>, base': seq<byte>, ext': seq<byte>)
    requires IsLine(line, e, base, ext) && IsLine(line', e, base', ext')
    ensures line == line' && base == base' && ext == ext'
  {
    OneTrim(e[..8], base, base');
    OneTrim(e[8..11], ext, ext');
  }

  lemma OneTrim(field: seq<byte>, a: seq<byte>, b: seq<byte>)
    requires Trims(field, a) && Trims(field, b)
    ensures a == b
  {
    assert |a| > 0 ==> field[|a| - 1] == a[|a| - 1];
    assert |b| > 0 ==> field[|b| - 1] == b[|b| - 1];
    assert |a| == |b|;
  }

  lemma StoredTrims(field: seq<byte>, part: seq<byte>)
    requires Fills(field, part) && AllAllowed(part)
    ensures Trims(field, field[..|part|]) && SameLetters(part, field[..|part|]) && AllAllowed(field[..|part|])
  {
    var shown := field[..|part|];
    forall i | 0 <= i < |part|
      ensures SameLetter(part[i], shown[i]) && Allowed(shown[i]) && shown[i] != 0x20
    {
      assert Stored(part[i], field[i]) && Allowed(part[i]);
    }
  }

  /** A file that was given a name is listed as that name in capitals, and what is listed opens the file. */
  lemma LineOpens(e: Slot32, name: seq<byte>) returns (shown: seq<byte>)
    requires ShortName(name) == Some(Name(e)) && !HasFolderBit(e)
    ensures Line(e) == shown + [0x0a] && ShortName(shown) == Some(Name(e))
    ensures SameLetters(Strip(name), shown)
  {
    hide ShortName, Fills, Parts, SameLetters, AllAllowed, Trims, Line, Strip;
    var base, ext := NameStands(name);
    StripIs(name, base, ext);
    PartLengths(base, ext);
    PartsIs(base, ext);
    assert e[..8] == Name(e)[..8] && e[8..11] == Name(e)[8..];
    StoredTrims(e[..8], base);
    StoredTrims(e[8..11], ext);
    var b, x := e[..8][..|base|], e[8..11][..|ext|];
    PartsOf(b, x);
    shown := Spelled(b, x);
    var b', x' := LineSays(e);
    assert IsLine(shown + [] + [0x0a], e, b, x);
    OneLine(e, Line(e), b', x', shown + [] + [0x0a], b, x);
    assert shown + [] == shown;
    NameAccepted(b, x);
    var n := Name(e);
    var n' := ShortName(shown).value;
    LettersBack(base, b);
    LettersBack(ext, x);
    FillsOnce(n[..8], n'[..8], base, b);
    FillsOnce(n[8..], n'[8..], ext, x);
    assert n == n[..8] + n[8..] && n' == n'[..8] + n'[8..];
    SpelledLetters(base, ext, b, x);
  }

  lemma StripIs(name: seq<byte>, base: seq<byte>, ext: seq<byte>)
    requires Parts(base, ext) && (name == Spelled(base, ext) || name == [0x2f] + Spelled(base, ext))
    ensures Strip(name) == Spelled(base, ext)
  {
    assert Allowed(base[0]);
    assert Spelled(base, ext)[0] == base[0];
    assert ([0x2f] + Spelled(base, ext))[1..] == Spelled(base, ext);
  }

  lemma PartsIs(base: seq<byte>, ext: seq<byte>)
    requires Parts(base, ext)
    ensures AllAllowed(base) && AllAllowed(ext)
  {
  }

  lemma PartsOf(base: seq<byte>, ext: seq<byte>)
    requires 1 <= |base| <= 8 && |ext| <= 3 && AllAllowed(base) && AllAllowed(ext)
    ensures Parts(base, ext)
  {
  }

  lemma LettersBack(a: seq<byte>, b: seq<byte>)
    requires SameLetters(a, b)
    ensures |a| == |b|
  {
  }

  lemma SpelledLetters(base: seq<byte>, ext: seq<byte>, b: seq<byte>, x: seq<byte>)
    requires SameLetters(base, b) && SameLetters(ext, x)
    ensures SameLetters(Spelled(base, ext), Spelled(b, x))
  {
  }

  // ----- The whole listing

  /** The line slot `n` contributes, if any. */
  function LineOf(dir: seq<Slot32>, n: nat): seq<byte>
    requires n < |dir|
  {
    if dir[n][0] != 0 && Listed(dir[n]) then Line(dir[n]) else []
  }

  /** The lines of the shown slots from `k` on, whatever end marks there are. */
  ghost function Lines(dir: seq<Slot32>, k: nat): seq<byte>
    decreases |dir| - k
  {
    if k >= |dir| then [] else LineOf(dir, k) + Lines(dir, k + 1)
  }

  lemma LinesStep(dir: seq<Slot32>, k: nat)
    ensures k < |dir| ==> Lines(dir, k) == LineOf(dir, k) + Lines(dir, k + 1)
    ensures k >= |dir| ==> Lines(dir, k) == []
  {
  }

  lemma {:induction false} FreeLines(dir: seq<Slot32>, k: nat)
    requires forall m :: k <= m < |dir| ==> IsFree(dir[m])
    ensures Lines(dir, k) == []
    decreases |dir| - k
  {
    if k < |dir| {
      FreeLines(dir, k + 1);
    }
  }

  /** The end mark hides nothing. */
  lemma {:induction false} TextIsLines(dir: seq<Slot32>, k: nat)
    requires FreeTail(dir)
    ensures Text(dir, k) == Lines(dir, k)
    decreases |dir| - k
  {
    hide Line, Listed;
    if k < |dir| {
      if dir[k][0] == 0 {
        FreeLines(dir, k + 1);
      } else {
        TextIsLines(dir, k + 1);
      }
    }
  }

  /** The lines of the given slots, one after another. */
  ghost function Joined(dir: seq<Slot32>, slots: seq<nat>): seq<byte>
    requires forall i :: 0 <= i < |slots| ==> slots[i] < |dir|
  {
    if slots == [] then [] else Line(dir[slots[0]]) + Joined(dir, slots[1..])
  }

  ghost predicate Increasing(slots: seq<nat>) {
    forall i, j :: 0 <= i < j < |slots| ==> slots[i] < slots[j]
  }

  lemma {:induction false} LinesJoined(g: Geometry, dir: seq<Slot32>, chains: Chains, k: nat) returns (slots: seq<nat>)
    requires DirOk(g, dir, chains) && k <= |dir|
    ensures Increasing(slots) && forall n: nat :: n in slots <==> k <= n && Shows(dir, chains, n)
    ensures forall i :: 0 <= i < |slots| ==> slots[i] < |dir|
    ensures Lines(dir, k) == Joined(dir, slots)
    decreases |dir| - k
  {
    hide DirOk, Shows, Line, Listed, Lines, LineOf;
    slots := [];
    LinesStep(dir, k);
    if k < |dir| {
      var rest := LinesJoined(g, dir, chains, k + 1);
      ShowsIs(g, dir, chains, k);
      ShownLine(dir, k);
      if dir[k][0] != 0 && Listed(dir[k]) {
        slots := [k] + rest;
        FirstSlot(dir, k, rest);
      } else {
        slots := rest;
        assert [] + Lines(dir, k + 1) == Lines(dir, k + 1);
      }
    } else {
      NothingShows(dir, chains, k);
    }
  }

  lemma ShownLine(dir: seq<Slot32>, k: nat)
    requires k < |dir|
    ensures LineOf(dir, k) == if dir[k][0] != 0 && Listed(dir[k]) then Line(dir[k]) else []
  {
  }

  lemma FirstSlot(dir: seq<Slot32>, k: nat, rest: seq<nat>)
    requires Increasing(rest) && k < |dir| && (forall i :: 0 <= i < |rest| ==> rest[i] < |dir|) && forall n :: n in rest ==> k < n
    ensures Increasing([k] + rest) && (forall i :: 0 <= i < |[k] + rest| ==> ([k] + rest)[i] < |dir|)
    ensures Joined(dir, [k] + rest) == Line(dir[k]) + Joined(dir, rest)
  {
    hide Line, Increasing;
    FirstLowest(k, rest);
    var slots := [k] + rest;
    forall i | 0 <= i < |slots|
      ensures slots[i] < |dir|
    {
      assert slots[i] == if i == 0 then k else rest[i - 1];
    }
    assert slots[1..] == rest && slots[0] == k;
  }

  lemma FirstLowest(k: nat, rest: seq<nat>)
    requires Increasing(rest) && forall n :: n in rest ==> k < n
    ensures Increasing([k] + rest)
  {
    var slots := [k] + rest;
    forall i, j | 0 <= i < j < |slots|
      ensures slots[i] < slots[j]
    {
      assert slots[j] == rest[j - 1] && rest[j - 1] in rest;
      assert slots[i] == if i == 0 then k else rest[i - 1];
    }
  }

  lemma NothingShows(dir: seq<Slot32>, chains: Chains, k: nat)
    requires k >= |dir|
    ensures forall n: nat :: k <= n ==> !Shows(dir, chains, n)
  {
  }

  /**
   * The listing of the root has, in slot order, one line for every file of the volume that is not its label and for every
   * subdirectory, and no other line.
   */
  lemma RootLines(g: Geometry, disk: Disk, others: map<nat, seq<nat>>, chains: Chains) returns (slots: seq<nat>)
    requires VolumeOk(g, disk, others, chains)
    ensures Increasing(slots) && forall n: nat :: n in slots <==> Shows(RootDir(g, disk, chains), chains, n)
    ensures forall i :: 0 <= i < |slots| ==> slots[i] < |RootDir(g, disk, chains)|
    ensures Text(RootDir(g, disk, chains), 0) == Joined(RootDir(g, disk, chains), slots)
  {
    hide TableOk, Dir, Lbas, EntryOk, UniqueNames, Shows, Listed, Line;
    TextIsLines(RootDir(g, disk, chains), 0);
    slots := LinesJoined(g, RootDir(g, disk, chains), chains, 0);
  }

  // ----- What an operation does to the listing

  lemma {:induction false} LinesSplit(dir: seq<Slot32>, dir': seq<Slot32>, n: nat, k: nat) returns (a: seq<byte>, b: seq<byte>)
    requires OneSlot(dir, dir', n) && k <= n
    ensures Lines(dir, k) == a + LineOf(dir, n) + b && Lines(dir', k) == a + LineOf(dir', n) + b
    decreases n - k
  {
    hide LineOf, Lines;
    LinesStep(dir, k);
    LinesStep(dir', k);
    if k == n {
      a, b := [], Lines(dir, n + 1);
      SameLines(dir, dir', n + 1);
      assert [] + LineOf(dir, n) == LineOf(dir, n) && [] + LineOf(dir', n) == LineOf(dir', n);
    } else {
      a, b := LinesSplit(dir, dir', n, k + 1);
      SameLine(dir, dir', k);
      Regroup(LineOf(dir, k), a, LineOf(dir, n), b);
      Regroup(LineOf(dir, k), a, LineOf(dir', n), b);
      a := LineOf(dir, k) + a;
    }
  }

  lemma Regroup(l: seq<byte>, a: seq<byte>, m: seq<byte>, b: seq<byte>)
    ensures l + (a + m + b) == (l + a) + m + b
  {
  }

  lemma SameLine(dir: seq<Slot32>, dir': seq<Slot32>, k: nat)
    requires k < |dir| && k < |dir'| && dir'[k] == dir[k]
    ensures LineOf(dir', k) == LineOf(dir, k)
  {
  }

  lemma {:induction false} SameLines(dir: seq<Slot32>, dir': seq<Slot32>, k: nat)
    requires |dir| == |dir'| && forall m :: k <= m < |dir| ==> dir'[m] == dir[m]
    ensures Lines(dir, k) == Lines(dir', k)
    decreases |dir| - k
  {
    hide LineOf, Lines;
    LinesStep(dir, k);
    LinesStep(dir', k);
    if k < |dir| {
      SameLines(dir, dir', k + 1);
      SameLine(dir, dir', k);
    }
  }

  /** Changing one slot changes that slot's line and leaves all other lines in place. */
  lemma ListingChange(dir: seq<Slot32>, dir': seq<Slot32>, n: nat) returns (a: seq<byte>, b: seq<byte>)
    requires FreeTail(dir) && FreeTail(dir') && OneSlot(dir, dir', n)
    ensures Text(dir, 0) == a + LineOf(dir, n) + b && Text(dir', 0) == a + LineOf(dir', n) + b
  {
    hide Lines, LineOf;
    a, b := LinesSplit(dir, dir', n, 0);
    TextIsLines(dir, 0);
    TextIsLines(dir', 0);
  }

  /** After a deletion the line of the file is gone and all others stay as they were. */
  lemma DeletedListing(dir: seq<Slot32>, dir': seq<Slot32>, n: nat) returns (a: seq<byte>, b: seq<byte>)
    requires FreeTail(dir) && FreeTail(dir') && Struck(dir, dir', n)
    ensures Text(dir, 0) == a + LineOf(dir, n) + b && Text(dir', 0) == a + b
  {
    hide FreeTail, Line;
    a, b := ListingChange(dir, dir', n);
    assert a + [] + b == a + b;
  }

  /** After a creation there is one line more, the name of the new file in capitals. */
  lemma CreatedListing(dir: seq<Slot32>, dir': seq<Slot32>, n: nat, name: seq<byte>) returns (a: seq<byte>, b: seq<byte>, shown: seq<byte>)
    requires FreeTail(dir) && FreeTail(dir') && ShortName(name).Some? && ShortName(name).value[0] != 0xe5
    requires Entitled(dir, dir', n, ShortName(name).value, 0x20) && IsFree(dir[n])
    ensures Text(dir, 0) == a + b && Text(dir', 0) == a + (shown + [0x0a]) + b && SameLetters(Strip(name), shown)
    ensures ShortName(shown) == ShortName(name)
  {
    hide FreeTail, Line, ShortName, Strip, SameLetters;
    a, b := ListingChange(dir, dir', n);
    assert a + [] + b == a + b;
    shown := LineOpens(dir'[n], name);
    StoredShows(dir'[n], name);
  }

  /** After a renaming the line of the file holds its new name in capitals, and all others stay as they were. */
  lemma RenamedListing(dir: seq<Slot32>, dir': seq<Slot32>, n: nat, name: seq<byte>) returns (a: seq<byte>, b: seq<byte>, shown: seq<byte>)
    requires FreeTail(dir) && FreeTail(dir') && ShortName(name).Some? && ShortName(name).value[0] != 0xe5
    requires n < |dir| && Entitled(dir, dir', n, ShortName(name).value, dir[n][11]) && !HasLabelBit(dir[n]) && !HasFolderBit(dir[n])
    ensures Text(dir, 0) == a + LineOf(dir, n) + b && Text(dir', 0) == a + (shown + [0x0a]) + b
    ensures SameLetters(Strip(name), shown) && ShortName(shown) == ShortName(name)
  {
    hide FreeTail, Line, ShortName, Strip, SameLetters;
    a, b := ListingChange(dir, dir', n);
    shown := LineOpens(dir'[n], name);
    StoredShows(dir'[n], name);
  }

  lemma StoredShows(e: Slot32, name: seq<byte>)
    requires ShortName(name) == Some(Name(e)) && !HasLabelBit(e) && ShortName(name).value[0] != 0xe5
    ensures e[0] != 0 && Listed(e)
  {
    hide ShortName;
    ShortNameFirst(name);
    assert e[0] == Name(e)[0];
    var base, ext := NameStands(name);
    FirstStored(Name(e), base, ext);
  }

  lemma FirstStored(e: seq<byte>, base: seq<byte>, ext: seq<byte>)
    requires Stands(e, base, ext) && Parts(base, ext)
    ensures e[0] != 0x2e
  {
    assert Stored(base[0], e[..8][0]) && Allowed(base[0]);
  }

  /** Writing to a file does not change the listing, nor does anything else that keeps names and attributes. */
  lemma RetitledListing(dir: seq<Slot32>, dir': seq<Slot32>, n: nat)
    requires FreeTail(dir) && FreeTail(dir') && OneSlot(dir, dir', n) && SameTitle(dir[n], dir'[n])
    ensures Text(dir', 0) == Text(dir, 0)
  {
    hide FreeTail;
    var a, b := ListingChange(dir, dir', n);
    assert forall i :: 0 <= i < 11 ==> dir'[n][i] == Name(dir'[n])[i] == Name(dir[n])[i] == dir[n][i];
    TitleLine(dir[n], dir'[n]);
  }

  lemma TitleLine(e: Slot32, e': Slot32)
    requires SameTitle(e, e')
    ensures Line(e') == Line(e) && (Listed(e') <==> Listed(e)) && e'[0] == e[0]
  {
    assert e[..11] == e'[..11];
    assert forall i :: 0 <= i < 11 ==> e[i] == e[..11][i] && e'[i] == e'[..11][i];
    assert e[..8] == e'[..8] && e[8..11] == e'[8..11];
  }
}
