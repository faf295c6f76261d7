/** What stands in a directory entry, byte by byte, for a name a caller gives, and back. */
module Fat32Spelling {
  import opened Basics
  import opened Fat32Volume
  import opened Fat32Names
  import opened Fat32Handles

  /** Letters, digits, some punctuation, and everything from 0x7f up may stand in a name. */
  predicate Allowed(c: byte) {
    || 0x30 <= c <= 0x39 || 0x41 <= c <= 0x5a || 0x61 <= c <= 0x7a || c >= 0x7f
    || c == 0x21 || 0x23 <= c <= 0x29 || c == 0x2d || c == 0x40 || 0x5e <= c <= 0x60 || c == 0x7b || c == 0x7d || c == 0x7e
  }

  ghost predicate AllAllowed(s: seq<byte>) {
    forall i :: 0 <= i < |s| ==> Allowed(s[i])
  }

  /** The stored byte is the given one, or 0x20 less when that is a small letter. */
  predicate Stored(given: byte, stored: byte) {
    stored as int == given as int - (if 0x61 <= given <= 0x7a then 0x20 else 0)
  }

  /** The bytes `field` of an entry hold `part` from the left, in capitals, and spaces after it. */
  ghost predicate Fills(field: seq<byte>, part: seq<byte>) {
    && |part| <= |field|
    && (forall i :: 0 <= i < |part| ==> Stored(part[i], field[i]))
    && (forall i :: |part| <= i < |field| ==> field[i] == 0x20)
  }

  /** Eight bytes for the base, three for the extension. */
  ghost predicate Stands(e: seq<byte>, base: seq<byte>, ext: seq<byte>) {
    |e| == 11 && Fills(e[..8], base) && Fills(e[8..], ext)
  }

  /** A base of one to eight bytes and an extension of at most three. */
  ghost predicate Parts(base: seq<byte>, ext: seq<byte>) {
    1 <= |base| <= 8 && |ext| <= 3 && AllAllowed(base) && AllAllowed(ext)
  }

  function Spelled(base: seq<byte>, ext: seq<byte>): seq<byte> {
    base + if ext == [] then [] else [0x2e] + ext
  }

  lemma AllowedIsGood(c: byte)
    ensures Allowed(c) <==> Good(c)
  {
  }

  lemma UpperStored(c: byte)
    ensures Stored(c, Upper(c)) && !(0x61 <= Upper(c) <= 0x7a)
  {
  }

  lemma PaddedFills(s: seq<byte>, n: nat)
    requires |s| <= n
    ensures Fills(Pad(UpperAll(s), n), s) && forall i :: 0 <= i < n ==> !(0x61 <= Pad(UpperAll(s), n)[i] <= 0x7a)
  {
    hide Stored, Upper;
    forall i | 0 <= i < n
      ensures i < |s| ==> Stored(s[i], Pad(UpperAll(s), n)[i])
      ensures i >= |s| ==> Pad(UpperAll(s), n)[i] == 0x20
      ensures !(0x61 <= Pad(UpperAll(s), n)[i] <= 0x7a)
    {
      PadAt(s, n, i);
      if i < |s| {
        UpperStored(s[i]);
      }
    }
  }

  lemma ShortParts(s: seq<byte>)
    requires IsShort(s)
    ensures var base, ext := s[..DotFrom(s, 0)], Ext(s); Parts(base, ext) && s == Spelled(base, ext)
  {
    hide Good, Allowed, DotFrom;
    var d := DotFrom(s, 0);
    var base, ext := s[..d], Ext(s);
    forall i | 0 <= i < |base|
      ensures Allowed(base[i])
    {
      AllowedIsGood(base[i]);
    }
    forall i | 0 <= i < |ext|
      ensures Allowed(ext[i])
    {
      AllowedIsGood(ext[i]);
    }
  }

  /**
   * A name that is accepted is a base with an extension or none, perhaps after a slash. Both stand in the entry in capitals,
   * at 0 and at 8, with spaces after them, and no small letter stands anywhere.
   */
  lemma NameStands(name: seq<byte>) returns (base: seq<byte>, ext: seq<byte>)
    requires ShortName(name).Some?
    ensures Parts(base, ext) && (name == Spelled(base, ext) || name == [0x2f] + Spelled(base, ext))
    ensures Stands(ShortName(name).value, base, ext)
    ensures forall i :: 0 <= i < 11 ==> !(0x61 <= ShortName(name).value[i] <= 0x7a)
  {
    hide Fills, Parts, IsShort, UpperAll, Pad, DotFrom, Ext;
    var s := Strip(name);
    base, ext := s[..DotFrom(s, 0)], Ext(s);
    ShortParts(s);
    assert name == s || name == [0x2f] + s;
    PartLengths(base, ext);
    PaddedFills(base, 8);
    PaddedFills(ext, 3);
    var a, b, e := Pad(UpperAll(base), 8), Pad(UpperAll(ext), 3), ShortName(name).value;
    assert e == a + b && e[..8] == a && e[8..] == b;
    assert forall i :: 8 <= i < 11 ==> e[i] == b[i - 8];
  }

  lemma PartLengths(base: seq<byte>, ext: seq<byte>)
    requires Parts(base, ext)
    ensures 1 <= |base| <= 8 && |ext| <= 3
  {
  }

  lemma SpelledIsShort(base: seq<byte>, ext: seq<byte>)
    requires Parts(base, ext)
    ensures var s := Spelled(base, ext); IsShort(s) && s[0] != 0x2f && s[..DotFrom(s, 0)] == base && Ext(s) == ext
  {
    var s := Spelled(base, ext);
    forall i | 0 <= i < |base|
      ensures Good(base[i]) && s[i] == base[i]
    {
      AllowedIsGood(base[i]);
    }
    forall i | 0 <= i < |ext|
      ensures Good(ext[i])
    {
      AllowedIsGood(ext[i]);
    }
    hide Good, Allowed;
    GoodFirst(base);
    assert DotFrom(s, 0) == |base| by {
      assert ext != [] ==> s[|base|] == 0x2e;
      NoDots(base);
    }
    assert s[..|base|] == base;
    assert ext != [] ==> s[|base| + 1..] == ext;
  }

  lemma GoodFirst(s: seq<byte>)
    requires |s| > 0 && AllGood(s)
    ensures s[0] != 0x2f
  {
  }

  lemma NoDots(s: seq<byte>)
    requires AllGood(s)
    ensures forall i :: 0 <= i < |s| ==> s[i] != 0x2e
  {
  }

  /** Every such name is accepted, with or without a slash in front, and stands in the entry the same way. */
  lemma NameAccepted(base: seq<byte>, ext: seq<byte>)
    requires Parts(base, ext)
    ensures var s := Spelled(base, ext);
            ShortName(s).Some? && Stands(ShortName(s).value, base, ext) && ShortName([0x2f] + s) == ShortName(s)
  {
    hide Fills, IsShort, UpperAll, Pad, DotFrom, Ext, Parts;
    var s := Spelled(base, ext);
    SpelledIsShort(base, ext);
    PartLengths(base, ext);
    assert Strip(s) == s && Strip([0x2f] + s) == s by {
      assert ([0x2f] + s)[1..] == s;
    }
    PaddedFills(base, 8);
    PaddedFills(ext, 3);
    var e := ShortName(s).value;
    assert e[..8] == Pad(UpperAll(base), 8) && e[8..] == Pad(UpperAll(ext), 3);
  }

  // ----- Capitals and small letters

  /** The same bytes, or the same letter. */
  predicate SameLetter(a: byte, b: byte) {
    a == b || (0x61 <= a <= 0x7a && b as int == a as int - 0x20) || (0x61 <= b <= 0x7a && a as int == b as int - 0x20)
  }

  ghost predicate SameLetters(a: seq<byte>, b: seq<byte>) {
    |a| == |b| && forall i :: 0 <= i < |a| ==> SameLetter(a[i], b[i])
  }

  lemma FillsOnce(f: seq<byte>, f': seq<byte>, a: seq<byte>, b: seq<byte>)
    requires Fills(f, a) && Fills(f', b) && SameLetters(a, b) && |f| == |f'|
    ensures f == f'
  {
    forall i | 0 <= i < |f|
      ensures f[i] == f'[i]
    {
      if i < |a| {
        assert SameLetter(a[i], b[i]);
      }
    }
  }

  /**
   * A file is found by its name however its letters are written: when an entry holds the bytes of a name, then that name and
   * every name that differs from it in case only lead to it.
   */
  lemma FoundByName(dir: seq<Slot32>, n: nat, base: seq<byte>, ext: seq<byte>, base': seq<byte>, ext': seq<byte>)
    requires n < |dir| && IsFile(dir[n]) && Stands(Name(dir[n]), base, ext)
    requires Parts(base', ext') && SameLetters(base, base') && SameLetters(ext, ext')
    ensures ShortName(Spelled(base', ext')) == Some(Name(dir[n]))
    ensures !NoFile(dir, ShortName(Spelled(base', ext')).value)
  {
    hide Fills, Parts, IsFile, ShortName, SameLetters;
    NameAccepted(base', ext');
    var e, e' := Name(dir[n]), ShortName(Spelled(base', ext')).value;
    FillsOnce(e[..8], e'[..8], base, base');
    FillsOnce(e[8..], e'[8..], ext, ext');
    assert e == e[..8] + e[8..] && e' == e'[..8] + e'[8..];
  }
}
