/** Base relocation of a loaded PE image, as `relocate_coff` does it in place. */
module Reloc {
  import opened Arithmetic
  import opened LittleEndian

  const ABSOLUTE := 0
  const HIGH := 1
  const LOW := 2
  const HIGHLOW := 3
  const DIR64 := 10

  const U64 := 0x1_0000_0000_0000_0000

  /** What the headers say: the image's size, the relocation table, the number of data directories. */
  datatype Layout = Layout(size: nat, table: nat, tableSize: nat, directories: nat) {
    /** The buffer's size is a C int, and no fixup reaches more than 0x1008 bytes past it. */
    predicate Fits(memory: nat) {
      size < 0x8000_0000 && table < U32 && tableSize < U32 && size + 0x1008 <= memory
    }
  }

  datatype Outcome = Outcome(ok: bool, memory: seq<Byte>)

  datatype Fixup = Fixup(at: nat, kind: nat)

  predicate Known(kind: nat) {
    kind == ABSOLUTE || kind == HIGH || kind == LOW || kind == HIGHLOW || kind == DIR64
  }

  function Width(kind: nat): (w: nat)
    ensures w == 2 || w == 4 || w == 8
  {
    if kind == DIR64 then 8 else if kind == HIGHLOW then 4 else 2
  }

  /** What a fixup adds to its field. */
  function Addend(kind: nat, adjust: nat): nat {
    if kind == HIGH then (adjust % U32) / 0x1_0000
    else if kind == LOW then adjust % 0x1_0000
    else if kind == HIGHLOW then adjust % U32
    else adjust
  }

  /** The field's number after the addition. */
  function Adjusted(kind: nat, x: nat, adjust: nat): nat {
    Mod(x + Addend(kind, adjust), Power(Width(kind)))
  }

  /** The memory after one fixup. */
  function Apply(m: seq<Byte>, f: Fixup, adjust: nat): (r: seq<Byte>)
    requires f.at + 8 <= |m|
    ensures |r| == |m|
  {
    var w := Width(f.kind);
    Stored(m, f.at, Digits(Field(m, f.at, w) + Addend(f.kind, adjust), w))
  }

  function FixupAt(m: seq<Byte>, reloc: nat, base: nat): Fixup
    requires reloc + 2 <= |m|
  {
    var entry := Field(m, reloc, 2);
    Fixup(base + entry % 0x1000, entry / 0x1000)
  }

  lemma EntryInReach(m: seq<Byte>, reloc: nat, base: nat, l: Layout)
    requires l.Fits(|m|) && reloc + 2 <= |m| && base <= l.size
    ensures FixupAt(m, reloc, base).at + 8 <= |m|
  {
  }

  // The run, step by step, on the memory that it changes.

  function RunEntries(l: Layout, m: seq<Byte>, reloc: nat, end: nat, base: nat, adjust: nat): (r: Outcome)
    requires l.Fits(|m|) && end <= l.size && base <= l.size
    ensures |r.memory| == |m|
    decreases end - reloc
  {
    if reloc >= end then Outcome(true, m)
    else
      var f := FixupAt(m, reloc, base);
      if !Known(f.kind) then Outcome(false, m)
      else RunEntries(l, if f.kind == ABSOLUTE then m else Apply(m, f, adjust), reloc + 2, end, base, adjust)
  }

  predicate BadBlock(l: Layout, m: seq<Byte>, block: nat)
    requires l.Fits(|m|) && block <= l.size
  {
    var size := Field(m, block + 4, 4);
    size == 0 || size > l.tableSize || block + size > l.size || Field(m, block, 4) > l.size
  }

  function RunBlocks(l: Layout, m: seq<Byte>, block: nat, last: nat, adjust: nat): (r: Outcome)
    requires l.Fits(|m|) && last <= l.size
    ensures |r.memory| == |m|
    decreases last - block
  {
    if block >= last then Outcome(true, m)
    else if BadBlock(l, m, block) then Outcome(false, m)
    else
      var end := block + Field(m, block + 4, 4);
      var r := RunEntries(l, m, block + 8, end, Field(m, block, 4), adjust);
      if r.ok then RunBlocks(l, r.memory, end, last, adjust) else r
  }

  function Last(l: Layout): nat {
    Wrap(l.table + l.tableSize - 1)
  }

  predicate HasTable(l: Layout) {
    l.directories > 5 && l.table <= l.size && Last(l) <= l.size
  }

  function Relocated(l: Layout, m: seq<Byte>, adjust: nat): Outcome
    requires l.Fits(|m|)
  {
    if !HasTable(l) then Outcome(false, m)
    else if adjust == 0 then Outcome(true, m)
    else RunBlocks(l, m, l.table, Last(l), adjust)
  }

  // The loops.

  method AddTo(memory: array<Byte>, at: nat, width: nat, addend: nat)
    requires at + width <= memory.Length
    modifies memory
    ensures memory[..] == Stored(old(memory[..]), at, Digits(Field(old(memory[..]), at, width) + addend, width))
  {
    var digits := Digits(Field(memory[..], at, width) + addend, width);
    forall i | 0 <= i < width {
      memory[at + i] := digits[i];
    }
  }

  method FixBlock(l: Layout, memory: array<Byte>, first: nat, end: nat, base: nat, adjust: nat) returns (ok: bool)
    requires l.Fits(memory.Length) && end <= l.size && base <= l.size
    modifies memory
    ensures Outcome(ok, memory[..]) == RunEntries(l, old(memory[..]), first, end, base, adjust)
  {
    hide Stored, Field, Digits;
    var reloc := first;
    while reloc < end
      invariant reloc >= first
      invariant RunEntries(l, memory[..], reloc, end, base, adjust)
             == RunEntries(l, old(memory[..]), first, end, base, adjust)
    {
      EntryInReach(memory[..], reloc, base, l);
      var fixup := FixupAt(memory[..], reloc, base);
      if fixup.kind == HIGH {
        AddTo(memory, fixup.at, 2, (adjust % U32) / 0x1_0000);
      } else if fixup.kind == LOW {
        AddTo(memory, fixup.at, 2, adjust % 0x1_0000);
      } else if fixup.kind == HIGHLOW {
        AddTo(memory, fixup.at, 4, adjust % U32);
      } else if fixup.kind == DIR64 {
        AddTo(memory, fixup.at, 8, adjust);
      } else if fixup.kind != ABSOLUTE {
        return false;
      }
      reloc := reloc + 2;
    }
    return true;
  }

  /** Relocates the image in `memory` from `preferred` to `data`; the bytes past the image are what follows it. */
  method RelocateCoff(l: Layout, memory: array<Byte>, data: nat, preferred: nat) returns (ok: bool)
    requires l.Fits(memory.Length)
    modifies memory
    ensures Outcome(ok, memory[..]) == Relocated(l, old(memory[..]), (data - preferred) % U64)
  {
    hide Field, RunEntries, Wrap;
    if l.directories <= 5 {
      return false;
    }
    var last := Wrap(l.table + l.tableSize - 1);
    if l.table > l.size || last > l.size {
      return false;
    }
    var adjust := (data - preferred) % U64;
    if adjust == 0 {
      return true;
    }
    var block := l.table;
    while block < last
      invariant RunBlocks(l, memory[..], block, last, adjust)
             == RunBlocks(l, old(memory[..]), l.table, last, adjust)
      decreases last - block
    {
      var size := Field(memory[..], block + 4, 4);
      if size == 0 || size > l.tableSize {
        return false;
      }
      var end := block + size;
      if end > l.size {
        return false;
      }
      var base := Field(memory[..], block, 4);
      if base > l.size {
        return false;
      }
      var fine := FixBlock(l, memory, block + 8, end, base, adjust);
      if !fine {
        return false;
      }
      block := end;
    }
    return true;
  }

  // The table as a list of fixups.

  /** The fixups of a table, and where the last byte of it that is read ends. */
  datatype Parsed = Malformed | Table(fixups: seq<Fixup>, end: nat)

  ghost predicate InReach(fixups: seq<Fixup>, size: nat) {
    forall f :: f in fixups ==> f.at + 8 <= size
  }

  ghost predicate AllKnown(fixups: seq<Fixup>) {
    forall f :: f in fixups ==> Known(f.kind) && f.kind != ABSOLUTE
  }

  function ParseEntries(l: Layout, m: seq<Byte>, reloc: nat, end: nat, base: nat): (r: Parsed)
    requires l.Fits(|m|) && end <= l.size && base <= l.size
    ensures r.Table? ==> reloc <= r.end <= Max(reloc, end + 1)
    ensures r.Table? ==> InReach(r.fixups, |m|) && AllKnown(r.fixups)
    decreases end - reloc
  {
    if reloc >= end then Table([], reloc)
    else
      var f := FixupAt(m, reloc, base);
      if !Known(f.kind) then Malformed
      else
        match ParseEntries(l, m, reloc + 2, end, base)
        case Malformed => Malformed
        case Table(rest, e) => Table((if f.kind == ABSOLUTE then [] else [f]) + rest, e)
  }

  function Max(a: nat, b: nat): nat {
    if a < b then b else a
  }

  function Both(a: Parsed, b: Parsed): (r: Parsed)
    ensures r.Table? <==> a.Table? && b.Table?
    ensures r.Table? ==> a.end <= r.end && b.end <= r.end && (r.end == a.end || r.end == b.end)
    ensures r.Table? ==> r.fixups == a.fixups + b.fixups
  {
    if a.Malformed? || b.Malformed? then Malformed else Table(a.fixups + b.fixups, Max(a.end, b.end))
  }

  function ParseBlocks(l: Layout, m: seq<Byte>, block: nat, last: nat): (r: Parsed)
    requires l.Fits(|m|) && last <= l.size
    ensures r.Table? ==> block <= r.end && (block <= l.size ==> r.end <= l.size + 8)
    ensures r.Table? ==> InReach(r.fixups, |m|) && AllKnown(r.fixups)
    decreases last - block
  {
    if block >= last then Table([], block)
    else if BadBlock(l, m, block) then Malformed
    else
      var end := block + Field(m, block + 4, 4);
      Both(ParseEntries(l, m, block + 8, end, Field(m, block, 4)), ParseBlocks(l, m, end, last))
  }

  ghost function ApplyAll(m: seq<Byte>, fixups: seq<Fixup>, adjust: nat): (r: seq<Byte>)
    requires InReach(fixups, |m|)
    ensures |r| == |m|
    decreases |fixups|
  {
    if fixups == [] then m else ApplyAll(Apply(m, fixups[0], adjust), fixups[1..], adjust)
  }

  /** No fixup's field touches the bytes from `lo` to `hi`. */
  ghost predicate Clear(fixups: seq<Fixup>, lo: nat, hi: nat) {
    forall f :: f in fixups ==> f.at + Width(f.kind) <= lo || hi <= f.at
  }

  lemma StoredKeeps(m: seq<Byte>, at: nat, digits: seq<Byte>, lo: nat, hi: nat)
    requires at + |digits| <= |m| && lo <= hi <= |m|
    requires at + |digits| <= lo || hi <= at
    ensures Stored(m, at, digits)[lo..hi] == m[lo..hi]
  {
  }

  lemma ApplyKeepsOne(m: seq<Byte>, f: Fixup, adjust: nat, lo: nat, hi: nat)
    requires f.at + 8 <= |m| && lo <= hi <= |m|
    requires f.at + Width(f.kind) <= lo || hi <= f.at
    ensures Apply(m, f, adjust)[lo..hi] == m[lo..hi]
  {
    hide Field, Digits, Stored, Width, Addend;
    var w := Width(f.kind);
    StoredKeeps(m, f.at, Digits(Field(m, f.at, w) + Addend(f.kind, adjust), w), lo, hi);
  }

  lemma {:induction false} ApplyKeeps(m: seq<Byte>, fixups: seq<Fixup>, adjust: nat, lo: nat, hi: nat)
    requires InReach(fixups, |m|)
    requires Clear(fixups, lo, hi) && lo <= hi <= |m|
    ensures Same(m, ApplyAll(m, fixups, adjust), lo, hi)
    decreases |fixups|
  {
    if fixups == [] {
    } else {
      hide Apply, Width;
      ApplyKeepsOne(m, fixups[0], adjust, lo, hi);
      ApplyKeeps(Apply(m, fixups[0], adjust), fixups[1..], adjust, lo, hi);
    }
  }

  /** The memories have the same bytes from `lo` to `hi`. */
  ghost predicate Same(m: seq<Byte>, n: seq<Byte>, lo: nat, hi: nat)
    requires lo <= hi <= |m| && |m| == |n|
  {
    m[lo..hi] == n[lo..hi]
  }

  lemma SameField(m: seq<Byte>, n: seq<Byte>, lo: nat, hi: nat, at: nat, width: nat)
    requires lo <= at && at + width <= hi <= |m| && |m| == |n| && Same(m, n, lo, hi)
    ensures Field(m, at, width) == Field(n, at, width)
  {
    forall i | at <= i < at + width
      ensures m[i] == n[i]
    {
      assert m[i] == m[lo..hi][i - lo] && n[i] == n[lo..hi][i - lo];
    }
    assert m[at..at + width] == n[at..at + width];
  }

  lemma {:induction false} EntriesDependOnTable(l: Layout, m: seq<Byte>, n: seq<Byte>, lo: nat, hi: nat,
                                                reloc: nat, end: nat, base: nat)
    requires l.Fits(|m|) && end <= l.size && base <= l.size
    requires |m| == |n| && lo <= reloc && lo <= hi <= |m| && Same(m, n, lo, hi)
    requires ParseEntries(l, m, reloc, end, base).Table? && ParseEntries(l, m, reloc, end, base).end <= hi
    ensures ParseEntries(l, n, reloc, end, base) == ParseEntries(l, m, reloc, end, base)
    decreases end - reloc
  {
    if reloc >= end {
    } else {
      SameField(m, n, lo, hi, reloc, 2);
      hide Field;
      EntriesDependOnTable(l, m, n, lo, hi, reloc + 2, end, base);
    }
  }

  lemma SameBlock(l: Layout, m: seq<Byte>, n: seq<Byte>, lo: nat, hi: nat, block: nat)
    requires l.Fits(|m|) && block <= l.size
    requires |m| == |n| && lo <= block && lo <= hi <= |m| && block + 8 <= hi && Same(m, n, lo, hi)
    ensures BadBlock(l, n, block) == BadBlock(l, m, block)
    ensures Field(n, block, 4) == Field(m, block, 4) && Field(n, block + 4, 4) == Field(m, block + 4, 4)
    ensures !BadBlock(l, m, block) ==>
              block < block + Field(m, block + 4, 4) <= l.size && Field(m, block, 4) <= l.size
  {
    SameField(m, n, lo, hi, block, 4);
    SameField(m, n, lo, hi, block + 4, 4);
    hide Field;
  }

  lemma ParseNext(l: Layout, m: seq<Byte>, block: nat, last: nat)
    requires l.Fits(|m|) && block < last <= l.size
    ensures ParseBlocks(l, m, block, last).Table? ==> !BadBlock(l, m, block)
    ensures !BadBlock(l, m, block) ==>
              var end, base := block + Field(m, block + 4, 4), Field(m, block, 4);
              && block < end <= l.size && base <= l.size
              && ParseBlocks(l, m, block, last)
                 == Both(ParseEntries(l, m, block + 8, end, base), ParseBlocks(l, m, end, last))
  {
    hide Field, ParseEntries, Both;
  }

  /** The parts of a table that can be read end where it ends, or before. */
  lemma PartsFit(l: Layout, m: seq<Byte>, block: nat, last: nat, hi: nat)
    requires l.Fits(|m|) && block < last <= l.size
    requires ParseBlocks(l, m, block, last).Table? && ParseBlocks(l, m, block, last).end <= hi
    ensures !BadBlock(l, m, block) && block + 8 <= hi
    ensures var end, base := block + Field(m, block + 4, 4), Field(m, block, 4);
            && block < end <= l.size && base <= l.size
            && ParseEntries(l, m, block + 8, end, base).Table? && ParseEntries(l, m, block + 8, end, base).end <= hi
            && ParseBlocks(l, m, end, last).Table? && ParseBlocks(l, m, end, last).end <= hi
  {
    ParseNext(l, m, block, last);
    hide Field, ParseBlocks, ParseEntries, BadBlock, Both, InReach, AllKnown;
  }

  lemma ParseIs(l: Layout, m: seq<Byte>, block: nat, last: nat, end: nat, base: nat)
    requires l.Fits(|m|) && block < last <= l.size && !BadBlock(l, m, block)
    requires end == block + Field(m, block + 4, 4) && base == Field(m, block, 4)
    ensures end <= l.size && base <= l.size
    ensures ParseBlocks(l, m, block, last)
         == Both(ParseEntries(l, m, block + 8, end, base), ParseBlocks(l, m, end, last))
  {
    hide Field, ParseEntries, Both;
  }

  lemma {:induction false} BlocksDependOnTable(l: Layout, m: seq<Byte>, n: seq<Byte>, lo: nat, hi: nat,
                                               block: nat, last: nat)
    requires l.Fits(|m|) && last <= l.size
    requires |m| == |n| && lo <= block && lo <= hi <= |m| && Same(m, n, lo, hi)
    requires ParseBlocks(l, m, block, last).Table? && ParseBlocks(l, m, block, last).end <= hi
    ensures ParseBlocks(l, n, block, last) == ParseBlocks(l, m, block, last)
    decreases last - block
  {
    if block >= last {
    } else {
      hide Field, ParseEntries, BadBlock, ParseBlocks, Same, InReach, AllKnown;
      PartsFit(l, m, block, last, hi);
      SameBlock(l, m, n, lo, hi, block);
      var end, base := block + Field(m, block + 4, 4), Field(m, block, 4);
      EntriesDependOnTable(l, m, n, lo, hi, block + 8, end, base);
      BlocksDependOnTable(l, m, n, lo, hi, end, last);
      ParseIs(l, m, block, last, end, base);
      ParseIs(l, n, block, last, end, base);
    }
  }

  lemma {:induction false} ApplyJoin(m: seq<Byte>, f: seq<Fixup>, g: seq<Fixup>, adjust: nat)
    requires InReach(f, |m|) && InReach(g, |m|)
    ensures InReach(f + g, |m|)
    ensures ApplyAll(m, f + g, adjust) == ApplyAll(ApplyAll(m, f, adjust), g, adjust)
    decreases |f|
  {
    if f == [] {
      assert f + g == g;
    } else {
      hide Apply;
      assert (f + g)[0] == f[0] && (f + g)[1..] == f[1..] + g;
      ApplyJoin(Apply(m, f[0], adjust), f[1..], g, adjust);
    }
  }

  lemma OneFixup(m: seq<Byte>, f: Fixup, adjust: nat)
    requires f.at + 8 <= |m|
    ensures ApplyAll(m, [f], adjust) == Apply(m, f, adjust)
  {
    hide Apply;
    assert [f][1..] == [];
  }

  lemma {:induction false} EntriesApply(l: Layout, m: seq<Byte>, lo: nat, hi: nat,
                                        reloc: nat, end: nat, base: nat, adjust: nat)
    requires l.Fits(|m|) && end <= l.size && base <= l.size
    requires lo <= reloc && lo <= hi <= |m|
    requires ParseEntries(l, m, reloc, end, base).Table? && ParseEntries(l, m, reloc, end, base).end <= hi
    requires Clear(ParseEntries(l, m, reloc, end, base).fixups, lo, hi)
    ensures RunEntries(l, m, reloc, end, base, adjust)
         == Outcome(true, ApplyAll(m, ParseEntries(l, m, reloc, end, base).fixups, adjust))
    decreases end - reloc
  {
    if reloc >= end {
    } else {
      hide Field, Apply, FixupAt;
      var f := FixupAt(m, reloc, base);
      EntryInReach(m, reloc, base, l);
      var rest := ParseEntries(l, m, reloc + 2, end, base);
      assert rest.Table? && Known(f.kind);
      if f.kind == ABSOLUTE {
        assert [] + rest.fixups == rest.fixups;
        EntriesApply(l, m, lo, hi, reloc + 2, end, base, adjust);
      } else {
        var all := [f] + rest.fixups;
        assert all[0] == f && all[1..] == rest.fixups;
        OneFixup(m, f, adjust);
        ApplyKeeps(m, [f], adjust, lo, hi);
        var n := Apply(m, f, adjust);
        EntriesDependOnTable(l, m, n, lo, hi, reloc + 2, end, base);
        hide Known;
        EntriesApply(l, n, lo, hi, reloc + 2, end, base, adjust);
      }
    }
  }

  lemma RunIs(l: Layout, m: seq<Byte>, block: nat, last: nat, adjust: nat, end: nat, base: nat)
    requires l.Fits(|m|) && block < last <= l.size && !BadBlock(l, m, block)
    requires end == block + Field(m, block + 4, 4) && base == Field(m, block, 4)
    ensures end <= l.size && base <= l.size
    ensures var r := RunEntries(l, m, block + 8, end, base, adjust);
            r.ok ==> RunBlocks(l, m, block, last, adjust) == RunBlocks(l, r.memory, end, last, adjust)
  {
    hide Field, RunEntries;
  }

  lemma ClearParts(f: seq<Fixup>, g: seq<Fixup>, lo: nat, hi: nat)
    requires Clear(f + g, lo, hi)
    ensures Clear(f, lo, hi) && Clear(g, lo, hi)
  {
    assert forall x :: x in f || x in g ==> x in f + g;
    hide Width;
  }

  lemma {:induction false} BlocksApply(l: Layout, m: seq<Byte>, lo: nat, hi: nat, block: nat, last: nat, adjust: nat)
    requires l.Fits(|m|) && last <= l.size
    requires lo <= block && lo <= hi <= |m|
    requires ParseBlocks(l, m, block, last).Table? && ParseBlocks(l, m, block, last).end <= hi
    requires Clear(ParseBlocks(l, m, block, last).fixups, lo, hi)
    ensures RunBlocks(l, m, block, last, adjust)
         == Outcome(true, ApplyAll(m, ParseBlocks(l, m, block, last).fixups, adjust))
    decreases last - block
  {
    if block >= last {
    } else {
      hide Field, Apply, ParseEntries, RunEntries, RunBlocks, ApplyAll, Both, ParseBlocks, Same, Clear, InReach,
           AllKnown, BadBlock;
      PartsFit(l, m, block, last, hi);
      var end, base := block + Field(m, block + 4, 4), Field(m, block, 4);
      ParseIs(l, m, block, last, end, base);
      RunIs(l, m, block, last, adjust, end, base);
      var f := ParseEntries(l, m, block + 8, end, base).fixups;
      var g := ParseBlocks(l, m, end, last).fixups;
      ClearParts(f, g, lo, hi);
      EntriesApply(l, m, lo, hi, block + 8, end, base, adjust);
      var n := ApplyAll(m, f, adjust);
      ApplyKeeps(m, f, adjust, lo, hi);
      BlocksDependOnTable(l, m, n, lo, hi, end, last);
      BlocksApply(l, n, lo, hi, end, last, adjust);
      ApplyJoin(m, f, g, adjust);
    }
  }

  // What a sound table does to the fields.

  /** The fixups' fields do not overlap. */
  ghost predicate Apart(fixups: seq<Fixup>) {
    forall i, j :: 0 <= i < j < |fixups| ==>
      || fixups[i].at + Width(fixups[i].kind) <= fixups[j].at
      || fixups[j].at + Width(fixups[j].kind) <= fixups[i].at
  }

  ghost predicate Touched(fixups: seq<Fixup>, p: nat) {
    exists f :: f in fixups && f.at <= p < f.at + Width(f.kind)
  }

  ghost predicate Readable(l: Layout, m: seq<Byte>) {
    l.Fits(|m|) && HasTable(l) && ParseBlocks(l, m, l.table, Last(l)).Table?
  }

  ghost function Fixups(l: Layout, m: seq<Byte>): (r: seq<Fixup>)
    requires Readable(l, m)
    ensures InReach(r, |m|) && AllKnown(r)
  {
    ParseBlocks(l, m, l.table, Last(l)).fixups
  }

  /** The table can be read, and its fields touch neither one another nor the table. */
  ghost predicate Sound(l: Layout, m: seq<Byte>) {
    && Readable(l, m)
    && Apart(Fixups(l, m))
    && Clear(Fixups(l, m), l.table, ParseBlocks(l, m, l.table, Last(l)).end)
  }

  lemma FieldOfStored(m: seq<Byte>, at: nat, digits: seq<Byte>)
    requires at + |digits| <= |m|
    ensures Field(Stored(m, at, digits), at, |digits|) == Number(digits)
  {
    assert Stored(m, at, digits)[at..at + |digits|] == digits;
  }

  lemma FieldOfApplied(m: seq<Byte>, f: Fixup, adjust: nat)
    requires f.at + 8 <= |m|
    ensures var w := Width(f.kind);
            Field(Apply(m, f, adjust), f.at, w) == Adjusted(f.kind, Field(m, f.at, w), adjust)
  {
    hide Stored, Field, Addend, Digits, Power, Number;
    var w := Width(f.kind);
    var n := Field(m, f.at, w) + Addend(f.kind, adjust);
    FieldOfStored(m, f.at, Digits(n, w));
    NumberOfDigits(n, w);
  }

  /** A fixup whose field is clear of `g` leaves that field as it was. */
  lemma FieldKept(m: seq<Byte>, fixups: seq<Fixup>, adjust: nat, g: Fixup)
    requires g.at + 8 <= |m| && InReach(fixups, |m|)
    requires Clear(fixups, g.at, g.at + Width(g.kind))
    ensures Field(ApplyAll(m, fixups, adjust), g.at, Width(g.kind)) == Field(m, g.at, Width(g.kind))
  {
    hide Field, ApplyAll, Width, Clear;
    var hi := g.at + Width(g.kind);
    ApplyKeeps(m, fixups, adjust, g.at, hi);
    SameField(m, ApplyAll(m, fixups, adjust), g.at, hi, g.at, Width(g.kind));
  }

  lemma {:induction false} FieldsAdjusted(m: seq<Byte>, fixups: seq<Fixup>, adjust: nat, i: nat)
    requires InReach(fixups, |m|)
    requires Apart(fixups) && i < |fixups|
    ensures var f, w := fixups[i], Width(fixups[i].kind);
            Field(ApplyAll(m, fixups, adjust), f.at, w) == Adjusted(f.kind, Field(m, f.at, w), adjust)
    decreases |fixups|
  {
    hide Field, Apply, Adjusted, Width;
    var first, rest := fixups[0], fixups[1..];
    var n := Apply(m, first, adjust);
    if i == 0 {
      FieldOfApplied(m, first, adjust);
      assert Clear(rest, first.at, first.at + Width(first.kind));
      FieldKept(n, rest, adjust, first);
    } else {
      var f := fixups[i];
      assert rest[i - 1] == f;
      FieldsAdjusted(n, rest, adjust, i - 1);
      assert Clear([first], f.at, f.at + Width(f.kind));
      OneFixup(m, first, adjust);
      FieldKept(m, [first], adjust, f);
    }
  }

  lemma OthersKept(m: seq<Byte>, fixups: seq<Fixup>, adjust: nat, p: nat)
    requires InReach(fixups, |m|)
    requires p < |m| && !Touched(fixups, p)
    ensures ApplyAll(m, fixups, adjust)[p] == m[p]
  {
    ApplyKeeps(m, fixups, adjust, p, p + 1);
    assert ApplyAll(m, fixups, adjust)[p] == ApplyAll(m, fixups, adjust)[p..p + 1][0];
  }

  lemma NumberIsInjective(s: seq<Byte>, t: seq<Byte>)
    requires |s| == |t| && Number(s) == Number(t)
    ensures s == t
  {
    hide Number, Digits;
    DigitsOfNumber(s);
    DigitsOfNumber(t);
  }

  ghost predicate FieldsAgree(m: seq<Byte>, n: seq<Byte>, fixups: seq<Fixup>)
    requires |m| == |n| && InReach(fixups, |m|)
  {
    forall i {:trigger fixups[i]} :: 0 <= i < |fixups| ==>
      Field(m, fixups[i].at, Width(fixups[i].kind)) == Field(n, fixups[i].at, Width(fixups[i].kind))
  }

  lemma SameByte(m: seq<Byte>, n: seq<Byte>, at: nat, width: nat, p: nat)
    requires |m| == |n| && at + width <= |m| && Field(m, at, width) == Field(n, at, width)
    requires at <= p < at + width
    ensures m[p] == n[p]
  {
    hide Number;
    NumberIsInjective(m[at..at + width], n[at..at + width]);
    assert m[p] == m[at..at + width][p - at] && n[p] == n[at..at + width][p - at];
  }

  lemma SameMemory(m: seq<Byte>, n: seq<Byte>, fixups: seq<Fixup>)
    requires |m| == |n| && InReach(fixups, |m|)
    requires forall p :: 0 <= p < |m| && !Touched(fixups, p) ==> m[p] == n[p]
    requires FieldsAgree(m, n, fixups)
    ensures m == n
  {
    hide Width, Field;
    forall p | 0 <= p < |m|
      ensures m[p] == n[p]
    {
      if Touched(fixups, p) {
        var f :| f in fixups && f.at <= p < f.at + Width(f.kind);
        var i :| 0 <= i < |fixups| && fixups[i] == f;
        SameByte(m, n, fixups[i].at, Width(fixups[i].kind), p);
      }
    }
  }

  lemma ApplyNothing(m: seq<Byte>, fixups: seq<Fixup>)
    requires InReach(fixups, |m|)
    requires Apart(fixups)
    ensures ApplyAll(m, fixups, 0) == m
  {
    hide ApplyAll, Apart, Field, Power, Touched;
    var n := ApplyAll(m, fixups, 0);
    forall p | 0 <= p < |m| && !Touched(fixups, p)
      ensures m[p] == n[p]
    {
      OthersKept(m, fixups, 0, p);
    }
    forall i {:trigger fixups[i]} | 0 <= i < |fixups|
      ensures var w := Width(fixups[i].kind);
              Field(m, fixups[i].at, w) == Field(n, fixups[i].at, w)
    {
      FieldsAdjusted(m, fixups, 0, i);
    }
    SameMemory(m, n, fixups);
  }

  /** On a sound table the run is all fixups, in order, and keeps the table. */
  lemma RelocatedApplies(l: Layout, m: seq<Byte>, adjust: nat)
    requires Sound(l, m)
    ensures Relocated(l, m, adjust) == Outcome(true, ApplyAll(m, Fixups(l, m), adjust))
    ensures Sound(l, Relocated(l, m, adjust).memory)
    ensures Fixups(l, Relocated(l, m, adjust).memory) == Fixups(l, m)
  {
    hide ParseBlocks, RunBlocks, Apart;
    var hi := ParseBlocks(l, m, l.table, Last(l)).end;
    if adjust == 0 {
      ApplyNothing(m, Fixups(l, m));
    } else {
      BlocksApply(l, m, l.table, hi, l.table, Last(l), adjust);
    }
    var n := ApplyAll(m, Fixups(l, m), adjust);
    ApplyKeeps(m, Fixups(l, m), adjust, l.table, hi);
    BlocksDependOnTable(l, m, n, l.table, hi, l.table, Last(l));
  }

  /** Every field has its old value plus the adjustment, cut to the field's width; nothing else changes. */
  lemma RelocationAdjustsFields(l: Layout, m: seq<Byte>, adjust: nat)
    requires Sound(l, m)
    ensures Relocated(l, m, adjust).ok
    ensures forall i {:trigger Fixups(l, m)[i]} :: 0 <= i < |Fixups(l, m)| ==>
              var f, w := Fixups(l, m)[i], Width(Fixups(l, m)[i].kind);
              && Field(Relocated(l, m, adjust).memory, f.at, w)
                 == (Field(m, f.at, w) + Addend(f.kind, adjust)) % Power(w)
              && (f.kind != HIGH ==>
                  Field(Relocated(l, m, adjust).memory, f.at, w) == (Field(m, f.at, w) + adjust) % Power(w))
    ensures forall p :: 0 <= p < |m| && !Touched(Fixups(l, m), p) ==> Relocated(l, m, adjust).memory[p] == m[p]
  {
    hide Relocated, Field, Power, Fixups, Touched, Addend, ApplyAll;
    var fixups := Fixups(l, m);
    RelocatedApplies(l, m, adjust);
    forall i | 0 <= i < |fixups|
      ensures var f, w := fixups[i], Width(fixups[i].kind);
              && Field(Relocated(l, m, adjust).memory, f.at, w)
                 == (Field(m, f.at, w) + Addend(f.kind, adjust)) % Power(w)
              && (f.kind != HIGH ==>
                  Field(Relocated(l, m, adjust).memory, f.at, w) == (Field(m, f.at, w) + adjust) % Power(w))
    {
      FieldsAdjusted(m, fixups, adjust, i);
      assert fixups[i] in fixups;
      if fixups[i].kind != HIGH {
        AddendIsAdjust(fixups[i].kind, Field(m, fixups[i].at, Width(fixups[i].kind)), adjust);
      }
    }
    forall p | 0 <= p < |m| && !Touched(fixups, p)
      ensures Relocated(l, m, adjust).memory[p] == m[p]
    {
      OthersKept(m, fixups, adjust, p);
    }
  }

  lemma AddendIsAdjust(kind: nat, x: nat, adjust: nat)
    requires Known(kind) && kind != HIGH && kind != ABSOLUTE
    ensures (x + Addend(kind, adjust)) % Power(Width(kind)) == (x + adjust) % Power(Width(kind))
  {
    if kind == DIR64 {
    } else {
      CutAddend(kind, adjust);
      ModFirst(adjust, x, Power(Width(kind)));
      hide Addend, Power, Width;
    }
  }

  lemma CutAddend(kind: nat, adjust: nat)
    requires kind == LOW || kind == HIGHLOW
    ensures Addend(kind, adjust) == Mod(adjust, Power(Width(kind)))
  {
    WidthsOfInterest();
    hide Power;
  }

  // Relocating twice.

  predicate NoCarry(a: nat, b: nat) {
    a % 0x1_0000 + b % 0x1_0000 < 0x1_0000
  }

  ghost predicate Composes(fixups: seq<Fixup>, a: nat, b: nat) {
    (forall f :: f in fixups ==> f.kind != HIGH) || NoCarry(a, b)
  }

  lemma SumModulo(x: nat, a: nat, b: nat, p: nat)
    requires p > 0
    ensures Mod(Mod(x + Mod(a, p), p) + Mod(b, p), p) == Mod(x + Mod(a + b, p), p)
  {
    hide Mod;
    ModFirst(x + Mod(a, p), Mod(b, p), p);
    ModFirst(a, x + Mod(b, p), p);
    ModFirst(b, x + a, p);
    ModFirst(a + b, x, p);
    assert x + Mod(a, p) + Mod(b, p) == Mod(a, p) + (x + Mod(b, p));
    assert a + (x + Mod(b, p)) == Mod(b, p) + (x + a);
  }

  /** A sum cut to 64 bits and then to fewer. */
  lemma SumCut(a: nat, b: nat, p: nat, q: nat)
    requires a < U64 && b < U64 && 0 < p && p * q == U64
    ensures Mod((a + b) % U64, p) == Mod(a + b, p)
  {
    var over := if a + b < U64 then 0 else 1;
    var c := a + b - over * U64;
    QuotientIs(a + b, U64, over, c);
    assert (c / p + over * q) * p == (c / p) * p + over * (p * q);
    QuotientIs(a + b, p, c / p + over * q, c % p);
  }

  lemma AddendIsCut(kind: nat, adjust: nat)
    requires (kind == LOW || kind == HIGHLOW || kind == DIR64) && adjust < U64
    ensures Addend(kind, adjust) == Mod(adjust, Power(Width(kind)))
  {
    if kind == DIR64 {
      WidthsOfInterest();
      hide Power;
    } else {
      CutAddend(kind, adjust);
    }
  }

  lemma AddendOfSum(kind: nat, a: nat, b: nat)
    requires (kind == LOW || kind == HIGHLOW || kind == DIR64) && a < U64 && b < U64
    ensures Addend(kind, (a + b) % U64) == Mod(a + b, Power(Width(kind)))
  {
    WidthsOfInterest();
    hide Power, Mod;
    AddendIsCut(kind, (a + b) % U64);
    SumCut(a, b, Power(Width(kind)), if kind == LOW then 0x1_0000_0000_0000 else if kind == HIGHLOW then U32 else 1);
  }

  lemma AddendsCompose(kind: nat, x: nat, a: nat, b: nat)
    requires kind == LOW || kind == HIGHLOW || kind == DIR64
    requires a < U64 && b < U64
    ensures Adjusted(kind, Adjusted(kind, x, a), b) == Adjusted(kind, x, (a + b) % U64)
  {
    hide Addend, Power, Width, Mod;
    AddendIsCut(kind, a);
    AddendIsCut(kind, b);
    AddendOfSum(kind, a, b);
    SumModulo(x, a, b, Power(Width(kind)));
  }

  lemma HighHalf(n: nat)
    ensures n % U32 == 0x1_0000 * Addend(HIGH, n) + n % 0x1_0000
    ensures Addend(HIGH, n) < 0x1_0000
  {
  }

  lemma Halves(h: nat, k: nat, l: nat, high: nat, low: nat)
    requires h < 0x1_0000 && k < 0x1_0000 && l < 0x2_0000 && high < 0x1_0000 && low < 0x1_0000
    requires var sum := 0x1_0000 * (h + k) + l;
             0x1_0000 * high + low == if sum < U32 then sum else sum - U32
    ensures high == Mod(h + k + if l < 0x1_0000 then 0 else 1, 0x1_0000)
  {
  }

  lemma HighSum(a: nat, b: nat)
    requires a < U64 && b < U64
    ensures Addend(HIGH, (a + b) % U64)
         == Mod(Addend(HIGH, a) + Addend(HIGH, b) + if NoCarry(a, b) then 0 else 1, 0x1_0000)
  {
    var c := (a + b) % U64;
    HighHalf(a);
    HighHalf(b);
    HighHalf(c);
    SumCut(a, b, U32, U32);
    CarryOut(a, b, U32);
    hide Addend;
    Halves(Addend(HIGH, a), Addend(HIGH, b), a % 0x1_0000 + b % 0x1_0000, Addend(HIGH, c), c % 0x1_0000);
  }

  lemma CarryOut(a: nat, b: nat, p: nat)
    requires p > 0
    ensures (a + b) % p == if a % p + b % p < p then a % p + b % p else a % p + b % p - p
  {
    var carry := if a % p + b % p < p then 0 else 1;
    assert (a / p + b / p + carry) * p == (a / p) * p + (b / p) * p + carry * p;
    QuotientIs(a + b, p, a / p + b / p + carry, a % p + b % p - carry * p);
  }

  lemma NextDiffers(n: nat)
    ensures Mod(n + 1, 0x1_0000) != Mod(n, 0x1_0000)
  {
  }

  lemma CarryShows(x: nat, h: nat, k: nat, carry: nat)
    requires carry <= 1
    ensures Mod(Mod(x + h, 0x1_0000) + k, 0x1_0000) == Mod(x + Mod(h + k + carry, 0x1_0000), 0x1_0000) <==> carry == 0
  {
    hide Mod;
    ModFirst(x + h, k, 0x1_0000);
    ModFirst(h + k + carry, x, 0x1_0000);
    NextDiffers(x + h + k);
    assert h + k + carry + x == x + h + k + carry;
  }

  lemma HighsCompose(x: nat, a: nat, b: nat)
    requires a < U64 && b < U64
    ensures Adjusted(HIGH, Adjusted(HIGH, x, a), b) == Adjusted(HIGH, x, (a + b) % U64) <==> NoCarry(a, b)
  {
    hide Addend, Adjusted, Mod, NoCarry;
    HighSum(a, b);
    AdjustedHigh(x, a);
    AdjustedHigh(Adjusted(HIGH, x, a), b);
    AdjustedHigh(x, (a + b) % U64);
    CarryShows(x, Addend(HIGH, a), Addend(HIGH, b), if NoCarry(a, b) then 0 else 1);
  }

  lemma AdjustedHigh(x: nat, a: nat)
    ensures Adjusted(HIGH, x, a) == Mod(x + Addend(HIGH, a), 0x1_0000)
  {
    WidthsOfInterest();
    hide Power, Mod;
  }

  lemma FieldsCompose(kind: nat, x: nat, a: nat, b: nat)
    requires Known(kind) && kind != ABSOLUTE && a < U64 && b < U64
    ensures Adjusted(kind, Adjusted(kind, x, a), b) == Adjusted(kind, x, (a + b) % U64)
            <==> kind != HIGH || NoCarry(a, b)
  {
    hide Adjusted, NoCarry;
    if kind == HIGH {
      HighsCompose(x, a, b);
    } else {
      AddendsCompose(kind, x, a, b);
    }
  }

  /** One field after relocating by a and b, and after relocating by a + b. */
  lemma FieldTwice(m: seq<Byte>, fixups: seq<Fixup>, a: nat, b: nat, i: nat)
    requires InReach(fixups, |m|) && AllKnown(fixups)
    requires Apart(fixups) && i < |fixups| && a < U64 && b < U64
    ensures var f, w := fixups[i], Width(fixups[i].kind);
            Field(ApplyAll(ApplyAll(m, fixups, a), fixups, b), f.at, w)
            == Field(ApplyAll(m, fixups, (a + b) % U64), f.at, w)
            <==> f.kind != HIGH || NoCarry(a, b)
  {
    hide Field, Power, Adjusted, ApplyAll, Width, Apart;
    FieldsAdjusted(m, fixups, a, i);
    FieldsAdjusted(ApplyAll(m, fixups, a), fixups, b, i);
    FieldsAdjusted(m, fixups, (a + b) % U64, i);
    assert fixups[i] in fixups;
    FieldsCompose(fixups[i].kind, Field(m, fixups[i].at, Width(fixups[i].kind)), a, b);
  }

  lemma ApplyTwice(m: seq<Byte>, fixups: seq<Fixup>, a: nat, b: nat)
    requires InReach(fixups, |m|) && AllKnown(fixups)
    requires Apart(fixups) && a < U64 && b < U64
    ensures ApplyAll(ApplyAll(m, fixups, a), fixups, b) == ApplyAll(m, fixups, (a + b) % U64)
            <==> Composes(fixups, a, b)
  {
    hide Field, ApplyAll, Width, Apart, Touched;
    var c := (a + b) % U64;
    var n := ApplyAll(m, fixups, a);
    var twice, once := ApplyAll(n, fixups, b), ApplyAll(m, fixups, c);
    if Composes(fixups, a, b) {
      forall p | 0 <= p < |m| && !Touched(fixups, p)
        ensures twice[p] == once[p]
      {
        OthersKept(m, fixups, a, p);
        OthersKept(n, fixups, b, p);
        OthersKept(m, fixups, c, p);
      }
      forall i {:trigger fixups[i]} | 0 <= i < |fixups|
        ensures var w := Width(fixups[i].kind);
                Field(twice, fixups[i].at, w) == Field(once, fixups[i].at, w)
      {
        FieldTwice(m, fixups, a, b, i);
      }
      SameMemory(twice, once, fixups);
    } else {
      var f :| f in fixups && f.kind == HIGH;
      var i :| 0 <= i < |fixups| && fixups[i] == f;
      FieldTwice(m, fixups, a, b, i);
    }
  }

  /**
   * Relocating by a and then by b is relocating by a + b, if and only if there is
   * no HIGH fixup or the low halves of a and b add up without a carry.
   */
  lemma RelocatingTwice(l: Layout, m: seq<Byte>, a: nat, b: nat)
    requires Sound(l, m) && a < U64 && b < U64
    ensures l.Fits(|Relocated(l, m, a).memory|)
    ensures Relocated(l, Relocated(l, m, a).memory, b) == Relocated(l, m, (a + b) % U64)
            <==> Composes(Fixups(l, m), a, b)
  {
    hide Relocated, Fixups, ApplyAll, Composes;
    RelocatedApplies(l, m, a);
    RelocatedApplies(l, Relocated(l, m, a).memory, b);
    RelocatedApplies(l, m, (a + b) % U64);
    ApplyTwice(m, Fixups(l, m), a, b);
  }

  // An image whose relocation loses a carry.

  /** A table of one block with one HIGH entry, for the field at offset 12 of an image of 20 bytes. */
  function OneHigh(): seq<Byte> {
    seq(0x1020, i => if i == 0 then 12 else if i == 4 then 10 else if i == 9 then 0x10 else 0)
  }

  const ONE_HIGH := Layout(20, 0, 10, 6)

  lemma OneHighTable()
    ensures ONE_HIGH.Fits(|OneHigh()|)
    ensures ParseBlocks(ONE_HIGH, OneHigh(), 0, 9) == Table([Fixup(12, HIGH)], 10)
  {
    var l, m := ONE_HIGH, OneHigh();
    assert m[0..4] == [12, 0, 0, 0] && m[4..8] == [10, 0, 0, 0] && m[8..10] == [0, 0x10];
    FourBytes(12);
    FourBytes(10);
    assert Number([0, 0x10]) == 0x1000 by { assert [0, 0x10][1..] == [0x10] && [0x10][1..] == []; }
    assert Field(m, 0, 4) == 12 && Field(m, 4, 4) == 10 && Field(m, 8, 2) == 0x1000;
    hide Field, OneHigh;
    assert FixupAt(m, 8, 12) == Fixup(12, HIGH);
    assert ParseEntries(l, m, 10, 10, 12) == Table([], 10);
    assert ParseEntries(l, m, 8, 10, 12) == Table([Fixup(12, HIGH)] + [], 10);
    assert ParseBlocks(l, m, 10, 9) == Table([], 10);
    assert [Fixup(12, HIGH)] + [] == [Fixup(12, HIGH)];
  }

  lemma FourBytes(b: Byte)
    ensures Number([b, 0, 0, 0]) == b
  {
    assert [b, 0, 0, 0][1..] == [0, 0, 0] && [0, 0, 0][1..] == [0, 0] && [0, 0][1..] == [0] && [0][1..] == [];
    assert Number([0]) == 0 && Number([0, 0]) == 0 && Number([0, 0, 0]) == 0;
  }

  lemma OneHighIsSound()
    ensures Sound(ONE_HIGH, OneHigh()) && Fixups(ONE_HIGH, OneHigh()) == [Fixup(12, HIGH)]
  {
    OneHighTable();
    hide ParseBlocks, OneHigh;
    assert Last(ONE_HIGH) == 9;
  }

  lemma HighCarries(f: seq<Fixup>)
    requires f == [Fixup(12, HIGH)]
    ensures !Composes(f, 0x8000, 0x8000)
  {
    assert f[0] in f;
  }

  /** Moved twice by half of 0x10000, this image is not what it is when moved by 0x10000. */
  lemma OneHighLosesCarry()
    ensures Sound(ONE_HIGH, OneHigh())
    ensures ONE_HIGH.Fits(|Relocated(ONE_HIGH, OneHigh(), 0x8000).memory|)
    ensures Relocated(ONE_HIGH, Relocated(ONE_HIGH, OneHigh(), 0x8000).memory, 0x8000)
            != Relocated(ONE_HIGH, OneHigh(), 0x1_0000)
  {
    hide Fixups, OneHigh, Relocated, Composes, ParseBlocks, Apart, Clear;
    OneHighIsSound();
    RelocatingTwice(ONE_HIGH, OneHigh(), 0x8000, 0x8000);
    HighCarries(Fixups(ONE_HIGH, OneHigh()));
  }
}
