/** Relocation tables by their bytes: what an entry does, when a table is refused, and an image. */
module RelocTables {
  import opened LittleEndian
  import opened Reloc

  /** Where the blocks of the table start. */
  ghost function Starts(m: seq<Byte>, block: nat, last: nat): seq<nat>
    requires last + 8 <= |m|
    decreases last - block
  {
    if block >= last || Field(m, block + 4, 4) == 0 then []
    else [block] + Starts(m, block + Field(m, block + 4, 4), last)
  }

  ghost predicate IsEntry(m: seq<Byte>, block: nat, p: nat)
    requires block + 8 <= |m|
  {
    block + 8 <= p < block + Field(m, block + 4, 4) && (p - block) % 2 == 0
  }

  lemma {:induction false} EntryInBlock(l: Layout, m: seq<Byte>, reloc: nat, end: nat, base: nat, p: nat)
    requires l.Fits(|m|) && end <= l.size && base <= l.size
    requires ParseEntries(l, m, reloc, end, base).Table? && reloc <= p < end && (p - reloc) % 2 == 0
    ensures FixupAt(m, p, base).kind != 0 ==> FixupAt(m, p, base) in ParseEntries(l, m, reloc, end, base).fixups
    decreases end - reloc
  {
    hide FixupAt, Field;
    if p != reloc {
      EntryInBlock(l, m, reloc + 2, end, base, p);
    }
  }

  lemma {:induction false} EntryInTable(l: Layout, m: seq<Byte>, block: nat, last: nat, b: nat, p: nat)
    requires l.Fits(|m|) && last <= l.size && ParseBlocks(l, m, block, last).Table?
    requires b in Starts(m, block, last) && b + 8 <= |m| && IsEntry(m, b, p)
    ensures p + 2 <= |m|
    ensures
      var f := FixupAt(m, p, Field(m, b, 4));
      f.kind != 0 ==> f in ParseBlocks(l, m, block, last).fixups
    decreases last - block
  {
    hide FixupAt, Field, ParseEntries, BadBlock;
    ParseNext(l, m, block, last);
    var end, base := block + Field(m, block + 4, 4), Field(m, block, 4);
    if b == block {
      EntryInBlock(l, m, block + 8, end, base, p);
    } else {
      EntryInTable(l, m, end, last, b, p);
    }
  }

  /** On a sound table, an entry of type 10, 3 or 2 adds the adjustment to the eight, four or two bytes
      that it points to, and one of type 1 the adjustment's high half to two bytes. */
  lemma EntryIsApplied(l: Layout, m: seq<Byte>, adjust: nat, b: nat, p: nat)
    requires Sound(l, m)
    requires b in Starts(m, l.table, (l.table + l.tableSize - 1) % 0x1_0000_0000) && b + 8 <= |m| && IsEntry(m, b, p)
    ensures p + 2 <= |m| && Relocated(l, m, adjust).ok
    ensures
      var e, n := Field(m, p, 2), Relocated(l, m, adjust).memory;
      var at := Field(m, b, 4) + e % 0x1000;
      && e / 0x1000 in {0, 1, 2, 3, 10}
      && (e / 0x1000 != 0 ==> at + 8 <= |m| == |n|)
      && (e / 0x1000 == 10 ==> Field(n, at, 8) == (Field(m, at, 8) + adjust) % 0x1_0000_0000_0000_0000)
      && (e / 0x1000 == 3 ==> Field(n, at, 4) == (Field(m, at, 4) + adjust) % 0x1_0000_0000)
      && (e / 0x1000 == 2 ==> Field(n, at, 2) == (Field(m, at, 2) + adjust) % 0x1_0000)
      && (e / 0x1000 == 1 ==>
            Field(n, at, 2) == (Field(m, at, 2) + adjust % 0x1_0000_0000 / 0x1_0000) % 0x1_0000)
  {
    hide Field, Starts, ParseBlocks, Relocated, IsEntry, Apart, Clear;
    EntryInTable(l, m, l.table, Last(l), b, p);
    KnownEntry(l, m, l.table, Last(l), b, p);
    RelocatedApplies(l, m, adjust);
    var f := FixupAt(m, p, Field(m, b, 4));
    if f.kind != 0 {
      FieldMoves(l, m, adjust, f);
    }
    var n := Relocated(l, m, adjust).memory;
    hide Fixups, Sound, InReach, AllKnown, Relocated, FieldMoved;
    if f.kind == 10 {
      DirBecomes(m, n, f, adjust);
    } else if f.kind == 3 {
      HighLowBecomes(m, n, f, adjust);
    } else if f.kind == 2 {
      LowBecomes(m, n, f, adjust);
    } else if f.kind == 1 {
      HighBecomes(m, n, f, adjust);
    }
  }

  ghost predicate FieldMoved(m: seq<Byte>, n: seq<Byte>, f: Fixup, adjust: nat) {
    && f.at + 8 <= |m| == |n|
    && Field(n, f.at, Width(f.kind)) == Adjusted(f.kind, Field(m, f.at, Width(f.kind)), adjust)
  }

  lemma DirBecomes(m: seq<Byte>, n: seq<Byte>, f: Fixup, adjust: nat)
    requires FieldMoved(m, n, f, adjust) && f.kind == 10
    ensures Field(n, f.at, 8) == (Field(m, f.at, 8) + adjust) % 0x1_0000_0000_0000_0000
  {
    hide Field, Adjusted;
    DirAdjusted(Field(m, f.at, 8), adjust);
  }

  lemma HighLowBecomes(m: seq<Byte>, n: seq<Byte>, f: Fixup, adjust: nat)
    requires FieldMoved(m, n, f, adjust) && f.kind == 3
    ensures Field(n, f.at, 4) == (Field(m, f.at, 4) + adjust) % 0x1_0000_0000
  {
    hide Field, Adjusted;
    HighLowAdjusted(Field(m, f.at, 4), adjust);
  }

  lemma LowBecomes(m: seq<Byte>, n: seq<Byte>, f: Fixup, adjust: nat)
    requires FieldMoved(m, n, f, adjust) && f.kind == 2
    ensures Field(n, f.at, 2) == (Field(m, f.at, 2) + adjust) % 0x1_0000
  {
    hide Field, Adjusted;
    LowAdjusted(Field(m, f.at, 2), adjust);
  }

  lemma HighBecomes(m: seq<Byte>, n: seq<Byte>, f: Fixup, adjust: nat)
    requires FieldMoved(m, n, f, adjust) && f.kind == 1
    ensures Field(n, f.at, 2) == (Field(m, f.at, 2) + adjust % 0x1_0000_0000 / 0x1_0000) % 0x1_0000
  {
    hide Field, Adjusted;
    HighAdjusted(Field(m, f.at, 2), adjust);
  }

  lemma DirAdjusted(x: nat, adjust: nat)
    ensures Adjusted(10, x, adjust) == (x + adjust) % 0x1_0000_0000_0000_0000
  {
    WidthsOfInterest();
  }

  lemma HighLowAdjusted(x: nat, adjust: nat)
    ensures Adjusted(3, x, adjust) == (x + adjust) % 0x1_0000_0000
  {
    WidthsOfInterest();
  }

  lemma LowAdjusted(x: nat, adjust: nat)
    ensures Adjusted(2, x, adjust) == (x + adjust) % 0x1_0000
  {
    WidthsOfInterest();
  }

  lemma HighAdjusted(x: nat, adjust: nat)
    ensures Adjusted(1, x, adjust) == (x + adjust % 0x1_0000_0000 / 0x1_0000) % 0x1_0000
  {
    WidthsOfInterest();
  }

  lemma FieldMoves(l: Layout, m: seq<Byte>, adjust: nat, f: Fixup)
    requires Sound(l, m) && f in Fixups(l, m)
    ensures FieldMoved(m, Relocated(l, m, adjust).memory, f, adjust)
  {
    var fixups := Fixups(l, m);
    assert f.at + 8 <= |m|;
    hide Field, ApplyAll, Adjusted, Relocated, ParseBlocks, Clear;
    RelocatedApplies(l, m, adjust);
    var i :| 0 <= i < |fixups| && fixups[i] == f;
    FieldsAdjusted(m, fixups, adjust, i);
  }

  lemma {:induction false} KnownInBlock(l: Layout, m: seq<Byte>, reloc: nat, end: nat, base: nat, p: nat)
    requires l.Fits(|m|) && end <= l.size && base <= l.size
    requires ParseEntries(l, m, reloc, end, base).Table? && reloc <= p < end && (p - reloc) % 2 == 0
    ensures Field(m, p, 2) / 0x1000 in {0, 1, 2, 3, 10}
    decreases end - reloc
  {
    hide Field;
    if p != reloc {
      KnownInBlock(l, m, reloc + 2, end, base, p);
    }
  }

  lemma {:induction false} KnownEntry(l: Layout, m: seq<Byte>, block: nat, last: nat, b: nat, p: nat)
    requires l.Fits(|m|) && last <= l.size && ParseBlocks(l, m, block, last).Table?
    requires b in Starts(m, block, last) && b + 8 <= |m| && IsEntry(m, b, p)
    ensures p + 2 <= |m| && Field(m, p, 2) / 0x1000 in {0, 1, 2, 3, 10}
    decreases last - block
  {
    hide Field, ParseEntries, BadBlock;
    ParseNext(l, m, block, last);
    var end, base := block + Field(m, block + 4, 4), Field(m, block, 4);
    if b == block {
      KnownInBlock(l, m, block + 8, end, base, p);
    } else {
      KnownEntry(l, m, end, last, b, p);
    }
  }

  // When a table is refused.

  /** Every entry has a type that is supported. */
  ghost predicate TypesOk(m: seq<Byte>, first: nat, end: nat)
    requires end + 1 <= |m|
  {
    forall p {:trigger Field(m, p, 2)} :: first <= p < end && (p - first) % 2 == 0 ==>
      Field(m, p, 2) / 0x1000 in {0, 1, 2, 3, 10}
  }

  /** Up to the end of the table every block has a size that is not zero, is not longer than the table
      and does not lead out of the image, fields inside of the image and supported entries. */
  ghost predicate TableOk(l: Layout, m: seq<Byte>, block: nat, last: nat)
    requires l.Fits(|m|) && last <= l.size
    decreases last - block
  {
    block < last ==>
      var size := Field(m, block + 4, 4);
      && 0 < size <= l.tableSize && block + size <= l.size && Field(m, block, 4) <= l.size
      && TypesOk(m, block + 8, block + size)
      && TableOk(l, m, block + size, last)
  }

  /** The fixups of a block up to the first entry that is not supported. */
  ghost function Scanned(l: Layout, m: seq<Byte>, reloc: nat, end: nat, base: nat): seq<Fixup>
    requires l.Fits(|m|) && end <= l.size
    decreases end - reloc
  {
    if reloc >= end || !Known(FixupAt(m, reloc, base).kind) then []
    else
      var f := FixupAt(m, reloc, base);
      (if f.kind == 0 then [] else [f]) + Scanned(l, m, reloc + 2, end, base)
  }

  /** The table's fixups up to where it is refused, if it is. */
  ghost function ScannedTable(l: Layout, m: seq<Byte>, block: nat, last: nat): seq<Fixup>
    requires l.Fits(|m|) && last <= l.size
    decreases last - block
  {
    if block >= last || BadBlock(l, m, block) then []
    else
      var end := block + Field(m, block + 4, 4);
      Scanned(l, m, block + 8, end, Field(m, block, 4))
      + if TypesOk(m, block + 8, end) then ScannedTable(l, m, end, last) else []
  }

  /** The entries of two bytes that start before end lie below hi. */
  predicate EntriesBelow(first: nat, end: nat, hi: nat) {
    first < end ==> end + (end - first) % 2 <= hi
  }

  /** Everything that is read of the table lies below hi. */
  ghost predicate ReadBelow(l: Layout, m: seq<Byte>, block: nat, last: nat, hi: nat)
    requires l.Fits(|m|) && last <= l.size
    decreases last - block
  {
    block < last ==>
      && block + 8 <= hi
      && (!BadBlock(l, m, block) ==>
            var end := block + Field(m, block + 4, 4);
            && EntriesBelow(block + 8, end, hi)
            && ReadBelow(l, m, end, last, hi))
  }

  lemma TypesFromHere(m: seq<Byte>, reloc: nat, end: nat)
    requires reloc < end && end + 1 <= |m|
    ensures TypesOk(m, reloc, end) <==> Field(m, reloc, 2) / 0x1000 in {0, 1, 2, 3, 10} && TypesOk(m, reloc + 2, end)
  {
    hide Field;
    if Field(m, reloc, 2) / 0x1000 in {0, 1, 2, 3, 10} && TypesOk(m, reloc + 2, end) {
      forall p {:trigger Field(m, p, 2)} | reloc <= p < end && (p - reloc) % 2 == 0
        ensures Field(m, p, 2) / 0x1000 in {0, 1, 2, 3, 10}
      {
        assert p != reloc ==> reloc + 2 <= p && (p - (reloc + 2)) % 2 == 0;
      }
    }
    if TypesOk(m, reloc, end) {
      forall p {:trigger Field(m, p, 2)} | reloc + 2 <= p < end && (p - (reloc + 2)) % 2 == 0
        ensures Field(m, p, 2) / 0x1000 in {0, 1, 2, 3, 10}
      {
        assert (p - reloc) % 2 == 0;
      }
    }
  }

  /** A run over a block whose fixups leave the table alone: n is the memory as it has become. */
  lemma {:induction false} BlockRun(l: Layout, m: seq<Byte>, n: seq<Byte>, lo: nat, hi: nat, reloc: nat, end: nat,
                                    base: nat, adjust: nat)
    requires l.Fits(|m|) && |m| == |n| && end <= l.size && base <= l.size && lo <= reloc && lo <= hi <= |m|
    requires EntriesBelow(reloc, end, hi)
    requires Same(m, n, lo, hi) && Clear(Scanned(l, m, reloc, end, base), lo, hi)
    ensures
      var r := RunEntries(l, n, reloc, end, base, adjust);
      (r.ok <==> TypesOk(m, reloc, end)) && Same(m, r.memory, lo, hi)
    decreases end - reloc
  {
    assert l.size + 1 <= |m|;
    hide *;
    if reloc >= end {
      BlockEnds(l, m, n, reloc, end, base, adjust);
    } else {
      EntryStep(l, m, n, lo, hi, reloc, end, base, adjust);
      if Known(FixupAt(m, reloc, base).kind) {
        var next := NextMemory(l, m, n, lo, hi, reloc, end, base, adjust);
        BlockRun(l, m, next, lo, hi, reloc + 2, end, base, adjust);
      }
    }
  }

  lemma BlockEnds(l: Layout, m: seq<Byte>, n: seq<Byte>, reloc: nat, end: nat, base: nat, adjust: nat)
    requires l.Fits(|m|) && |m| == |n| && end <= reloc && end <= l.size && base <= l.size
    ensures RunEntries(l, n, reloc, end, base, adjust) == Outcome(true, n) && TypesOk(m, reloc, end)
  {
  }

  lemma EntryStep(l: Layout, m: seq<Byte>, n: seq<Byte>, lo: nat, hi: nat, reloc: nat, end: nat, base: nat, adjust: nat)
    requires l.Fits(|m|) && |m| == |n| && reloc < end <= l.size && base <= l.size && lo <= reloc && lo <= hi <= |m|
    requires EntriesBelow(reloc, end, hi) && Same(m, n, lo, hi)
    ensures EntriesBelow(reloc + 2, end, hi) && reloc + 2 <= |m|
    ensures FixupAt(n, reloc, base) == FixupAt(m, reloc, base)
    ensures TypesOk(m, reloc, end) <==> Known(FixupAt(m, reloc, base).kind) && TypesOk(m, reloc + 2, end)
    ensures
      var f, r := FixupAt(n, reloc, base), RunEntries(l, n, reloc, end, base, adjust);
      if !Known(f.kind) then r == Outcome(false, n)
      else
        && f.at + 8 <= |n|
        && r == RunEntries(l, if f.kind == 0 then n else Apply(n, f, adjust), reloc + 2, end, base, adjust)
  {
    SameField(m, n, lo, hi, reloc, 2);
    TypesFromHere(m, reloc, end);
    EntryInReach(n, reloc, base, l);
    hide Field, Apply, TypesOk;
  }

  lemma NextMemory(l: Layout, m: seq<Byte>, n: seq<Byte>, lo: nat, hi: nat, reloc: nat, end: nat, base: nat,
                   adjust: nat)
    returns (next: seq<Byte>)
    requires l.Fits(|m|) && |m| == |n| && reloc < end <= l.size && base <= l.size && lo <= hi <= |m|
    requires FixupAt(n, reloc, base) == FixupAt(m, reloc, base) && Known(FixupAt(m, reloc, base).kind)
    requires Same(m, n, lo, hi) && Clear(Scanned(l, m, reloc, end, base), lo, hi)
    ensures FixupAt(n, reloc, base).at + 8 <= |n|
    ensures var f := FixupAt(n, reloc, base); next == if f.kind == 0 then n else Apply(n, f, adjust)
    ensures Same(m, next, lo, hi) && Clear(Scanned(l, m, reloc + 2, end, base), lo, hi)
  {
    EntryInReach(n, reloc, base, l);
    hide Field, Apply;
    var f, rest := FixupAt(m, reloc, base), Scanned(l, m, reloc + 2, end, base);
    ClearParts(if f.kind == 0 then [] else [f], rest, lo, hi);
    next := if f.kind == 0 then n else Apply(n, f, adjust);
    if f.kind != 0 {
      assert f in [f];
      ApplyKeepsOne(n, f, adjust, lo, hi);
    }
  }

  lemma RunStep(l: Layout, m: seq<Byte>, block: nat, last: nat, adjust: nat)
    requires l.Fits(|m|) && block < last <= l.size
    ensures BadBlock(l, m, block) ==> !RunBlocks(l, m, block, last, adjust).ok
    ensures !BadBlock(l, m, block) ==>
              var end, base := block + Field(m, block + 4, 4), Field(m, block, 4);
              && block < end <= l.size && base <= l.size
              && var r := RunEntries(l, m, block + 8, end, base, adjust);
              && RunBlocks(l, m, block, last, adjust).ok == (r.ok && RunBlocks(l, r.memory, end, last, adjust).ok)
  {
    hide Field, RunEntries;
  }

  lemma TableStep(l: Layout, m: seq<Byte>, block: nat, last: nat, hi: nat)
    requires l.Fits(|m|) && block < last <= l.size && ReadBelow(l, m, block, last, hi)
    ensures block + 8 <= hi && (BadBlock(l, m, block) ==> !TableOk(l, m, block, last))
    ensures !BadBlock(l, m, block) ==>
              var end := block + Field(m, block + 4, 4);
              && block < end <= l.size && EntriesBelow(block + 8, end, hi) && ReadBelow(l, m, end, last, hi)
              && TableOk(l, m, block, last) == (TypesOk(m, block + 8, end) && TableOk(l, m, end, last))
  {
    hide Field, Scanned, TypesOk, EntriesBelow;
  }

  lemma ClearBlock(l: Layout, m: seq<Byte>, block: nat, last: nat, lo: nat, hi: nat)
    requires l.Fits(|m|) && block < last <= l.size && !BadBlock(l, m, block)
    requires Clear(ScannedTable(l, m, block, last), lo, hi)
    ensures
      var end, base := block + Field(m, block + 4, 4), Field(m, block, 4);
      && end <= l.size
      && Clear(Scanned(l, m, block + 8, end, base), lo, hi)
      && (TypesOk(m, block + 8, end) ==> Clear(ScannedTable(l, m, end, last), lo, hi))
  {
    hide Field, Scanned, TypesOk, Clear;
    var end, base := block + Field(m, block + 4, 4), Field(m, block, 4);
    ClearParts(Scanned(l, m, block + 8, end, base),
               if TypesOk(m, block + 8, end) then ScannedTable(l, m, end, last) else [], lo, hi);
  }

  /** n is what the memory m has become: what is still read of the table is as it was, and the fixups that
      are left leave it alone. */
  ghost predicate Intact(l: Layout, m: seq<Byte>, n: seq<Byte>, lo: nat, hi: nat, block: nat, last: nat) {
    && l.Fits(|m|) && |m| == |n| && last <= l.size && lo <= block && lo <= hi <= |m|
    && ReadBelow(l, m, block, last, hi)
    && Same(m, n, lo, hi) && Clear(ScannedTable(l, m, block, last), lo, hi)
  }

  lemma BlockIsRun(l: Layout, m: seq<Byte>, n: seq<Byte>, lo: nat, hi: nat, block: nat, last: nat, adjust: nat)
    returns (end: nat, r: Outcome)
    requires Intact(l, m, n, lo, hi, block, last) && block < last && !BadBlock(l, m, block)
    ensures block < end <= l.size && end == block + Field(m, block + 4, 4) && Field(m, block, 4) <= l.size
    ensures r == RunEntries(l, n, block + 8, end, Field(m, block, 4), adjust)
    ensures r.ok == TypesOk(m, block + 8, end)
    ensures r.ok ==> Intact(l, m, r.memory, lo, hi, end, last)
  {
    hide BadBlock, ScannedTable, Clear, ReadBelow, TypesOk, Same, Field, RunEntries, Scanned, TableOk, EntriesBelow;
    TableStep(l, m, block, last, hi);
    SameBlock(l, m, n, lo, hi, block);
    end := block + Field(m, block + 4, 4);
    ClearBlock(l, m, block, last, lo, hi);
    BlockRun(l, m, n, lo, hi, block + 8, end, Field(m, block, 4), adjust);
    r := RunEntries(l, n, block + 8, end, Field(m, block, 4), adjust);
  }

  /** What is left to run after it. */
  lemma RestIsRun(l: Layout, m: seq<Byte>, n: seq<Byte>, lo: nat, hi: nat, block: nat, last: nat, adjust: nat,
                  end: nat, r: Outcome)
    requires Intact(l, m, n, lo, hi, block, last) && block < last && !BadBlock(l, m, block)
    requires end == block + Field(m, block + 4, 4) && end <= l.size && Field(m, block, 4) <= l.size
    requires r == RunEntries(l, n, block + 8, end, Field(m, block, 4), adjust)
    ensures RunBlocks(l, n, block, last, adjust).ok == (r.ok && RunBlocks(l, r.memory, end, last, adjust).ok)
  {
    hide BadBlock, ScannedTable, Clear, ReadBelow, Same, Field, RunEntries, RunBlocks;
    TableStep(l, m, block, last, hi);
    SameBlock(l, m, n, lo, hi, block);
    RunStep(l, n, block, last, adjust);
  }

  lemma RestIsOk(l: Layout, m: seq<Byte>, n: seq<Byte>, lo: nat, hi: nat, block: nat, last: nat, end: nat)
    requires Intact(l, m, n, lo, hi, block, last) && block < last && !BadBlock(l, m, block)
    requires end == block + Field(m, block + 4, 4) && end <= l.size
    ensures TableOk(l, m, block, last) == (TypesOk(m, block + 8, end) && TableOk(l, m, end, last))
  {
    hide BadBlock, ScannedTable, Clear, ReadBelow, Same, Field, TableOk, TypesOk;
    TableStep(l, m, block, last, hi);
  }

  lemma TableEnds(l: Layout, m: seq<Byte>, block: nat, last: nat)
    requires l.Fits(|m|) && last <= l.size && last <= block
    ensures TableOk(l, m, block, last)
  {
  }

  lemma RunEnds(l: Layout, m: seq<Byte>, block: nat, last: nat, adjust: nat)
    requires l.Fits(|m|) && last <= l.size && last <= block
    ensures RunBlocks(l, m, block, last, adjust).ok
  {
  }

  /** A run over the table whose fixups leave what is read of it alone. */
  lemma {:induction false} TableRun(l: Layout, m: seq<Byte>, n: seq<Byte>, lo: nat, hi: nat, block: nat, last: nat,
                                    adjust: nat)
    requires Intact(l, m, n, lo, hi, block, last)
    ensures RunBlocks(l, n, block, last, adjust).ok <==> TableOk(l, m, block, last)
    decreases last - block
  {
    hide BadBlock, ScannedTable, Clear, ReadBelow, Same, RunBlocks, TableOk;
    if block >= last {
      TableEnds(l, m, block, last);
      RunEnds(l, n, block, last, adjust);
    } else if BadBlock(l, m, block) {
      TableStep(l, m, block, last, hi);
      SameBlock(l, m, n, lo, hi, block);
      RunStep(l, n, block, last, adjust);
    } else {
      hide Intact;
      var end, r := BlockIsRun(l, m, n, lo, hi, block, last, adjust);
      RestIsRun(l, m, n, lo, hi, block, last, adjust, end, r);
      RestIsOk(l, m, n, lo, hi, block, last, end);
      if r.ok {
        TableRun(l, m, r.memory, lo, hi, end, last, adjust);
      }
    }
  }

  /** No table, or one that leads out of the image, is refused; when there is nothing to adjust, any
      other is accepted.  A table whose fixups leave it alone is refused iff a block or an entry is bad. */
  lemma RefusedIff(l: Layout, m: seq<Byte>, adjust: nat, hi: nat)
    requires l.Fits(|m|)
    ensures
      var last := (l.table + l.tableSize - 1) % 0x1_0000_0000;
      var r := Relocated(l, m, adjust);
      if l.directories <= 5 || l.table > l.size || last > l.size then r == Outcome(false, m)
      else if adjust == 0 then r == Outcome(true, m)
      else
        && l.table <= hi <= |m| && ReadBelow(l, m, l.table, last, hi)
        && Clear(ScannedTable(l, m, l.table, last), l.table, hi)
        ==> (r.ok <==> TableOk(l, m, l.table, last))
  {
    hide RunBlocks, ReadBelow, ScannedTable, TableOk, Clear;
    var last := Last(l);
    if HasTable(l) && adjust != 0 && l.table <= hi <= |m| && ReadBelow(l, m, l.table, last, hi)
       && Clear(ScannedTable(l, m, l.table, last), l.table, hi) {
      TableRun(l, m, m, l.table, hi, l.table, last, adjust);
    }
  }

  // An image with entries of all types.

  /** Fields at 32 to 55, and at 64 a table of two blocks: types 0, 1, 2, 3 and 10, and type 10. */
  function ImageByte(i: nat): Byte {
    match i
    case 32 => 0xFF
    case 33 => 0xFF
    case 34 => 0x10
    case 36 => 0x01
    case 39 => 0xF0
    case 40 => 0x01
    case 48 => 0xFF
    case 49 => 0xFF
    case 50 => 0xFF
    case 51 => 0xFF
    case 52 => 0xFF
    case 53 => 0xFF
    case 54 => 0xFF
    case 55 => 0xFF
    case 56 => 0x77
    case 64 => 32
    case 68 => 18
    case 75 => 0x10
    case 76 => 0x02
    case 77 => 0x20
    case 78 => 0x04
    case 79 => 0x30
    case 80 => 0x08
    case 81 => 0xA0
    case 82 => 48
    case 86 => 10
    case 91 => 0xA0
    case 95 => 0x55
    case _ => 0
  }

  /** After a move by 0x1122334455667788. */
  function MovedByte(i: nat): Byte {
    match i
    case 32 => 0x65
    case 33 => 0x55
    case 34 => 0x98
    case 35 => 0x77
    case 36 => 0x89
    case 37 => 0x77
    case 38 => 0x66
    case 39 => 0x45
    case 40 => 0x89
    case 41 => 0x77
    case 42 => 0x66
    case 43 => 0x55
    case 44 => 0x44
    case 45 => 0x33
    case 46 => 0x22
    case 47 => 0x11
    case 48 => 0x87
    case 49 => 0x77
    case 50 => 0x66
    case 51 => 0x55
    case 52 => 0x44
    case 53 => 0x33
    case 54 => 0x22
    case 55 => 0x11
    case _ => ImageByte(i)
  }

  const L := Layout(96, 64, 28, 6)

  const A := 0x1122_3344_5566_7788

  ghost predicate IsImage(m: seq<Byte>) {
    |m| == 4200 && forall i :: 0 <= i < 4200 ==> m[i] == ImageByte(i)
  }

  lemma BlockHeads(m: seq<Byte>)
    requires IsImage(m)
    ensures Field(m, 64, 4) == 32 && Field(m, 68, 4) == 18 && Field(m, 82, 4) == 48 && Field(m, 86, 4) == 10
  {
    hide Field;
    SmallField(m, 64, 4);
    SmallField(m, 68, 4);
    SmallField(m, 82, 4);
    SmallField(m, 86, 4);
  }

  lemma Entries(m: seq<Byte>)
    requires IsImage(m)
    ensures Field(m, 72, 2) == 0 && Field(m, 74, 2) == 0x1000 && Field(m, 76, 2) == 0x2002
    ensures Field(m, 78, 2) == 0x3004 && Field(m, 80, 2) == 0xA008 && Field(m, 90, 2) == 0xA000
  {
    hide Field;
    SmallField(m, 72, 2);
    SmallField(m, 74, 2);
    SmallField(m, 76, 2);
    SmallField(m, 78, 2);
    SmallField(m, 80, 2);
    SmallField(m, 90, 2);
  }

  const FIXUPS := [Fixup(32, 1), Fixup(34, 2), Fixup(36, 3), Fixup(40, 10), Fixup(48, 10)]

  lemma FirstEntries(m: seq<Byte>)
    requires IsImage(m)
    ensures ParseEntries(L, m, 72, 82, 32) == Table(FIXUPS[..4], 82)
  {
    Entries(m);
    hide IsImage, Field;
    assert ParseEntries(L, m, 82, 82, 32) == Table([], 82);
    assert ParseEntries(L, m, 80, 82, 32) == Table([Fixup(40, 10)], 82);
    assert ParseEntries(L, m, 78, 82, 32) == Table([Fixup(36, 3), Fixup(40, 10)], 82);
    assert ParseEntries(L, m, 76, 82, 32) == Table([Fixup(34, 2), Fixup(36, 3), Fixup(40, 10)], 82);
    assert ParseEntries(L, m, 74, 82, 32) == Table([Fixup(32, 1), Fixup(34, 2), Fixup(36, 3), Fixup(40, 10)], 82);
  }

  lemma LastEntries(m: seq<Byte>)
    requires IsImage(m)
    ensures ParseEntries(L, m, 90, 92, 48) == Table([Fixup(48, 10)], 92)
  {
    Entries(m);
    hide IsImage, Field;
    assert ParseEntries(L, m, 92, 92, 48) == Table([], 92);
  }

  lemma ImageTable(m: seq<Byte>)
    requires IsImage(m)
    ensures L.Fits(|m|) && ParseBlocks(L, m, 64, 91) == Table(FIXUPS, 92)
  {
    assert L.Fits(|m|);
    BlockHeads(m);
    FirstEntries(m);
    LastEntries(m);
    hide IsImage, Field, ParseEntries;
    LastBlock(m);
    assert !BadBlock(L, m, 64);
    hide BadBlock, ParseBlocks;
    ParseIs(L, m, 64, 91, 82, 32);
    assert FIXUPS[..4] + [Fixup(48, 10)] == FIXUPS;
  }

  lemma LastBlock(m: seq<Byte>)
    requires IsImage(m)
    ensures L.Fits(|m|) && ParseBlocks(L, m, 82, 91) == Table([Fixup(48, 10)], 92)
  {
    BlockHeads(m);
    LastEntries(m);
    hide IsImage, Field, ParseEntries;
    assert ParseBlocks(L, m, 92, 91) == Table([], 92);
    assert [Fixup(48, 10)] + [] == [Fixup(48, 10)];
  }

  lemma FixupsApart()
    ensures Apart(FIXUPS) && Clear(FIXUPS, 64, 92)
  {
    assert FIXUPS[0].at + Width(FIXUPS[0].kind) == 34 && FIXUPS[1].at + Width(FIXUPS[1].kind) == 36;
    assert FIXUPS[2].at + Width(FIXUPS[2].kind) == 40 && FIXUPS[3].at + Width(FIXUPS[3].kind) == 48;
    assert FIXUPS[4].at + Width(FIXUPS[4].kind) == 56;
    hide Width;
  }

  lemma ImageIsSound(m: seq<Byte>)
    requires IsImage(m)
    ensures Sound(L, m) && Fixups(L, m) == FIXUPS
  {
    ImageTable(m);
    FixupsApart();
    assert Last(L) == 91;
    hide ParseBlocks, IsImage, Apart, Clear;
  }

  lemma BytesOfField(m: seq<Byte>, at: nat, w: nat, n: nat)
    requires at + w <= |m| && Field(m, at, w) == n
    ensures m[at..at + w] == Digits(n, w)
  {
    DigitsOfNumber(m[at..at + w]);
  }

  lemma FieldOfBytes(m: seq<Byte>, at: nat, w: nat, n: nat)
    requires at + w <= |m| && m[at..at + w] == Digits(n, w)
    ensures Field(m, at, w) == n % Power(w)
  {
    NumberOfDigits(n, w);
  }

  lemma AllMoved(m: seq<Byte>, n: seq<Byte>)
    requires IsImage(m) && L.Fits(|m|) && n == Relocated(L, m, A).memory
    ensures forall f :: f in FIXUPS ==> FieldMoved(m, n, f, A)
  {
    ImageIsSound(m);
    hide IsImage, Sound, Fixups, Relocated, FieldMoved;
    forall f | f in FIXUPS
      ensures FieldMoved(m, n, f, A)
    {
      FieldMoves(L, m, A, f);
    }
  }

  lemma HighMove(m: seq<Byte>, n: seq<Byte>)
    requires FieldMoved(m, n, Fixup(32, 1), A) && Field(m, 32, 2) == 0xFFFF
    ensures n[32..34] == Digits(0x5565, 2)
  {
    hide Field;
    HighBecomes(m, n, Fixup(32, 1), A);
    BytesOfField(n, 32, 2, 0x5565);
  }

  lemma LowMove(m: seq<Byte>, n: seq<Byte>)
    requires FieldMoved(m, n, Fixup(34, 2), A) && Field(m, 34, 2) == 0x10
    ensures n[34..36] == Digits(0x7798, 2)
  {
    hide Field;
    LowBecomes(m, n, Fixup(34, 2), A);
    BytesOfField(n, 34, 2, 0x7798);
  }

  lemma HighLowMove(m: seq<Byte>, n: seq<Byte>)
    requires FieldMoved(m, n, Fixup(36, 3), A) && Field(m, 36, 4) == 0xF000_0001
    ensures n[36..40] == Digits(0x4566_7789, 4)
  {
    hide Field;
    HighLowBecomes(m, n, Fixup(36, 3), A);
    BytesOfField(n, 36, 4, 0x4566_7789);
  }

  lemma FirstDirMove(m: seq<Byte>, n: seq<Byte>)
    requires FieldMoved(m, n, Fixup(40, 10), A) && Field(m, 40, 8) == 1
    ensures n[40..48] == Digits(0x1122_3344_5566_7789, 8)
  {
    hide Field;
    DirBecomes(m, n, Fixup(40, 10), A);
    BytesOfField(n, 40, 8, 0x1122_3344_5566_7789);
  }

  lemma LastDirMove(m: seq<Byte>, n: seq<Byte>)
    requires FieldMoved(m, n, Fixup(48, 10), A) && Field(m, 48, 8) == 0xFFFF_FFFF_FFFF_FFFF
    ensures n[48..56] == Digits(0x1122_3344_5566_7787, 8)
  {
    hide Field;
    DirBecomes(m, n, Fixup(48, 10), A);
    BytesOfField(n, 48, 8, 0x1122_3344_5566_7787);
  }

  lemma ImageFields(m: seq<Byte>)
    requires IsImage(m)
    ensures Field(m, 32, 2) == 0xFFFF && Field(m, 34, 2) == 0x10 && Field(m, 36, 4) == 0xF000_0001
    ensures Field(m, 40, 8) == 1 && Field(m, 48, 8) == 0xFFFF_FFFF_FFFF_FFFF
  {
    hide Field, Digits, Number;
    WidthsOfInterest();
    FourDigits(0xF000_0001);
    FourDigits(1);
    FourDigits(0);
    FourDigits(0xFFFF_FFFF);
    FourDigits(0xFFFF_FFFF_FFFF_FFFF);
    EightDigits(1);
    EightDigits(0xFFFF_FFFF_FFFF_FFFF);
    SmallField(m, 32, 2);
    SmallField(m, 34, 2);
    FieldOfBytes(m, 36, 4, 0xF000_0001);
    FieldOfBytes(m, 40, 8, 1);
    FieldOfBytes(m, 48, 8, 0xFFFF_FFFF_FFFF_FFFF);
  }

  lemma ShortBytes(n: seq<Byte>)
    requires |n| == 4200
    requires n[32..34] == Digits(0x5565, 2) && n[34..36] == Digits(0x7798, 2) && n[36..40] == Digits(0x4566_7789, 4)
    ensures n[32] == 0x65 && n[33] == 0x55 && n[34] == 0x98 && n[35] == 0x77
    ensures n[36] == 0x89 && n[37] == 0x77 && n[38] == 0x66 && n[39] == 0x45
  {
    TwoDigits(0x5565);
    TwoDigits(0x7798);
    FourDigits(0x4566_7789);
    hide Digits;
    assert n[32..34][0] == n[32] && n[32..34][1] == n[33] && n[34..36][0] == n[34] && n[34..36][1] == n[35];
    var s := n[36..40];
    assert s[0] == n[36] && s[1] == n[37] && s[2] == n[38] && s[3] == n[39];
  }

  lemma DigitsWith87()
    ensures Digits(0x1122_3344_5566_7787, 8) == [0x87, 0x77, 0x66, 0x55, 0x44, 0x33, 0x22, 0x11]
  {
    hide Digits;
    EightDigits(0x1122_3344_5566_7787);
    FourDigits(0x1122_3344_5566_7787);
    FourDigits(0x1122_3344);
    assert 0x1122_3344_5566_7787 / 0x1_0000_0000 == 0x1122_3344;
  }

  lemma DigitsWith89()
    ensures Digits(0x1122_3344_5566_7789, 8) == [0x89, 0x77, 0x66, 0x55, 0x44, 0x33, 0x22, 0x11]
  {
    hide Digits;
    EightDigits(0x1122_3344_5566_7789);
    FourDigits(0x1122_3344_5566_7789);
    FourDigits(0x1122_3344);
    assert 0x1122_3344_5566_7789 / 0x1_0000_0000 == 0x1122_3344;
  }

  lemma LowDigits(low: Byte)
    requires low == 0x87 || low == 0x89
    ensures Digits(0x1122_3344_5566_7700 + low, 8) == [low, 0x77, 0x66, 0x55, 0x44, 0x33, 0x22, 0x11]
  {
    hide Digits;
    DigitsWith87();
    DigitsWith89();
  }

  lemma LongBytes(n: seq<Byte>, at: nat, low: Byte)
    requires low == 0x87 || low == 0x89
    requires at + 8 <= |n| && n[at..at + 8] == Digits(0x1122_3344_5566_7700 + low, 8)
    ensures n[at] == low && n[at + 1] == 0x77 && n[at + 2] == 0x66 && n[at + 3] == 0x55
    ensures n[at + 4] == 0x44 && n[at + 5] == 0x33 && n[at + 6] == 0x22 && n[at + 7] == 0x11
  {
    LowDigits(low);
    hide Digits;
    var s := n[at..at + 8];
    assert s[0] == n[at] && s[1] == n[at + 1] && s[2] == n[at + 2] && s[3] == n[at + 3];
    assert s[4] == n[at + 4] && s[5] == n[at + 5] && s[6] == n[at + 6] && s[7] == n[at + 7];
  }

  lemma NotTouched(p: nat)
    requires !(32 <= p < 56)
    ensures !Touched(FIXUPS, p)
  {
  }

  lemma OthersStay(m: seq<Byte>, n: seq<Byte>)
    requires IsImage(m) && L.Fits(|m|) && n == Relocated(L, m, A).memory
    ensures forall p :: 0 <= p < 4200 && !(32 <= p < 56) ==> n[p] == m[p]
  {
    ImageIsSound(m);
    hide Sound, Fixups, Relocated, Field, Power, Addend, Touched, Width;
    RelocationAdjustsFields(L, m, A);
    forall p | 0 <= p < 4200 && !(32 <= p < 56)
      ensures n[p] == m[p]
    {
      NotTouched(p);
    }
  }

  lemma MovedFields(m: seq<Byte>, n: seq<Byte>)
    requires IsImage(m) && L.Fits(|m|) && n == Relocated(L, m, A).memory
    ensures n[32..34] == Digits(0x5565, 2) && n[34..36] == Digits(0x7798, 2) && n[36..40] == Digits(0x4566_7789, 4)
    ensures n[40..48] == Digits(0x1122_3344_5566_7789, 8) && n[48..56] == Digits(0x1122_3344_5566_7787, 8)
  {
    assert |n| == |m| == 4200;
    assert FIXUPS[0] in FIXUPS && FIXUPS[1] in FIXUPS && FIXUPS[2] in FIXUPS;
    assert FIXUPS[3] in FIXUPS && FIXUPS[4] in FIXUPS;
    hide *;
    AllMoved(m, n);
    ImageFields(m);
    HighMove(m, n);
    LowMove(m, n);
    HighLowMove(m, n);
    FirstDirMove(m, n);
    LastDirMove(m, n);
  }

  lemma MovedBytes(m: seq<Byte>, n: seq<Byte>)
    requires IsImage(m) && |n| == 4200
    requires forall p :: 0 <= p < 4200 && !(32 <= p < 56) ==> n[p] == m[p]
    requires n[32..34] == Digits(0x5565, 2) && n[34..36] == Digits(0x7798, 2) && n[36..40] == Digits(0x4566_7789, 4)
    requires n[40..48] == Digits(0x1122_3344_5566_7789, 8) && n[48..56] == Digits(0x1122_3344_5566_7787, 8)
    ensures forall i :: 0 <= i < 4200 ==> n[i] == MovedByte(i)
  {
    hide Digits;
    ShortBytes(n);
    LongBytes(n, 40, 0x89);
    LongBytes(n, 48, 0x87);
    hide ImageByte;
  }

  /** Every byte of the image after the move. */
  method MovesImage(memory: array<Byte>) returns (ok: bool)
    requires IsImage(memory[..])
    modifies memory
    ensures ok && forall i :: 0 <= i < 4200 ==> memory[i] == MovedByte(i)
  {
    ghost var m := memory[..];
    assert |m| == 4200;
    ok := RelocateCoff(L, memory, 0x1122_3344_5566_8788, 0x1000);
    ghost var n := memory[..];
    MoveSucceeds(L, m, A);
    MovedFields(m, n);
    OthersStay(m, n);
    hide *;
    MovedBytes(m, n);
    assert forall i :: 0 <= i < 4200 ==> memory[i] == n[i];
  }

  lemma MoveSucceeds(l: Layout, m: seq<Byte>, adjust: nat)
    requires IsImage(m) && l == L
    ensures l.Fits(|m|) && Relocated(l, m, adjust).ok
  {
    hide Relocated, Sound;
    ImageIsSound(m);
    RelocatedApplies(l, m, adjust);
  }
}
