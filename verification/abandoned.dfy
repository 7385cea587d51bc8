/** Runs of the replication listener in which the second half of a rename never comes. */
module Abandoned {
  import opened Ldap
  import opened Modlist
  import opened Wrappers
  import opened Listener
  import opened Replication

  /** Outside the new place a rename leaves what is outside the old one. */
  lemma RenameOutside(d: Dit, dn: Dn, rdn: Rdn, superior: Dn, deleteOld: bool, y: Dn)
    requires RenameEntry(d, dn, rdn, superior, deleteOld).Some? && !Under(y, [rdn] + superior)
    ensures
      var r := RenameEntry(d, dn, rdn, superior, deleteOld).value;
      (y in r <==> y in d && !Under(y, dn)) && (y in r ==> r[y] == d[y])
  {
    hide Moved, RenamedEntry;
    var to := [rdn] + superior;
    assert Under(to, to);
    if y in set x | x in Subtree(d, dn) :: Moved(x, dn, to) {
      MovedBack(d, y, dn, to);
      assert false;
    }
  }

  lemma OutsideOne(u: Setup, m: Dit, op: Op, y: Dn)
    requires u.IsMaster(m) && op.RenameOp? && MasterStep(u, m, op).Some?
    ensures
      var to, now := [op.rdn] + op.superior, MasterStep(u, m, op).value;
      && (y in now && !Under(y, to) <==> y in m && !Under(y, op.dn))
      && (y in now && !Under(y, to) ==> now[y] == m[y])
  {
    RenamePlace(u, m, op);
    hide Setup.MayHold, Setup.IsMaster, IsTree, RenameEntry, PairsIn, SameBut;
    var to := [op.rdn] + op.superior;
    assert Under(to, to);
    if y in m {
      NothingUnderAbsent(m, u.suffix, to, y);
    }
    hide Under;
    if !Under(y, to) {
      RenameOutside(m, op.dn, op.rdn, op.superior, op.deleteOld, y);
    }
  }

  lemma OutsideRename(u: Setup, m: Dit, op: Op)
    requires u.IsMaster(m) && op.RenameOp? && MasterStep(u, m, op).Some?
    ensures Prune(MasterStep(u, m, op).value, [op.rdn] + op.superior) == Prune(m, op.dn)
  {
    hide MasterStep, Setup.IsMaster, Under;
    var to, now := [op.rdn] + op.superior, MasterStep(u, m, op).value;
    forall y
      ensures y in Prune(now, to) <==> y in Prune(m, op.dn)
      ensures y in Prune(now, to) ==> now[y] == m[y]
    {
      OutsideOne(u, m, op, y);
    }
  }

  lemma RenamePlace(u: Setup, m: Dit, op: Op)
    requires u.IsMaster(m) && op.RenameOp? && MasterStep(u, m, op).Some?
    ensures var to := [op.rdn] + op.superior;
            IsTree(m, u.suffix) && to !in m && Under(to, u.suffix) && op.dn in m && op.dn != []
  {
    hide Setup.MayHold;
    var to := [op.rdn] + op.superior;
    RenameNeedsEntry(m, op.dn, op.rdn, op.superior, op.deleteOld);
    assert op.superior in m && to[1..] == op.superior;
    UnderChild(to, u.suffix);
  }

  lemma {:induction false} NothingUnderAbsent(m: Dit, suffix: Dn, to: Dn, y: Dn)
    requires IsTree(m, suffix) && to !in m && Under(to, suffix) && y in m
    ensures !Under(y, to)
    decreases |y|
  {
    hide IsTree;
    if Under(y, to) {
      TreeParent(m, suffix, to, y);
      UnderParent(y, to);
      NothingUnderAbsent(m, suffix, to, y[1..]);
      assert false;
    }
  }

  lemma BothUnder(x: Dn, y: Dn)
    requires Under(x, y) && Under(y, x)
    ensures x == y
  {
  }

  lemma TreeParent(m: Dit, suffix: Dn, to: Dn, y: Dn)
    requires IsTree(m, suffix) && to !in m && Under(to, suffix) && y in m && Under(y, to)
    ensures y != to && y != [] && y[1..] in m
  {
    if y == suffix {
      BothUnder(to, suffix);
      assert false;
    }
  }

  lemma AgreePruned(u: Setup, m: Dit, r: Dit, top: Dn)
    requires u.Agree(m, r)
    ensures u.Agree(Prune(m, top), Prune(r, top))
  {
    hide CanonicalEntry, Setup.Visible, Under;
    assert Subtree(m, top) == Subtree(r, top);
  }

  lemma PrunedIsMaster(u: Setup, m: Dit, top: Dn)
    requires u.IsMaster(m)
    ensures u.IsMaster(Prune(m, top))
  {
    hide Setup.MayHold, Under;
    forall y | y in Prune(m, top) && y != u.suffix
      ensures y != [] && y[1..] in Prune(m, top)
    {
      StaysAbove(m, u.suffix, top, y);
    }
  }

  /** Where the next operation is at work after the rename, there was a place before it. */
  lemma NextHasPlace(u: Setup, m: Dit, op: Op, next: Op)
    requires u.IsMaster(m) && op.RenameOp? && MasterStep(u, m, op).Some?
    requires (next.AddOp? || next.ModifyOp?) && MasterStep(u, MasterStep(u, m, op).value, next).Some?
    requires !Under(next.dn, op.dn) && !Under(next.dn, [op.rdn] + op.superior)
    ensures next.dn in m || HasPlace(m, u.suffix, next.dn)
    ensures var now, e := MasterStep(u, m, op).value, PairsIn(next.entry);
            && MasterStep(u, now, next) == Some(now[next.dn := e])
            && IsEntry(next.entry) && u.MayHold(next.dn, e)
  {
    var now := MasterStep(u, m, op).value;
    var dn := next.dn;
    OutsideOne(u, m, op, dn);
    assert IsEntry(next.entry) && u.MayHold(dn, PairsIn(next.entry));
    if dn !in now && dn != u.suffix {
      OutsideOne(u, m, op, dn[1..]);
      RenamePlace(u, m, op);
      if Under(dn[1..], [op.rdn] + op.superior) {
        UnderChild(dn, [op.rdn] + op.superior);
      }
    }
  }

  /** The events of a rename whose second half is lost, and of what comes next. */
  function LostAndNext(op: Op, next: Op): seq<Event>
    requires op.RenameOp?
  {
    [Event(op.dn, map[], 'r')] + Events(next)
  }

  /** If the second half of a rename never comes in a run, and the next write is of another entry
      outside the subtree, then the replica agrees with the master on everything outside it. */
  lemma LostRename(u: Setup, m: Dit, s: State, before: seq<Op>, op: Op, next: Op)
    requires u.Valid() && u.IsMaster(m) && u.Agree(m, s.dit) && !s.Pending()
    requires MasterRun(u, m, before).Some?
    requires op.RenameOp? && MasterStep(u, MasterRun(u, m, before).value, op).Some?
    requires next.AddOp? || next.ModifyOp?
    requires MasterStep(u, MasterStep(u, MasterRun(u, m, before).value, op).value, next).Some?
    requires !Under(next.dn, op.dn) && !Under(next.dn, [op.rdn] + op.superior)
    requires op.dn in MasterRun(u, m, before).value ==>
      PairsOf(PairsIn(next.entry), UUID) != PairsOf(MasterRun(u, m, before).value[op.dn], UUID)
    ensures AllEvents(LostAndNext(op, next))
    ensures
      var now := MasterStep(u, MasterStep(u, MasterRun(u, m, before).value, op).value, next).value;
      var o := Deliver(u, ReplicaRun(u, s, before).state, LostAndNext(op, next));
      && o.ok && !o.state.Pending()
      && u.IsMaster(Prune(now, [op.rdn] + op.superior))
      && u.Agree(Prune(now, [op.rdn] + op.superior), o.state.dit)
  {
    hide MasterStep, Step, Setup.Agree, Setup.IsMaster, Deliver, Under, PairsOf, PairsIn;
    ReplicaFollowsMaster(u, m, s, before);
    LostAfter(u, MasterRun(u, m, before).value, ReplicaRun(u, s, before).state, op, next);
  }

  /** The replica's side of it. */
  lemma ReplicaAfterLost(u: Setup, m: Dit, s: State, op: Op, next: Op)
    requires u.Valid() && u.IsMaster(m) && u.Agree(m, s.dit) && !s.Pending()
    requires op.RenameOp? && op.dn in m && op.dn != []
    requires (next.AddOp? || next.ModifyOp?) && (next.dn in m || HasPlace(m, u.suffix, next.dn))
    requires IsEntry(next.entry) && u.MayHold(next.dn, PairsIn(next.entry)) && !Under(next.dn, op.dn)
    requires PairsOf(PairsIn(next.entry), UUID) != PairsOf(m[op.dn], UUID)
    ensures AllEvents(LostAndNext(op, next))
    ensures
      var o := Deliver(u, s, LostAndNext(op, next));
      && o.ok && o.state.link == None
      && o.state.dit
         == Prune(s.dit, op.dn)[next.dn := Written(u.cfg, s.dit, next.dn, CanonicalEntry(PairsIn(next.entry)))]
  {
    hide Step, Setup.MayHold, PairsOf, PairsIn, Canonical, CanonicalEntry, Target, Added, Setup.Visible, Under;
    var dn := op.dn;
    AgreeingIsSound(u, m, s.dit);
    HeldUuid(u, m, dn);
    var v :| PairsOf(m[dn], UUID) == {(UUID, v)};
    VisibleUuid(u, m[dn], s.dit[dn]);
    FirstHalf(u, s, dn, v);
    var s' := State(s.dit, Some(v), s.cache[v := dn]);
    IsEventOf(u, next.dn, next.entry, Events(next)[0].op);
    OtherUuid(u, next.dn, next.entry, v);
    StaleMarker(u, s', Events(next)[0]);
    DeliverTwo(u, s, Event(dn, map[], 'r'), Events(next)[0], s');
    HeldHasOnePassword(u, next.dn, PairsIn(next.entry));
    CanonicalPairs(next.entry);
    hide Setup.IsMaster, Sound, IsEvent, Prune;
  }

  lemma HeldUuid(u: Setup, m: Dit, dn: Dn)
    requires u.IsMaster(m) && dn in m
    ensures exists v :: PairsOf(m[dn], UUID) == {(UUID, v)}
    ensures u.MayHold(dn, m[dn]) && IsRdn(dn[0])
  {
    HasUuid(u, dn, m[dn]);
  }

  /** The master's side: outside the new place it is the old one with the entry that came. */
  lemma MasterAfterLost(u: Setup, m: Dit, op: Op, next: Op)
    requires u.Valid() && u.IsMaster(m)
    requires op.RenameOp? && MasterStep(u, m, op).Some?
    requires (next.AddOp? || next.ModifyOp?) && MasterStep(u, MasterStep(u, m, op).value, next).Some?
    requires !Under(next.dn, op.dn) && !Under(next.dn, [op.rdn] + op.superior)
    ensures
      var now, to := MasterStep(u, MasterStep(u, m, op).value, next).value, [op.rdn] + op.superior;
      && u.IsMaster(Prune(now, to))
      && Prune(now, to) == Prune(m, op.dn)[next.dn := PairsIn(next.entry)]
  {
    NextHasPlace(u, m, op, next);
    MasterStays(u, m, op);
    MasterStays(u, MasterStep(u, m, op).value, next);
    OutsideRename(u, m, op);
    hide MasterStep, PairsIn, Setup.IsMaster, Under, Prune;
    var to := [op.rdn] + op.superior;
    PrunedIsMaster(u, MasterStep(u, MasterStep(u, m, op).value, next).value, to);
    PruneThenSet(MasterStep(u, m, op).value, to, next.dn, PairsIn(next.entry));
  }

  lemma LostAfter(u: Setup, m: Dit, s: State, op: Op, next: Op)
    requires u.Valid() && u.IsMaster(m) && u.Agree(m, s.dit) && !s.Pending()
    requires op.RenameOp? && MasterStep(u, m, op).Some?
    requires (next.AddOp? || next.ModifyOp?) && MasterStep(u, MasterStep(u, m, op).value, next).Some?
    requires !Under(next.dn, op.dn) && !Under(next.dn, [op.rdn] + op.superior)
    requires op.dn in m ==> PairsOf(PairsIn(next.entry), UUID) != PairsOf(m[op.dn], UUID)
    ensures AllEvents(LostAndNext(op, next))
    ensures
      var now := MasterStep(u, MasterStep(u, m, op).value, next).value;
      var o := Deliver(u, s, LostAndNext(op, next));
      && o.ok && !o.state.Pending()
      && u.IsMaster(Prune(now, [op.rdn] + op.superior))
      && u.Agree(Prune(now, [op.rdn] + op.superior), o.state.dit)
  {
    RenamePlace(u, m, op);
    NextHasPlace(u, m, op, next);
    hide MasterStep, Step, Setup.MayHold, PairsOf, PairsIn, CanonicalEntry, Target, Added, Setup.Visible, Under;
    hide Setup.IsMaster, Deliver, IsEvent, Prune, Setup.Agree;
    var dn, e := op.dn, PairsIn(next.entry);
    ReplicaAfterLost(u, m, s, op, next);
    MasterAfterLost(u, m, op, next);
    VisibleAfterUpdate(u, if next.dn in s.dit then s.dit[next.dn] else {}, CanonicalEntry(e));
    AgreePruned(u, m, s.dit, dn);
    AgreeOn(u, Prune(m, dn), Prune(s.dit, dn), next.dn, e, Written(u.cfg, s.dit, next.dn, CanonicalEntry(e)));
  }

  lemma OtherUuid(u: Setup, dn: Dn, entry: Dict, v: Uuid)
    requires IsEntry(entry) && u.MayHold(dn, PairsIn(entry)) && PairsOf(PairsIn(entry), UUID) != {(UUID, v)}
    ensures UUID in entry && entry[UUID] != [] && entry[UUID][0] != v
  {
    HasUuid(u, dn, PairsIn(entry));
    var w :| PairsOf(PairsIn(entry), UUID) == {(UUID, w)};
    FirstUuidOf(entry, w);
  }

  lemma PruneThenSet(d: Dit, top: Dn, dn: Dn, e: Entry)
    requires !Under(dn, top)
    ensures Prune(d[dn := e], top) == Prune(d, top)[dn := e]
  {
    hide Under;
  }

  // Operations outside a subtree.

  /** The operation neither works in the subtree at top nor moves or deletes what is above it. */
  predicate Outside(op: Op, top: Dn) {
    && !Under(op.dn, top)
    && (op.DeleteOp? || op.RenameOp? ==> !Under(top, op.dn))
    && (op.RenameOp? ==> !Under([op.rdn] + op.superior, top))
  }

  /** The entries of the subtree at top. */
  function Only(d: Dit, top: Dn): Dit {
    map y | y in Subtree(d, top) :: d[y]
  }

  lemma BothAbove(x: Dn, y: Dn, z: Dn)
    requires Under(x, y) && Under(x, z)
    ensures Under(y, z) || Under(z, y)
  {
    if |z| <= |y| {
      assert y[|y| - |z|..] == x[|x| - |z|..];
    } else {
      assert z[|z| - |y|..] == x[|x| - |y|..];
    }
  }

  /** What is moved comes from outside the subtree at top and goes to outside of it. */
  lemma MovedOutside(d: Dit, suffix: Dn, top: Dn, dn: Dn, to: Dn, y: Dn)
    requires IsTree(d, suffix) && top in d && to !in d && Under(to, suffix)
    requires !Under(dn, top) && !Under(top, dn) && !Under(to, top)
    requires Under(y, to) && Moved(y, to, dn) in d
    ensures !Under(y, top) && !Under(Moved(y, to, dn), top)
  {
    var x := Moved(y, to, dn);
    assert x[|x| - |dn|..] == dn;
    hide Moved;
    if Under(x, top) {
      BothAbove(x, dn, top);
      assert false;
    }
    if Under(y, top) {
      BothAbove(y, to, top);
      NothingUnderAbsent(d, suffix, to, top);
      assert false;
    }
  }

  lemma SomeRename(d: Dit, top: Dn, dn: Dn, rdn: Rdn, superior: Dn, deleteOld: bool)
    requires !Under(dn, top) && !Under([rdn] + superior, top)
    ensures RenameEntry(Prune(d, top), dn, rdn, superior, deleteOld).Some?
            <==> RenameEntry(d, dn, rdn, superior, deleteOld).Some?
  {
    var to := [rdn] + superior;
    assert to[1..] == superior;
    if Under(superior, top) {
      UnderChild(to, top);
    }
    hide Under;
  }

  lemma RenameOfRest(d: Dit, suffix: Dn, top: Dn, dn: Dn, rdn: Rdn, superior: Dn, deleteOld: bool, y: Dn)
    requires IsTree(d, suffix) && top in d && RenameEntry(d, dn, rdn, superior, deleteOld).Some?
    requires RenameEntry(Prune(d, top), dn, rdn, superior, deleteOld).Some?
    requires !Under(dn, top) && !Under(top, dn) && !Under([rdn] + superior, top)
    ensures
      var p, r := Prune(d, top), RenameEntry(d, dn, rdn, superior, deleteOld).value;
      var q := RenameEntry(p, dn, rdn, superior, deleteOld).value;
      && (y in q <==> y in r && !Under(y, top)) && (y in q ==> q[y] == r[y])
      && (Under(y, top) ==> (y in r <==> y in d) && (y in r ==> r[y] == d[y]))
  {
    var to := [rdn] + superior;
    RenamePlaceIn(d, suffix, dn, rdn, superior, deleteOld);
    Renamed(d, dn, rdn, superior, deleteOld, y);
    Renamed(Prune(d, top), dn, rdn, superior, deleteOld, y);
    hide IsTree, RenameEntry, RenamedEntry, Moved;
    if Under(y, to) && Moved(y, to, dn) in d {
      MovedOutside(d, suffix, top, dn, to, y);
    }
    if Under(y, top) && Under(y, dn) {
      BothAbove(y, top, dn);
      assert false;
    }
    hide Under;
  }

  lemma RenamePlaceIn(d: Dit, suffix: Dn, dn: Dn, rdn: Rdn, superior: Dn, deleteOld: bool)
    requires IsTree(d, suffix) && RenameEntry(d, dn, rdn, superior, deleteOld).Some?
    ensures var to := [rdn] + superior; to !in d && Under(to, suffix) && dn in d && dn != []
  {
    var to := [rdn] + superior;
    assert superior in d && to[1..] == superior;
    UnderChild(to, suffix);
  }

  /** Without the subtree at top, the same operation leads from d to d', and the subtree stays. */
  ghost predicate Alike(d: Dit, d': Dit, top: Dn, p': Dit) {
    p' == Prune(d', top) && Only(d', top) == Only(d, top) && (top in d ==> top in d')
  }

  /** The first directory is the second without the subtree at top, where the second is m. */
  ghost predicate IsRest(q: Dit, r: Dit, top: Dn, m: Dit) {
    && (forall y :: (y in q <==> y in r && !Under(y, top)) && (y in q ==> q[y] == r[y]))
    && (forall y :: Under(y, top) ==> (y in r <==> y in m) && (y in r ==> r[y] == m[y]))
  }

  lemma RenameLeavesRest(m: Dit, suffix: Dn, top: Dn, dn: Dn, rdn: Rdn, superior: Dn, flag: bool)
    requires IsTree(m, suffix) && top in m
    requires !Under(dn, top) && !Under(top, dn) && !Under([rdn] + superior, top)
    ensures RenameEntry(Prune(m, top), dn, rdn, superior, flag).Some? <==> RenameEntry(m, dn, rdn, superior, flag).Some?
    ensures RenameEntry(m, dn, rdn, superior, flag).Some? ==>
              IsRest(RenameEntry(Prune(m, top), dn, rdn, superior, flag).value,
                     RenameEntry(m, dn, rdn, superior, flag).value, top, m)
  {
    SomeRename(m, top, dn, rdn, superior, flag);
    hide RenameEntry, Under, IsTree, Prune;
    if RenameEntry(m, dn, rdn, superior, flag).Some? {
      forall y {
        RenameOfRest(m, suffix, top, dn, rdn, superior, flag, y);
      }
    }
  }

  lemma RenamesAlike(u: Setup, m: Dit, top: Dn, op: Op)
    requires u.IsMaster(m) && top in m && Outside(op, top) && op.RenameOp?
    ensures MasterStep(u, Prune(m, top), op).Some? <==> MasterStep(u, m, op).Some?
    ensures MasterStep(u, m, op).Some? ==>
              Alike(m, MasterStep(u, m, op).value, top, MasterStep(u, Prune(m, top), op).value)
  {
    hide IsTree, RenameEntry, Setup.MayHold, PairsIn, SameBut, Under, Prune, IsRest, Alike;
    var dn, rdn, superior, flag := op.dn, op.rdn, op.superior, op.deleteOld;
    var p, to := Prune(m, top), [rdn] + superior;
    RenameLeavesRest(m, u.suffix, top, dn, rdn, superior, flag);
    hide Setup.IsMaster;
    if RenameEntry(m, dn, rdn, superior, flag).Some? {
      var r, q := RenameEntry(m, dn, rdn, superior, flag).value, RenameEntry(p, dn, rdn, superior, flag).value;
      RenamedIsThere(m, dn, rdn, superior, flag);
      RenamedIsThere(p, dn, rdn, superior, flag);
      RestAt(q, r, top, m, to);
      SetAlike(m, r, q, top, to, PairsIn(op.entry));
    }
  }

  lemma RestAt(q: Dit, r: Dit, top: Dn, m: Dit, y: Dn)
    requires IsRest(q, r, top, m) && !Under(y, top)
    ensures (y in q <==> y in r) && (y in q ==> q[y] == r[y])
  {
  }

  lemma RestOfSame(m: Dit, top: Dn)
    ensures IsRest(Prune(m, top), m, top, m)
  {
    hide Under;
  }

  lemma SetAlike(m: Dit, r: Dit, q: Dit, top: Dn, to: Dn, e: Entry)
    requires !Under(to, top) && IsRest(q, r, top, m)
    ensures Alike(m, r[to := e], top, q[to := e])
  {
    assert Under(top, top);
    hide Under;
  }

  lemma LeavesAlike(m: Dit, top: Dn, dn: Dn)
    requires !Under(dn, top) && !Under(top, dn)
    ensures IsLeaf(Prune(m, top), dn) <==> IsLeaf(m, dn)
  {
    forall c | c in m && c != [] && c[1..] == dn
      ensures !Under(c, top)
    {
      if c == top {
        assert Under(c[1..], dn);
        UnderChild(c, dn);
      } else if Under(c, top) {
        UnderParent(c, top);
      }
    }
    hide Under;
  }

  lemma DeletesAlike(m: Dit, top: Dn, dn: Dn)
    requires !Under(dn, top) && !Under(top, dn)
    ensures DeleteEntry(Prune(m, top), dn).Some? <==> DeleteEntry(m, dn).Some?
    ensures DeleteEntry(m, dn).Some? ==>
              Alike(m, DeleteEntry(m, dn).value, top, DeleteEntry(Prune(m, top), dn).value)
  {
    LeavesAlike(m, top, dn);
    assert Under(top, top);
    hide Under, IsLeaf;
  }

  lemma AddsAlike(m: Dit, suffix: Dn, top: Dn, dn: Dn, e: Entry)
    requires !Under(dn, top)
    ensures AddEntry(Prune(m, top), suffix, dn, e).Some? <==> AddEntry(m, suffix, dn, e).Some?
    ensures AddEntry(m, suffix, dn, e).Some? ==>
              Alike(m, AddEntry(m, suffix, dn, e).value, top, AddEntry(Prune(m, top), suffix, dn, e).value)
  {
    if dn != [] && Under(dn[1..], top) {
      UnderChild(dn, top);
    }
    RestOfSame(m, top);
    SetAlike(m, m, Prune(m, top), top, dn, e);
    hide Under, Alike, IsRest;
  }

  /** An operation outside a subtree does the same without the subtree, and leaves the subtree. */
  lemma StepOutside(u: Setup, m: Dit, top: Dn, op: Op)
    requires u.Valid() && u.IsMaster(m) && top in m && Outside(op, top)
    ensures MasterStep(u, Prune(m, top), op).Some? <==> MasterStep(u, m, op).Some?
    ensures MasterStep(u, m, op).Some? ==>
              Alike(m, MasterStep(u, m, op).value, top, MasterStep(u, Prune(m, top), op).value)
  {
    hide Setup.IsMaster, Under, Alike, DeleteEntry, AddEntry, Setup.MayHold, PairsIn;
    match op
    case RenameOp(_, _, _, _, _) => RenamesAlike(u, m, top, op);
    case DeleteOp(dn) => DeletesAlike(m, top, dn);
    case AddOp(dn, entry) => AddsAlike(m, u.suffix, top, dn, PairsIn(entry));
    case ModifyOp(dn, entry) =>
      RestOfSame(m, top);
      RestAt(Prune(m, top), m, top, m, dn);
      SetAlike(m, m, Prune(m, top), top, dn, PairsIn(entry));
  }

  ghost predicate AllOutside(ops: seq<Op>, top: Dn) {
    forall i :: 0 <= i < |ops| ==> Outside(ops[i], top)
  }

  /** The same of a run. */
  lemma {:induction false} RunOutside(u: Setup, m: Dit, top: Dn, ops: seq<Op>)
    requires u.Valid() && u.IsMaster(m) && top in m && AllOutside(ops, top)
    ensures MasterRun(u, Prune(m, top), ops).Some? <==> MasterRun(u, m, ops).Some?
    ensures MasterRun(u, m, ops).Some? ==>
              && u.IsMaster(MasterRun(u, m, ops).value)
              && Alike(m, MasterRun(u, m, ops).value, top, MasterRun(u, Prune(m, top), ops).value)
  {
    hide MasterStep, Setup.IsMaster, Outside, Prune, Only;
    if ops == [] {
    } else {
      var before, op := ops[..|ops| - 1], ops[|ops| - 1];
      RunOutside(u, m, top, before);
      if MasterRun(u, m, before).Some? {
        var d := MasterRun(u, m, before).value;
        StepOutside(u, d, top, op);
        if MasterStep(u, d, op).Some? {
          MasterStays(u, d, op);
        }
      }
    }
  }

  /** From there on, as long as the master works outside the subtree, the replica agrees with it on
      everything outside the subtree. */
  lemma RunGoesOn(u: Setup, m: Dit, s: State, before: seq<Op>, op: Op, next: Op, after: seq<Op>)
    requires u.Valid() && u.IsMaster(m) && u.Agree(m, s.dit) && !s.Pending()
    requires MasterRun(u, m, before).Some?
    requires op.RenameOp? && MasterStep(u, MasterRun(u, m, before).value, op).Some?
    requires next.AddOp? || next.ModifyOp?
    requires MasterStep(u, MasterStep(u, MasterRun(u, m, before).value, op).value, next).Some?
    requires !Under(next.dn, op.dn) && !Under(next.dn, [op.rdn] + op.superior)
    requires op.dn in MasterRun(u, m, before).value ==>
      PairsOf(PairsIn(next.entry), UUID) != PairsOf(MasterRun(u, m, before).value[op.dn], UUID)
    requires
      var now := MasterStep(u, MasterStep(u, MasterRun(u, m, before).value, op).value, next).value;
      MasterRun(u, now, after).Some? && AllOutside(after, [op.rdn] + op.superior)
    ensures AllEvents(LostAndNext(op, next))
    ensures
      var now := MasterStep(u, MasterStep(u, MasterRun(u, m, before).value, op).value, next).value;
      var o := ReplicaRun(u, Deliver(u, ReplicaRun(u, s, before).state, LostAndNext(op, next)).state, after);
      && o.ok && !o.state.Pending()
      && u.Agree(Prune(MasterRun(u, now, after).value, [op.rdn] + op.superior), o.state.dit)
  {
    var to := [op.rdn] + op.superior;
    var d := MasterRun(u, m, before).value;
    hide MasterStep, Step, Setup.Agree, Setup.IsMaster, Deliver, Under, PairsOf, PairsIn, MasterRun, ReplicaRun,
         Prune, Only, AllOutside;
    LostRename(u, m, s, before, op, next);
    ReplicaFollowsMaster(u, m, s, before);
    var now := MasterStep(u, MasterStep(u, d, op).value, next).value;
    RenamedIsMaster(u, d, op, next);
    RunOutside(u, now, to, after);
    ReplicaFollowsMaster(u, Prune(now, to),
                         Deliver(u, ReplicaRun(u, s, before).state, LostAndNext(op, next)).state, after);
  }

  lemma RenamedIsMaster(u: Setup, m: Dit, op: Op, next: Op)
    requires u.Valid() && u.IsMaster(m)
    requires op.RenameOp? && MasterStep(u, m, op).Some?
    requires (next.AddOp? || next.ModifyOp?) && MasterStep(u, MasterStep(u, m, op).value, next).Some?
    ensures
      var now := MasterStep(u, MasterStep(u, m, op).value, next).value;
      u.IsMaster(now) && [op.rdn] + op.superior in now
  {
    NewNameIsThere(u, m, op);
    MasterStays(u, m, op);
    var renamed := MasterStep(u, m, op).value;
    MasterStays(u, renamed, next);
    WriteKeeps(u, renamed, next, [op.rdn] + op.superior);
    hide Setup.IsMaster, MasterStep;
  }

  lemma WriteKeeps(u: Setup, m: Dit, op: Op, y: Dn)
    requires (op.AddOp? || op.ModifyOp?) && MasterStep(u, m, op).Some? && y in m
    ensures y in MasterStep(u, m, op).value
  {
    hide Setup.MayHold, PairsIn;
  }

  // A second rename before the second half of the first has come.

  /** The events of a rename whose second half is lost, and of another rename. */
  function LostAndRename(op: Op, other: Op): seq<Event>
    requires op.RenameOp?
  {
    [Event(op.dn, map[], 'r')] + Events(other)
  }

  /** The master as it would be without the first rename. */
  lemma WithoutFirst(u: Setup, m: Dit, op: Op, other: Op)
    requires u.Valid() && u.IsMaster(m)
    requires op.RenameOp? && MasterStep(u, m, op).Some?
    requires MasterStep(u, MasterStep(u, m, op).value, other).Some?
    requires Outside(other, op.dn) && Outside(other, [op.rdn] + op.superior)
    ensures MasterStep(u, m, other).Some?
    ensures
      var to, now := [op.rdn] + op.superior, MasterStep(u, MasterStep(u, m, op).value, other).value;
      var f := MasterStep(u, m, other).value;
      && u.IsMaster(now) && u.IsMaster(f) && to in now && op.dn in f
      && Prune(f, op.dn) == Prune(now, to) && Only(f, op.dn) == Only(m, op.dn)
  {
    RenamePlace(u, m, op);
    NewNameIsThere(u, m, op);
    hide MasterStep, Setup.IsMaster, IsTree, Under, Outside, Prune, Only;
    var to, renamed := [op.rdn] + op.superior, MasterStep(u, m, op).value;
    OutsideRename(u, m, op);
    MasterStays(u, m, op);
    StepOutside(u, renamed, to, other);
    MasterStays(u, renamed, other);
    StepOutside(u, m, op.dn, other);
    MasterStays(u, m, other);
  }

  lemma NewNameIsThere(u: Setup, m: Dit, op: Op)
    requires op.RenameOp? && MasterStep(u, m, op).Some?
    ensures [op.rdn] + op.superior in MasterStep(u, m, op).value
  {
    hide RenameEntry, Setup.MayHold, PairsIn, SameBut;
  }

  /** The same after some more operations. */
  lemma RunWithoutFirst(u: Setup, m: Dit, op: Op, other: Op, after: seq<Op>) returns (now: Dit, f: Dit)
    requires u.Valid() && u.IsMaster(m)
    requires op.RenameOp? && MasterStep(u, m, op).Some?
    requires MasterStep(u, MasterStep(u, m, op).value, other).Some?
    requires MasterRun(u, MasterStep(u, MasterStep(u, m, op).value, other).value, after).Some?
    requires Outside(other, op.dn) && Outside(other, [op.rdn] + op.superior)
    requires AllOutside(after, op.dn) && AllOutside(after, [op.rdn] + op.superior)
    ensures now == MasterRun(u, MasterStep(u, MasterStep(u, m, op).value, other).value, after).value
    ensures MasterStep(u, m, other).Some? && MasterRun(u, MasterStep(u, m, other).value, after) == Some(f)
    ensures u.IsMaster(now) && u.IsMaster(MasterStep(u, m, other).value) && op.dn in f
    ensures Prune(f, op.dn) == Prune(now, [op.rdn] + op.superior) && Only(f, op.dn) == Only(m, op.dn)
  {
    hide MasterStep, MasterRun, Setup.IsMaster, Under, Outside, AllOutside, Prune, Only;
    WithoutFirst(u, m, op, other);
    var to, second := [op.rdn] + op.superior, MasterStep(u, MasterStep(u, m, op).value, other).value;
    RunOutside(u, second, to, after);
    RunOutside(u, MasterStep(u, m, other).value, op.dn, after);
    now := MasterRun(u, second, after).value;
    f := MasterRun(u, MasterStep(u, m, other).value, after).value;
  }

  lemma AgreeOnly(u: Setup, m: Dit, r: Dit, top: Dn)
    requires u.Agree(m, r)
    ensures u.Agree(Only(m, top), Only(r, top))
  {
    hide CanonicalEntry, Setup.Visible, Under;
    assert Subtree(m, top) == Subtree(r, top);
  }

  /** Nothing is left at the old place. */
  lemma OldPlaceIsEmpty(u: Setup, m: Dit, now: Dit, f: Dit, dn: Dn, to: Dn)
    requires u.IsMaster(m) && u.IsMaster(now) && dn in m && to !in m && Under(to, u.suffix)
    requires Prune(f, dn) == Prune(now, to)
    ensures Subtree(now, dn) == {}
  {
    hide IsTree, Setup.MayHold;
    assert Under(dn, u.suffix) by { InTree(m, u.suffix, dn); }
    assert Under(dn, dn);
    hide Under;
    if Under(dn, to) {
      NothingUnderAbsent(m, u.suffix, to, dn);
      assert false;
    }
    assert dn !in Prune(f, dn);
    forall y | y in now
      ensures !Under(y, dn)
    {
      NothingUnderAbsent(now, u.suffix, dn, y);
    }
  }

  lemma InTree(d: Dit, suffix: Dn, dn: Dn)
    requires IsTree(d, suffix) && dn in d
    ensures Under(dn, suffix)
  {
  }

  /** The replica's side: it does the second rename as if there had not been a first. */
  lemma SecondTakesOver(u: Setup, m: Dit, s: State, op: Op, other: Op)
    requires u.Valid() && u.IsMaster(m) && u.Agree(m, s.dit)
    requires op.RenameOp? && op.dn in m && op.dn != []
    requires other.RenameOp? && MasterStep(u, m, other).Some?
    ensures AllEvents(LostAndRename(op, other))
    ensures
      var o := Deliver(u, s, LostAndRename(op, other));
      o.ok && !o.state.Pending() && u.Agree(MasterStep(u, m, other).value, o.state.dit)
  {
    hide Step, Setup.MayHold, PairsOf, PairsIn, CanonicalEntry, Setup.Visible, MasterStep;
    AgreeingIsSound(u, m, s.dit);
    HeldUuid(u, m, op.dn);
    var v :| PairsOf(m[op.dn], UUID) == {(UUID, v)};
    VisibleUuid(u, m[op.dn], s.dit[op.dn]);
    FirstHalf(u, s, op.dn, v);
    var s' := State(s.dit, Some(v), s.cache[v := op.dn]);
    RenameKeepsAgreement(u, m, s', other);
    hide Setup.Agree, Setup.IsMaster, IsEvent;
    assert LostAndRename(op, other)[1..] == Events(other);
  }

  /** The second rename takes the marker of the first.  If the master goes on outside the old and the
      new place, the replica agrees with it on everything outside of both, and keeps the subtree at
      the old place as it was, where the master has nothing. */
  lemma OverwrittenMarker(u: Setup, m: Dit, s: State, op: Op, other: Op, after: seq<Op>)
    requires u.Valid() && u.IsMaster(m) && u.Agree(m, s.dit)
    requires op.RenameOp? && MasterStep(u, m, op).Some?
    requires other.RenameOp? && MasterStep(u, MasterStep(u, m, op).value, other).Some?
    requires MasterRun(u, MasterStep(u, MasterStep(u, m, op).value, other).value, after).Some?
    requires Outside(other, op.dn) && Outside(other, [op.rdn] + op.superior)
    requires AllOutside(after, op.dn) && AllOutside(after, [op.rdn] + op.superior)
    ensures AllEvents(LostAndRename(op, other))
    ensures
      var now := MasterRun(u, MasterStep(u, MasterStep(u, m, op).value, other).value, after).value;
      var o := ReplicaRun(u, Deliver(u, s, LostAndRename(op, other)).state, after);
      && o.ok && !o.state.Pending()
      && u.Agree(Prune(now, [op.rdn] + op.superior), Prune(o.state.dit, op.dn))
      && op.dn in o.state.dit && u.Agree(Only(m, op.dn), Only(o.state.dit, op.dn))
      && Subtree(now, op.dn) == {}
  {
    RenamePlace(u, m, op);
    hide MasterStep, MasterRun, ReplicaRun, Deliver, Setup.IsMaster, IsTree, Under, Outside, AllOutside, Prune, Only,
         AllEvents;
    var now, f := RunWithoutFirst(u, m, op, other, after);
    SecondTakesOver(u, m, s, op, other);
    var second := Deliver(u, s, LostAndRename(op, other)).state;
    ReplicaFollowsMaster(u, MasterStep(u, m, other).value, second, after);
    var r := ReplicaRun(u, second, after).state.dit;
    assert op.dn in r;
    hide Setup.Agree;
    AgreePruned(u, f, r, op.dn);
    AgreeOnly(u, f, r, op.dn);
    OldPlaceIsEmpty(u, m, now, f, op.dn, [op.rdn] + op.superior);
  }
}
