/** The rename flag of replication.py on a server that, unlike the listener, does not tell upper
    from lower case. */
module Spelling {
  import opened Ldap
  import opened Modlist
  import opened Wrappers
  import opened Listener
  import opened Replication

  function Folded(p: Pair): Pair {
    (Lower(p.0), Lower(p.1))
  }

  function FoldedAll(e: Entry): Entry {
    set p | p in e :: Folded(p)
  }

  /** The values of the old RDN that are not in the new one, folded. */
  function Dropped(oldRdn: Rdn, newRdn: Rdn): Entry {
    FoldedAll(Avas(oldRdn)) - FoldedAll(Avas(newRdn))
  }

  /** RenamedEntry, up to case; values keep the spelling that the entry has. */
  function RenamedFolded(e: Entry, oldRdn: Rdn, newRdn: Rdn, deleteOld: bool): Entry {
    (set p | p in e && !(deleteOld && Folded(p) in Dropped(oldRdn, newRdn)))
    + set p | p in Avas(newRdn) && Folded(p) !in FoldedAll(e)
  }

  /** The flag that the listener infers has the effect of the master's iff that was set, or the old
      name is spelled as in the entry, or the new one repeats it. */
  lemma InferredFlagNeedsSpelling(e: Entry, from: Rdn, to: Rdn, deleteOld: bool, now: Dict)
    requires FoldedAll(Avas(from)) <= FoldedAll(e)
    requires PairsIn(now) == RenamedFolded(e, from, to, deleteOld)
    ensures
      RenamedFolded(e, from, to, DeleteOld(from, now)) == RenamedFolded(e, from, to, deleteOld)
      <==> deleteOld || Avas(from) <= PairsIn(now) || Dropped(from, to) == {}
  {
    hide Folded;
    FlagIsSpelling(from, now);
    if Dropped(from, to) == {} {
    } else if deleteOld {
      var d :| d in Dropped(from, to);
      var p :| p in Avas(from) && Folded(p) == d;
      NotDropped(e, from, to, p);
    } else if !(Avas(from) <= PairsIn(now)) {
      var d :| d in Dropped(from, to);
      var q :| q in e && Folded(q) == d;
      assert q in RenamedFolded(e, from, to, false);
      assert q !in RenamedFolded(e, from, to, true) by { NotDropped(e, from, to, q); }
    }
  }

  lemma FlagIsSpelling(from: Rdn, now: Dict)
    ensures DeleteOld(from, now) <==> !(Avas(from) <= PairsIn(now))
  {
    if Avas(from) <= PairsIn(now) {
      forall i | 0 <= i < |from|
        ensures from[i].0 in now && from[i].1 in now[from[i].0]
      {
        assert from[i] in Avas(from);
      }
    } else {
      var p :| p in Avas(from) && p !in PairsIn(now);
      var i :| 0 <= i < |from| && from[i] == p;
    }
  }

  lemma NotDropped(e: Entry, from: Rdn, to: Rdn, p: Pair)
    requires Folded(p) in Dropped(from, to)
    ensures p !in RenamedFolded(e, from, to, true)
  {
    hide Folded;
    assert p in Avas(to) ==> Folded(p) in FoldedAll(Avas(to));
  }

  /** An entry named "CN=a" whose attribute is spelled "cn", renamed with its old value kept: the
      replica deletes that value. */
  lemma SpellingExample(now: Dict)
    requires PairsIn(now) == RenamedFolded({("cn", "a")}, [("CN", "a")], [("cn", "b")], false)
    ensures ("cn", "a") in PairsIn(now)
    ensures ("cn", "a") !in RenamedFolded({("cn", "a")}, [("CN", "a")], [("cn", "b")], DeleteOld([("CN", "a")], now))
  {
    var from, to: Rdn := [("CN", "a")], [("cn", "b")];
    assert Lower("CN") == "cn" && Lower("cn") == "cn";
    assert Lower("a") == "a" && Lower("b") == "b";
    assert Folded(("cn", "a")) == ("cn", "a") && Folded(("CN", "a")) == ("cn", "a");
    assert ("CN", "a") in Avas(from) && ("CN", "a") !in PairsIn(now);
    FlagIsSpelling(from, now);
    assert forall p :: p in Avas(to) ==> p == ("cn", "b");
    assert Folded(("cn", "b")) == ("cn", "b");
    assert ("cn", "a") != ("cn", "b");
    NotDropped({("cn", "a")}, from, to, ("cn", "a"));
  }

  // Names on such a server: it keeps each entry under its folded name.

  function FoldedRdn(r: Rdn): (f: Rdn)
    ensures |f| == |r|
  {
    seq(|r|, i requires 0 <= i < |r| => Folded(r[i]))
  }

  function FoldedDn(dn: Dn): (f: Dn)
    ensures |f| == |dn|
  {
    seq(|dn|, i requires 0 <= i < |dn| => FoldedRdn(dn[i]))
  }

  /** rename_s, given names in any spelling. */
  function RenameSpelled(d: Dit, dn: Dn, rdn: Rdn, superior: Dn, deleteOld: bool): Option<Dit> {
    match RenameEntry(d, FoldedDn(dn), FoldedRdn(rdn), FoldedDn(superior), deleteOld)
    case None => None
    case Some(r) =>
      if dn == [] || FoldedDn(dn) !in d then None
      else Some(r[[FoldedRdn(rdn)] + FoldedDn(superior) :=
                  RenamedFolded(d[FoldedDn(dn)], dn[0], rdn, deleteOld)])
  }

  /** What both halves of a rename, delivered one after the other, make of the directory. */
  ghost function BothHalves(u: Setup, d: Dit, from: Dn, to: Dn, now: Dict): Option<Dit>
    requires from != [] && to != []
  {
    var rest := if FoldedDn(to) in d then Prune(d, FoldedDn(to)) else d;
    if FoldedDn(from) in rest
    then RenameSpelled(rest, from, to[0], to[1..], DeleteOld(from[0], Canonical(now)))
    else AddEntry(rest, u.suffix, FoldedDn(to), Added(u.cfg, PairsIn(Canonical(now))))
  }

  /** Where the entry has a value of one of the names, it is spelled alike. */
  ghost predicate SpelledAlike(e: Entry, from: Rdn, to: Rdn) {
    forall p, q :: p in e + Avas(from) + Avas(to) && q in Avas(from) + Avas(to) && Folded(p) == Folded(q) ==> p == q
  }

  lemma RenamedAlike(e: Entry, from: Rdn, to: Rdn, deleteOld: bool)
    requires SpelledAlike(e, from, to)
    ensures RenamedFolded(e, from, to, deleteOld) == RenamedEntry(e, from, to, deleteOld)
  {
    hide Folded;
    forall p: Pair | p in e + Avas(to)
      ensures Folded(p) in FoldedAll(Avas(from)) <==> p in Avas(from)
      ensures Folded(p) in FoldedAll(Avas(to)) <==> p in Avas(to)
    {
    }
    forall p | p in Avas(to)
      ensures Folded(p) in FoldedAll(e) <==> p in e
    {
    }
    hide Avas, FoldedAll;
    assert forall p :: p in RenamedFolded(e, from, to, deleteOld) <==> p in RenamedEntry(e, from, to, deleteOld);
  }

  lemma SpelledRename(d: Dit, from: Dn, to: Dn, deleteOld: bool)
    requires from != [] && to != [] && FoldedDn(from) == from && FoldedDn(to) == to && from in d
    requires SpelledAlike(d[from], from[0], to[0])
    ensures RenameSpelled(d, from, to[0], to[1..], deleteOld) == RenameEntry(d, from, to[0], to[1..], deleteOld)
  {
    hide FoldedRdn, RenameEntry, RenamedFolded, RenamedEntry, SpelledAlike;
    assert FoldedRdn(to[0]) == to[0] && FoldedDn(to[1..]) == to[1..] && [to[0]] + to[1..] == to;
    hide FoldedDn;
    RenamedAlike(d[from], from[0], to[0], deleteOld);
    if RenameEntry(d, from, to[0], to[1..], deleteOld).Some? {
      Renamed(d, from, to[0], to[1..], deleteOld, to);
      RenamedIsThere(d, from, to[0], to[1..], deleteOld);
      var r := RenameEntry(d, from, to[0], to[1..], deleteOld).value;
      assert r[to := r[to]] == r;
    }
  }

  /** With folded names, and an entry that is spelled like them, this is what the handler does. */
  lemma BothHalvesAreSteps(u: Setup, s: State, from: Dn, to: Dn, now: Dict)
    requires Sound(s.dit, u.suffix) && from in s.dit && from != []
    requires FoldedDn(from) == from && FoldedDn(to) == to
    requires IsEvent(Event(to, now, 'a')) && now != map[]
    requires PairsOf(s.dit[from], UUID) == {(UUID, now[UUID][0])}
    requires SpelledAlike(s.dit[from], from[0], to[0])
    ensures AllEvents([Event(from, map[], 'r'), Event(to, now, 'a')])
    ensures
      var o := Deliver(u, s, [Event(from, map[], 'r'), Event(to, now, 'a')]);
      match BothHalves(u, s.dit, from, to, now)
      case None => !o.ok
      case Some(d) => o.ok && !o.state.Pending() && o.state.dit == d
  {
    var v := now[UUID][0];
    FirstHalf(u, s, from, v);
    var s' := State(s.dit, Some(v), s.cache[v := from]);
    DeliverTwo(u, s, Event(from, map[], 'r'), Event(to, now, 'a'), s');
    hide Deliver, AllEvents, PairsOf, PairsIn, RenameEntry, RenameSpelled, AddEntry, Added, SpelledAlike, Prune, Sound,
         DeleteOld;
    CanonicalIsEntry(now);
    hide Canonical, FoldedDn;
    var rest := if to in s.dit then Prune(s.dit, to) else s.dit;
    if from in rest {
      StaysInRest(s.dit, to, from);
      SpelledRename(rest, from, to, DeleteOld(from[0], Canonical(now)));
    }
  }

  lemma StaysInRest(d: Dit, top: Dn, y: Dn)
    ensures y in Prune(d, top) ==> y in d && Prune(d, top)[y] == d[y]
  {
  }

  /** A rename that changes nothing in a name but case: the entry with the new name is the entry
      itself.  It is removed with all that is below it, and added again alone. */
  lemma CaseOnlyRename(u: Setup, m: Dit, d: Dit, from: Dn, to: Dn, now: Dict)
    requires u.Valid() && IsTree(m, u.suffix) && u.Agree(m, d)
    requires from != [] && FoldedDn(from) == FoldedDn(to) && FoldedDn(to) in m
    requires IsEntry(now) && UUID in now && |now[UUID]| == 1 && HasOnePassword(PairsIn(now))
    ensures
      var r := BothHalves(u, d, from, to, now);
      r.Some? && (u.Agree(m[FoldedDn(to) := PairsIn(now)], r.value) <==> IsLeaf(m, FoldedDn(to)))
  {
    hide FoldedDn, Canonical, Added, PairsIn, CanonicalEntry, Setup.Visible, IsLeaf;
    var dn := FoldedDn(to);
    CanonicalIsEntry(now);
    WrittenUuid(u.cfg, {}, Canonical(now));
    CanonicalPairs(now);
    var e := Added(u.cfg, PairsIn(Canonical(now)));
    AddedInPlace(m, d, u.suffix, dn, e);
    VisibleAfterUpdate(u, {}, CanonicalEntry(PairsIn(now)));
    if IsLeaf(m, dn) {
      LeafPruned(u.suffix, m, d, dn);
      AgreeOn(u, m, d, dn, PairsIn(now), e);
      hide Setup.Agree, Prune;
      assert Prune(d, dn)[dn := e] == d[dn := e];
    } else {
      ChildIsPruned(m, d, dn, e);
    }
  }

  lemma AddedInPlace(m: Dit, d: Dit, suffix: Dn, dn: Dn, e: Entry)
    requires IsTree(m, suffix) && m.Keys == d.Keys && dn in m && dn != [] && e != {}
    ensures dn !in Prune(d, dn)
    ensures AddEntry(Prune(d, dn), suffix, dn, e) == Some(Prune(d, dn)[dn := e])
  {
    assert Under(dn, dn);
    if dn != suffix {
      assert dn[1..] in d && !Under(dn[1..], dn);
    }
  }

  lemma FoldedTop()
    ensures FoldedDn([[("DC", "x")]]) == TOP && FoldedDn(TOP) == TOP
  {
    assert Lower("DC") == "dc" && Lower("dc") == "dc" && Lower("x") == "x";
    hide Lower;
    assert FoldedRdn([("DC", "x")]) == [("dc", "x")] && FoldedRdn([("dc", "x")]) == [("dc", "x")];
    hide FoldedRdn;
    assert FoldedDn([[("DC", "x")]]) == [FoldedRdn([("DC", "x")])];
    assert FoldedDn(TOP) == [FoldedRdn([("dc", "x")])];
  }

  /** The child of an entry named "DC=x" that is renamed to "dc=x". */
  lemma CaseOnlyExample()
    ensures FoldedDn([[("DC", "x")]]) == TOP
    ensures
      var r := BothHalves(SMALL, TwoEntries(), [[("DC", "x")]], TOP, TopEntry());
      r.Some? && CHILD in TwoEntries() && !SMALL.Agree(TwoEntries(), r.value)
  {
    hide FoldedDn, Setup.Agree, Setup.MayHold, IsLeaf, BothHalves;
    FoldedTop();
    TwoEntriesAreMaster();
    TwoEntriesAgree();
    TopPairs();
    EntryMayHold(("dc", "x"), "1", TOP);
    HeldHasOnePassword(SMALL, TOP, PairsIn(TopEntry()));
    CaseOnlyRename(SMALL, TwoEntries(), TwoEntries(), [[("DC", "x")]], TOP, TopEntry());
    assert TwoEntries()[TOP := PairsIn(TopEntry())] == TwoEntries();
  }
}
