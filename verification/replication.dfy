/** Runs of the replication listener: the replica follows the master. */
module Replication {
  import opened Ldap
  import opened Modlist
  import opened Wrappers
  import opened Listener

  const PASSWORD_ATTRIBUTE := "pwdAttribute"

  /** Attributes that a server keeps by itself, like modifyTimestamp, beside the settings. */
  datatype Setup = Setup(cfg: Config, suffix: Dn, kept: set<string>) {

    predicate Hidden(attr: string) {
      Excluded(cfg, attr) || attr in kept
    }

    predicate Valid() {
      UUID !in kept && suffix != []
    }

    function Visible(e: Entry): Entry {
      set p | p in e && !Hidden(p.0)
    }

    /** The replica has the master's entries, up to hidden attributes. */
    ghost predicate Agree(m: Dit, r: Dit) {
      m.Keys == r.Keys && forall dn :: dn in m ==> Visible(CanonicalEntry(m[dn])) == Visible(r[dn])
    }

    /** An RDN of ordinary attributes. */
    predicate IsOrdinary(r: Rdn) {
      IsRdn(r) && forall i :: 0 <= i < |r| ==> !Hidden(r[i].0) && r[i].0 != PASSWORD_ATTRIBUTE
    }

    /** An entry that the master may hold under a name: it has the values that name it, and its
        password attribute has one value at most. */
    ghost predicate MayHold(dn: Dn, e: Entry) {
      dn != [] && IsOrdinary(dn[0]) && Avas(dn[0]) <= e && HasOneUuid(e) && HasOnePassword(e)
    }

    ghost predicate IsMaster(m: Dit) {
      IsTree(m, suffix) && forall dn :: dn in m ==> MayHold(dn, m[dn])
    }
  }

  ghost predicate HasOnePassword(e: Entry) {
    forall p, q :: p in e && q in e && p.0 == q.0 == PASSWORD_ATTRIBUTE ==> p == q
  }

  /** CanonicalEntry(e) is to an entry what Canonical is to a dictionary. */
  function CanonicalEntry(e: Entry): Entry {
    if (PASSWORD_ATTRIBUTE, "userPassword") in e
    then e - PairsOf(e, PASSWORD_ATTRIBUTE) + {(PASSWORD_ATTRIBUTE, "2.5.4.35")}
    else e
  }

  /** What a client does on the master.  The dictionary is the entry afterwards, as the listener
      gets it, in any order. */
  datatype Op =
    | AddOp(dn: Dn, entry: Dict)
    | ModifyOp(dn: Dn, entry: Dict)
    | DeleteOp(dn: Dn)
    | RenameOp(dn: Dn, rdn: Rdn, superior: Dn, deleteOld: bool, entry: Dict)

  /** The master afterwards, if it accepts the operation.  A rename may change attributes that the
      server keeps by itself. */
  ghost function MasterStep(u: Setup, m: Dit, op: Op): Option<Dit> {
    match op
    case AddOp(dn, entry) =>
      if !IsEntry(entry) || !u.MayHold(dn, PairsIn(entry)) then None
      else AddEntry(m, u.suffix, dn, PairsIn(entry))
    case ModifyOp(dn, entry) =>
      if dn !in m || !IsEntry(entry) || !u.MayHold(dn, PairsIn(entry)) then None
      else Some(m[dn := PairsIn(entry)])
    case DeleteOp(dn) => DeleteEntry(m, dn)
    case RenameOp(dn, rdn, superior, deleteOld, entry) =>
      var to := [rdn] + superior;
      match RenameEntry(m, dn, rdn, superior, deleteOld)
      case None => None
      case Some(r) =>
        RenamedIsThere(m, dn, rdn, superior, deleteOld);
        if !IsEntry(entry) || !u.MayHold(to, PairsIn(entry)) || !SameBut(u.kept, r[to], PairsIn(entry))
        then None
        else Some(r[to := PairsIn(entry)])
  }

  function Unkept(kept: set<string>, e: Entry): Entry {
    set p | p in e && p.0 !in kept
  }

  predicate SameBut(kept: set<string>, e: Entry, f: Entry) {
    Unkept(kept, e) == Unkept(kept, f)
  }

  lemma RenamedIsThere(d: Dit, dn: Dn, rdn: Rdn, superior: Dn, deleteOld: bool)
    requires RenameEntry(d, dn, rdn, superior, deleteOld).Some?
    ensures [rdn] + superior in RenameEntry(d, dn, rdn, superior, deleteOld).value
  {
    var to := [rdn] + superior;
    assert dn in Subtree(d, dn) && Moved(dn, dn, to) == to;
  }

  /** Where the entries come from after a rename. */
  lemma Renamed(d: Dit, dn: Dn, rdn: Rdn, superior: Dn, deleteOld: bool, y: Dn)
    requires RenameEntry(d, dn, rdn, superior, deleteOld).Some?
    ensures
      var to, r := [rdn] + superior, RenameEntry(d, dn, rdn, superior, deleteOld).value;
      && (y in r <==> (y in d && !Under(y, dn)) || (Under(y, to) && Moved(y, to, dn) in d))
      && (y in r ==> r[y] == if y == to then RenamedEntry(d[dn], dn[0], rdn, deleteOld)
                             else if y in d && !Under(y, dn) then d[y] else d[Moved(y, to, dn)])
  {
    hide RenamedEntry;
    var to := [rdn] + superior;
    if Under(y, to) && Moved(y, to, dn) in d {
      var x := Moved(y, to, dn);
      assert x[|x| - |dn|..] == dn;
      assert Moved(x, dn, to) == y;
      assert x in Subtree(d, dn);
    }
    if y in set x | x in Subtree(d, dn) :: Moved(x, dn, to) {
      MovedBack(d, y, dn, to);
    }
  }

  /** The events that an operation is delivered as. */
  function Events(op: Op): seq<Event> {
    match op
    case AddOp(dn, entry) => [Event(dn, entry, 'a')]
    case ModifyOp(dn, entry) => [Event(dn, entry, 'm')]
    case DeleteOp(dn) => [Event(dn, map[], 'd')]
    case RenameOp(dn, rdn, superior, _, entry) =>
      [Event(dn, map[], 'r'), Event([rdn] + superior, entry, 'a')]
  }

  ghost predicate AllEvents(events: seq<Event>) {
    forall i :: 0 <= i < |events| ==> IsEvent(events[i])
  }

  /** The replica after some events, as far as they succeed. */
  ghost function Deliver(u: Setup, s: State, events: seq<Event>): Outcome
    requires AllEvents(events)
    decreases |events|
  {
    if events == [] then Outcome(s, true)
    else
      var o := Step(u.cfg, u.suffix, s, events[0]);
      if !o.ok then o else Deliver(u, o.state, events[1..])
  }

  lemma UuidIsVisible(u: Setup)
    requires u.Valid()
    ensures !u.Hidden(UUID)
  {
    UuidIsNotExcluded(u.cfg);
  }

  lemma HeldHasOnePassword(u: Setup, dn: Dn, e: Entry)
    requires u.MayHold(dn, e)
    ensures HasOnePassword(e)
  {
  }

  /** Canonical and CanonicalEntry do the same. */
  lemma CanonicalPairs(now: Dict)
    requires IsEntry(now) && HasOnePassword(PairsIn(now))
    ensures PairsIn(Canonical(now)) == CanonicalEntry(PairsIn(now))
  {
    var e := PairsIn(now);
    if PASSWORD_ATTRIBUTE in now {
      var values := now[PASSWORD_ATTRIBUTE];
      assert (PASSWORD_ATTRIBUTE, values[0]) in e;
      forall v | v in values
        ensures v == values[0]
      {
        assert (PASSWORD_ATTRIBUTE, v) in e;
      }
    }
  }

  lemma VisibleUuid(u: Setup, e: Entry, f: Entry)
    requires u.Valid() && u.Visible(CanonicalEntry(e)) == u.Visible(f)
    ensures PairsOf(e, UUID) == PairsOf(f, UUID)
  {
    UuidIsVisible(u);
    forall p
      ensures p in PairsOf(e, UUID) <==> p in PairsOf(f, UUID)
    {
      if p.0 == UUID {
        assert p in CanonicalEntry(e) <==> p in e;
        assert p in u.Visible(CanonicalEntry(e)) <==> p in u.Visible(f);
      }
    }
  }

  /** A replica that agrees with a master is a sound directory. */
  lemma AgreeingIsSound(u: Setup, m: Dit, r: Dit)
    requires u.Valid() && u.IsMaster(m) && u.Agree(m, r)
    ensures Sound(r, u.suffix)
  {
    hide Setup.Visible, CanonicalEntry, PairsOf, Setup.Hidden;
    forall dn | dn in r
      ensures HasOneUuid(r[dn]) && r[dn] != {} && IsRdn(dn[0])
    {
      assert u.MayHold(dn, m[dn]);
      VisibleUuid(u, m[dn], r[dn]);
      var v :| PairsOf(m[dn], UUID) == {(UUID, v)};
      assert PairsOf(r[dn], UUID) == {(UUID, v)};
      NotEmpty(r[dn], UUID, v);
    }
  }

  lemma NotEmpty(e: Entry, attr: string, v: string)
    requires PairsOf(e, attr) == {(attr, v)}
    ensures e != {}
  {
    assert (attr, v) in PairsOf(e, attr);
  }

  lemma IsEventOf(u: Setup, dn: Dn, entry: Dict, op: char)
    requires IsEntry(entry) && u.MayHold(dn, PairsIn(entry))
    ensures IsEvent(Event(dn, entry, op)) && entry != map[]
  {
    var v :| PairsOf(PairsIn(entry), UUID) == {(UUID, v)};
    assert (UUID, v) in PairsOf(PairsIn(entry), UUID);
    forall i | 0 <= i < |entry[UUID]|
      ensures entry[UUID][i] == v
    {
      assert (UUID, entry[UUID][i]) in PairsOf(PairsIn(entry), UUID);
    }
    if |entry[UUID]| > 1 {
      NotDistinct(entry[UUID], v);
    }
  }

  lemma NotDistinct(values: seq<string>, v: string)
    requires 1 < |values| && forall i :: 0 <= i < |values| ==> values[i] == v
    ensures !Distinct(values)
  {
    assert values[0] == values[1];
  }

  /** Adding and modifying make the visible part of the local entry that of the new one. */
  lemma VisibleAfterUpdate(u: Setup, e: Entry, now: Entry)
    ensures u.Visible(Added(u.cfg, now)) == u.Visible(now)
    ensures u.Visible(Target(u.cfg, e, now)) == u.Visible(now)
  {
    hide Excluded;
  }

  lemma AgreeOn(u: Setup, m: Dit, r: Dit, dn: Dn, e: Entry, f: Entry)
    requires u.Agree(m, r) && u.Visible(CanonicalEntry(e)) == u.Visible(f)
    ensures u.Agree(m[dn := e], r[dn := f])
  {
  }

  lemma AgreeWithout(u: Setup, m: Dit, r: Dit, dn: Dn)
    requires u.Agree(m, r)
    ensures u.Agree(m - {dn}, r - {dn})
  {
  }

  /** What handler makes of one event for an entry that is there, when no rename is pending. */
  lemma UpdateKeepsAgreement(u: Setup, m: Dit, s: State, op: Op)
    requires u.Valid() && u.Agree(m, s.dit) && !s.Pending()
    requires (op.AddOp? || op.ModifyOp?) && MasterStep(u, m, op).Some?
    ensures IsEvent(Events(op)[0])
    ensures
      var o := Step(u.cfg, u.suffix, s, Events(op)[0]);
      o.ok && !o.state.Pending() && u.Agree(MasterStep(u, m, op).value, o.state.dit)
  {
    hide Excluded, Canonical, CanonicalEntry, PairsIn, Target, Added, Setup.MayHold;
    var dn, entry := op.dn, op.entry;
    var e := PairsIn(entry);
    assert u.MayHold(dn, e) && IsEntry(entry);
    IsEventOf(u, dn, entry, Events(op)[0].op);
    CanonicalIsEntry(entry);
    HeldHasOnePassword(u, dn, e);
    CanonicalPairs(entry);
    var was := if dn in s.dit then s.dit[dn] else {};
    VisibleAfterUpdate(u, was, CanonicalEntry(e));
    AddedIsNotEmpty(u, dn, e);
    AgreeOn(u, m, s.dit, dn, e, Target(u.cfg, was, CanonicalEntry(e)));
    AgreeOn(u, m, s.dit, dn, e, Added(u.cfg, CanonicalEntry(e)));
    hide Setup.Agree;
  }

  lemma AddedIsNotEmpty(u: Setup, dn: Dn, e: Entry)
    requires u.Valid() && u.MayHold(dn, e)
    ensures Added(u.cfg, CanonicalEntry(e)) != {}
  {
    UuidIsVisible(u);
    var v :| PairsOf(e, UUID) == {(UUID, v)};
    assert (UUID, v) in PairsOf(e, UUID);
    assert (UUID, v) in Added(u.cfg, CanonicalEntry(e));
  }

  lemma DeleteStep(u: Setup, s: State, dn: Dn)
    requires Sound(s.dit, u.suffix) && DeleteEntry(s.dit, dn).Some?
    ensures IsEvent(Event(dn, map[], 'd'))
    ensures Step(u.cfg, u.suffix, s, Event(dn, map[], 'd')) == Outcome(s.(dit := s.dit - {dn}), true)
  {
    LeafIsSubtree(s.dit, u.suffix, dn);
    hide Prune;
  }

  lemma DeleteKeepsAgreement(u: Setup, m: Dit, s: State, dn: Dn)
    requires u.Valid() && u.IsMaster(m) && u.Agree(m, s.dit) && !s.Pending()
    requires MasterStep(u, m, DeleteOp(dn)).Some?
    ensures IsEvent(Event(dn, map[], 'd'))
    ensures
      var o := Step(u.cfg, u.suffix, s, Event(dn, map[], 'd'));
      o.ok && !o.state.Pending() && u.Agree(MasterStep(u, m, DeleteOp(dn)).value, o.state.dit)
  {
    hide Step, Setup.IsMaster, Setup.Visible, CanonicalEntry, Sound;
    AgreeingIsSound(u, m, s.dit);
    assert forall c :: c in s.dit <==> c in m;
    AgreeWithout(u, m, s.dit, dn);
    DeleteStep(u, s, dn);
  }

  /** The flag that is inferred from the renamed entry has the effect of the master's flag,
      whichever it was, for RDNs of any number of values. */
  lemma InferredFlag(e: Entry, from: Rdn, to: Rdn, deleteOld: bool, now: Dict, x: Entry)
    requires Avas(from) <= e
    requires forall p :: p in Avas(from) ==> (p in PairsIn(now) <==> p in RenamedEntry(e, from, to, deleteOld))
    ensures RenamedEntry(x, from, to, DeleteOld(from, now)) == RenamedEntry(x, from, to, deleteOld)
  {
    if deleteOld && !DeleteOld(from, now) {
      forall p | p in Avas(from)
        ensures p in Avas(to)
      {
        var i :| 0 <= i < |from| && from[i] == p;
        assert p in PairsIn(now);
      }
    } else if !deleteOld {
      forall i | 0 <= i < |from|
        ensures from[i].0 in now && from[i].1 in now[from[i].0]
      {
        assert from[i] in Avas(from) && from[i] in PairsIn(now);
      }
    }
  }

  lemma CanonicalKeeps(e: Entry, p: Pair)
    requires p.0 != PASSWORD_ATTRIBUTE
    ensures p in CanonicalEntry(e) <==> p in e
  {
  }

  /** Renaming corresponding entries in the same way keeps them corresponding. */
  lemma RenamedAgree(u: Setup, e: Entry, f: Entry, from: Rdn, to: Rdn, deleteOld: bool, g: Entry)
    requires u.IsOrdinary(from) && u.IsOrdinary(to)
    requires u.Visible(CanonicalEntry(e)) == u.Visible(f)
    requires SameBut(u.kept, RenamedEntry(e, from, to, deleteOld), g)
    ensures u.Visible(CanonicalEntry(g)) == u.Visible(RenamedEntry(f, from, to, deleteOld))
  {
    hide Excluded;
    var r := RenamedEntry(e, from, to, deleteOld);
    forall p: Pair | !u.Hidden(p.0)
      ensures p in CanonicalEntry(g) <==> p in RenamedEntry(f, from, to, deleteOld)
    {
      var w := (PASSWORD_ATTRIBUTE, "userPassword");
      assert w in Unkept(u.kept, r) <==> w in Unkept(u.kept, g);
      assert p in Unkept(u.kept, r) <==> p in Unkept(u.kept, g);
      assert p in u.Visible(CanonicalEntry(e)) <==> p in u.Visible(f);
    }
  }

  /** A rename moves the same names on both sides, and all entries but the renamed one as they
      are. */
  lemma RenameAlike(u: Setup, m: Dit, r: Dit, dn: Dn, rdn: Rdn, superior: Dn, flag: bool, inferred: bool)
    requires u.Agree(m, r) && RenameEntry(m, dn, rdn, superior, flag).Some?
    ensures RenameEntry(r, dn, rdn, superior, inferred).Some?
    ensures
      var to := [rdn] + superior;
      var m', r' := RenameEntry(m, dn, rdn, superior, flag).value, RenameEntry(r, dn, rdn, superior, inferred).value;
      && m'.Keys == r'.Keys && to in m'
      && m'[to] == RenamedEntry(m[dn], dn[0], rdn, flag)
      && r'[to] == RenamedEntry(r[dn], dn[0], rdn, inferred)
      && forall y :: y in m' && y != to ==> u.Visible(CanonicalEntry(m'[y])) == u.Visible(r'[y])
  {
    hide Setup.Visible, CanonicalEntry, Moved, RenamedEntry;
    assert Subtree(m, dn) == Subtree(r, dn);
    RenamedIsThere(m, dn, rdn, superior, flag);
    var to := [rdn] + superior;
    forall y | y in RenameEntry(m, dn, rdn, superior, flag).value && y !in m.Keys - Subtree(m, dn)
      ensures Under(y, to) && Moved(y, to, dn) in m
    {
      MovedBack(m, y, dn, to);
    }
  }

  lemma UuidSurvives(u: Setup, e: Entry, from: Rdn, to: Rdn, deleteOld: bool, g: Entry)
    requires u.Valid() && IsRdn(from) && IsRdn(to)
    requires SameBut(u.kept, RenamedEntry(e, from, to, deleteOld), g)
    ensures PairsOf(g, UUID) == PairsOf(e, UUID)
  {
    forall p
      ensures p in PairsOf(g, UUID) <==> p in PairsOf(e, UUID)
    {
      assert p in Unkept(u.kept, RenamedEntry(e, from, to, deleteOld)) <==> p in Unkept(u.kept, g);
    }
  }

  lemma FirstUuidOf(now: Dict, v: Uuid)
    requires IsEntry(now) && PairsOf(PairsIn(now), UUID) == {(UUID, v)}
    ensures UUID in now && now[UUID] != [] && now[UUID][0] == v
  {
    assert (UUID, v) in PairsOf(PairsIn(now), UUID);
    assert (UUID, now[UUID][0]) in PairsOf(PairsIn(now), UUID);
  }

  /** The first half of a rename leaves the marker. */
  lemma FirstHalf(u: Setup, s: State, dn: Dn, v: Uuid)
    requires dn in s.dit && dn != [] && IsRdn(dn[0]) && PairsOf(s.dit[dn], UUID) == {(UUID, v)}
    ensures IsEvent(Event(dn, map[], 'r'))
    ensures Step(u.cfg, u.suffix, s, Event(dn, map[], 'r'))
         == Outcome(State(s.dit, Some(v), s.cache[v := dn]), true)
  {
    assert HasOneUuid(s.dit[dn]);
    assert (UUID, v) in {(UUID, UuidOf(s.dit[dn]))};
  }

  /** The second half renames, if the old name is there and the new one is not. */
  lemma SecondHalf(u: Setup, s: State, dn: Dn, now: Dict, v: Uuid, from: Dn)
    requires IsEvent(Event(dn, now, 'a')) && now != map[] && now[UUID][0] == v
    requires s.link == Some(v) && v in s.cache && s.cache[v] == from
    requires dn !in s.dit && from in s.dit && from != []
    requires RenameEntry(s.dit, from, dn[0], dn[1..], DeleteOld(from[0], Canonical(now))).Some?
    ensures
      var r := RenameEntry(s.dit, from, dn[0], dn[1..], DeleteOld(from[0], Canonical(now)));
      Step(u.cfg, u.suffix, s, Event(dn, now, 'a')) == Outcome(State(r.value, None, s.cache - {v}), true)
  {
    hide RenameEntry, DeleteOld;
    CanonicalIsEntry(now);
  }

  /** The entry that comes with the second half tells the local server the right flag. */
  lemma FlagFits(u: Setup, e: Entry, from: Rdn, to: Rdn, deleteOld: bool, now: Dict, name: Dn, x: Entry)
    requires u.IsOrdinary(from) && Avas(from) <= e && IsEntry(now) && u.MayHold(name, PairsIn(now))
    requires SameBut(u.kept, RenamedEntry(e, from, to, deleteOld), PairsIn(now))
    ensures
      RenamedEntry(x, from, to, DeleteOld(from, Canonical(now))) == RenamedEntry(x, from, to, deleteOld)
  {
    hide Excluded, RenamedEntry, Canonical, CanonicalEntry;
    var r := RenamedEntry(e, from, to, deleteOld);
    CanonicalPairs(now);
    forall p | p in Avas(from)
      ensures p in PairsIn(Canonical(now)) <==> p in r
    {
      var i :| 0 <= i < |from| && from[i] == p;
      CanonicalKeeps(PairsIn(now), p);
      assert p in Unkept(u.kept, r) <==> p in Unkept(u.kept, PairsIn(now));
    }
    InferredFlag(e, from, to, deleteOld, Canonical(now), x);
  }

  lemma DeliverOne(u: Setup, s: State, e: Event)
    requires IsEvent(e)
    ensures AllEvents([e])
    ensures Deliver(u, s, [e]) == Step(u.cfg, u.suffix, s, e)
  {
    hide Step;
    assert [e][1..] == [];
  }

  lemma DeliverTwo(u: Setup, s: State, e: Event, f: Event, s': State)
    requires IsEvent(e) && IsEvent(f) && Step(u.cfg, u.suffix, s, e) == Outcome(s', true)
    ensures AllEvents([e, f])
    ensures Deliver(u, s, [e, f]) == Step(u.cfg, u.suffix, s', f)
  {
    hide Step;
    assert [e, f][1..] == [f];
    DeliverOne(u, s', f);
  }

  /** The flag that the replica renames with. */
  predicate Inferred(op: Op)
    requires op.RenameOp?
  {
    op.dn != [] && DeleteOld(op.dn[0], Canonical(op.entry))
  }

  /** Both halves of a rename: the replica's rename, with the flag that it infers. */
  lemma TwoHalves(u: Setup, m: Dit, s: State, op: Op)
    requires u.Valid() && u.IsMaster(m) && u.Agree(m, s.dit)
    requires op.RenameOp? && MasterStep(u, m, op).Some?
    ensures AllEvents(Events(op))
    ensures
      var r := RenameEntry(s.dit, op.dn, op.rdn, op.superior, Inferred(op));
      var o := Deliver(u, s, Events(op));
      r.Some? && o.ok && o.state.link == None && o.state.dit == r.value
  {
    hide RenameEntry, Setup.Visible, CanonicalEntry, RenamedEntry, PairsIn, Step, PairsOf, Canonical,
         DeleteOld, Unkept;
    var dn, to, entry := op.dn, [op.rdn] + op.superior, op.entry;
    var g := PairsIn(entry);
    RenamedIsThere(m, dn, op.rdn, op.superior, op.deleteOld);
    RenameNeedsEntry(m, dn, op.rdn, op.superior, op.deleteOld);
    assert u.MayHold(dn, m[dn]) && u.MayHold(to, g);
    IsEventOf(u, to, entry, 'a');
    var v :| PairsOf(m[dn], UUID) == {(UUID, v)};
    VisibleUuid(u, m[dn], s.dit[dn]);
    FirstHalf(u, s, dn, v);
    var s' := State(s.dit, Some(v), s.cache[v := dn]);
    var flag := DeleteOld(dn[0], Canonical(entry));
    RenameAlike(u, m, s.dit, dn, op.rdn, op.superior, op.deleteOld, flag);
    UuidSurvives(u, m[dn], dn[0], op.rdn, op.deleteOld, g);
    FirstUuidOf(entry, v);
    assert to[1..] == op.superior;
    SecondHalf(u, s', to, entry, v, dn);
    DeliverTwo(u, s, Event(dn, map[], 'r'), Event(to, entry, 'a'), s');
  }

  lemma RenameKeepsAgreement(u: Setup, m: Dit, s: State, op: Op)
    requires u.Valid() && u.IsMaster(m) && u.Agree(m, s.dit)
    requires op.RenameOp? && MasterStep(u, m, op).Some?
    ensures AllEvents(Events(op))
    ensures
      var o := Deliver(u, s, Events(op));
      o.ok && !o.state.Pending() && u.Agree(MasterStep(u, m, op).value, o.state.dit)
  {
    hide Step, Deliver, AllEvents;
    TwoHalves(u, m, s, op);
    hide Setup.IsMaster, Setup.Agree, MasterStep, RenameEntry;
    RenamesAgree(u, m, s.dit, op);
  }

  /** The master's rename and the one with the inferred flag. */
  lemma RenamesAgree(u: Setup, m: Dit, r: Dit, op: Op)
    requires u.Valid() && u.IsMaster(m) && u.Agree(m, r)
    requires op.RenameOp? && MasterStep(u, m, op).Some?
    ensures
      var renamed := RenameEntry(r, op.dn, op.rdn, op.superior, Inferred(op));
      renamed.Some? && u.Agree(MasterStep(u, m, op).value, renamed.value)
  {
    hide RenameEntry, Setup.Visible, CanonicalEntry, RenamedEntry, PairsIn, Canonical, DeleteOld, Unkept, IsTree;
    hide SameBut, HasOneUuid, HasOnePassword;
    var dn, to, entry := op.dn, [op.rdn] + op.superior, op.entry;
    RenamedIsThere(m, dn, op.rdn, op.superior, op.deleteOld);
    RenameNeedsEntry(m, dn, op.rdn, op.superior, op.deleteOld);
    assert u.MayHold(dn, m[dn]) && u.MayHold(to, PairsIn(entry));
    hide Setup.IsMaster;
    RenameAlike(u, m, r, dn, op.rdn, op.superior, op.deleteOld, Inferred(op));
    FlagFits(u, m[dn], dn[0], op.rdn, op.deleteOld, entry, to, r[dn]);
    RenamedAgree(u, m[dn], r[dn], dn[0], op.rdn, op.deleteOld, PairsIn(entry));
    var m' := RenameEntry(m, dn, op.rdn, op.superior, op.deleteOld).value;
    var r' := RenameEntry(r, dn, op.rdn, op.superior, Inferred(op)).value;
    hide Setup.MayHold, Setup.Agree;
    AgreeButOne(u, m', r', to, PairsIn(entry));
  }

  lemma AgreeButOne(u: Setup, m: Dit, r: Dit, dn: Dn, e: Entry)
    requires m.Keys == r.Keys && dn in m
    requires forall y :: y in m && y != dn ==> u.Visible(CanonicalEntry(m[y])) == u.Visible(r[y])
    requires u.Visible(CanonicalEntry(e)) == u.Visible(r[dn])
    ensures u.Agree(m[dn := e], r)
  {
    hide Setup.Visible, CanonicalEntry;
  }

  lemma RenameNeedsEntry(d: Dit, dn: Dn, rdn: Rdn, superior: Dn, deleteOld: bool)
    requires RenameEntry(d, dn, rdn, superior, deleteOld).Some?
    ensures dn in d && dn != [] && [rdn] + superior !in d
  {
  }

  /** One operation of the master, delivered as a whole, keeps the replica in agreement. */
  lemma OperationKeepsAgreement(u: Setup, m: Dit, s: State, op: Op)
    requires u.Valid() && u.IsMaster(m) && u.Agree(m, s.dit) && !s.Pending()
    requires MasterStep(u, m, op).Some?
    ensures AllEvents(Events(op))
    ensures
      var o := Deliver(u, s, Events(op));
      o.ok && !o.state.Pending() && u.Agree(MasterStep(u, m, op).value, o.state.dit)
  {
    hide MasterStep, Step, Setup.Agree, Setup.IsMaster;
    match op
    case RenameOp(_, _, _, _, _) => RenameKeepsAgreement(u, m, s, op);
    case DeleteOp(dn) =>
      DeleteKeepsAgreement(u, m, s, dn);
      DeliverOne(u, s, Events(op)[0]);
    case _ =>
      UpdateKeepsAgreement(u, m, s, op);
      DeliverOne(u, s, Events(op)[0]);
  }

  /** The master stays a tree of entries that it may hold. */
  lemma MasterStays(u: Setup, m: Dit, op: Op)
    requires u.Valid() && u.IsMaster(m) && MasterStep(u, m, op).Some?
    ensures u.IsMaster(MasterStep(u, m, op).value)
  {
    match op
    case RenameOp(dn, rdn, superior, deleteOld, entry) =>
      RenameKeepsTree(u, m, dn, rdn, superior, deleteOld, PairsIn(entry));
    case DeleteOp(dn) => DeleteKeepsTree(u, m, dn);
    case _ => SetKeepsTree(u, m, op.dn, PairsIn(op.entry));
  }

  lemma SetKeepsTree(u: Setup, m: Dit, dn: Dn, e: Entry)
    requires u.IsMaster(m) && u.MayHold(dn, e) && Under(dn, u.suffix)
    requires dn in m || dn == u.suffix || dn[1..] in m
    ensures u.IsMaster(m[dn := e])
  {
    HeldIsNotEmpty(u, dn, e);
    hide Setup.MayHold, Under;
  }

  lemma HeldIsNotEmpty(u: Setup, dn: Dn, e: Entry)
    requires u.MayHold(dn, e)
    ensures e != {}
  {
    assert dn[0][0] in Avas(dn[0]);
  }

  lemma DeleteKeepsTree(u: Setup, m: Dit, dn: Dn)
    requires u.IsMaster(m) && DeleteEntry(m, dn).Some?
    ensures u.IsMaster(m - {dn})
  {
    hide Setup.MayHold, Under;
    forall x | x in m - {dn} && x != u.suffix
      ensures x != [] && x[1..] in m - {dn}
    {
      UnderParent(x, u.suffix);
    }
  }

  lemma RenameKeepsTree(u: Setup, m: Dit, dn: Dn, rdn: Rdn, superior: Dn, deleteOld: bool, e: Entry)
    requires u.IsMaster(m) && RenameEntry(m, dn, rdn, superior, deleteOld).Some?
    requires u.MayHold([rdn] + superior, e)
    ensures u.IsMaster(RenameEntry(m, dn, rdn, superior, deleteOld).value[[rdn] + superior := e])
  {
    hide Setup.MayHold, RenameEntry, Under;
    var to := [rdn] + superior;
    var r := RenameEntry(m, dn, rdn, superior, deleteOld).value;
    RenameMovesTree(m, u.suffix, dn, rdn, superior, deleteOld);
    HeldIsNotEmpty(u, to, e);
    forall y | y in r && y != to
      ensures r[y] != {} && u.MayHold(y, r[y])
    {
      var x :| x in m && r[y] == m[x] && x != [] && y[0] == x[0];
      SameRdn(u, x, y, m[x]);
    }
  }

  lemma SameRdn(u: Setup, x: Dn, y: Dn, e: Entry)
    requires u.MayHold(x, e) && y != [] && y[0] == x[0]
    ensures u.MayHold(y, e)
  {
  }

  /** The master after some operations, if it accepts them all. */
  ghost function MasterRun(u: Setup, m: Dit, ops: seq<Op>): Option<Dit> {
    if ops == [] then Some(m)
    else
      match MasterRun(u, m, ops[..|ops| - 1])
      case None => None
      case Some(d) => MasterStep(u, d, ops[|ops| - 1])
  }

  ghost function ReplicaRun(u: Setup, s: State, ops: seq<Op>): Outcome {
    if ops == [] then Outcome(s, true)
    else
      var o := ReplicaRun(u, s, ops[..|ops| - 1]);
      var op := ops[|ops| - 1];
      if !o.ok || !AllEvents(Events(op)) then Outcome(o.state, false) else Deliver(u, o.state, Events(op))
  }

  /** Over every run of operations that the master accepts, a replica that agrees with it at the
      start agrees with it after each of them. */
  lemma {:induction false} ReplicaFollowsMaster(u: Setup, m: Dit, s: State, ops: seq<Op>)
    requires u.Valid() && u.IsMaster(m) && u.Agree(m, s.dit) && !s.Pending()
    requires MasterRun(u, m, ops).Some?
    ensures u.IsMaster(MasterRun(u, m, ops).value)
    ensures
      var o := ReplicaRun(u, s, ops);
      o.ok && !o.state.Pending() && u.Agree(MasterRun(u, m, ops).value, o.state.dit)
  {
    hide MasterStep, Step, Setup.Agree, Setup.IsMaster, Deliver;
    if ops == [] {
    } else {
      var before, op := ops[..|ops| - 1], ops[|ops| - 1];
      ReplicaFollowsMaster(u, m, s, before);
      var d := MasterRun(u, m, before).value;
      MasterStays(u, d, op);
      OperationKeepsAgreement(u, d, ReplicaRun(u, s, before).state, op);
    }
  }

  /** What becomes of a marker whose second half has not come when another entry does.  All is well
      iff the entry with the old name is still there, and the entry that comes lies outside its
      subtree and is there or has a parent, or lies in it and needs no change.  Then the subtree is
      removed, the marker cleared and the entry written. */
  lemma StaleMarker(u: Setup, s: State, ev: Event)
    requires IsTree(s.dit, u.suffix)
    requires IsEvent(ev) && ev.now != map[] && s.Pending() && ev.now[UUID][0] != s.link.value
    requires s.cache[s.link.value] != []
    ensures
      var d, dn, from, now := s.dit, ev.dn, s.cache[s.link.value], PairsIn(Canonical(ev.now));
      var o := Step(u.cfg, u.suffix, s, ev);
      && (o.ok <==>
            from in d
            && if Under(dn, from) then dn in d && Target(u.cfg, d[dn], now) == d[dn]
               else dn in d || HasPlace(d, u.suffix, dn))
      && (o.ok ==>
            o.state == State(if Under(dn, from) then Prune(d, from)
                             else Prune(d, from)[dn := Written(u.cfg, d, dn, now)], None, s.cache))
      && (!o.ok ==> o.state.link == s.link && o.state.cache == s.cache)
  {
    hide Target, Added, PairsIn, Canonical, Prune, AddEntry, IsTree;
    CanonicalIsEntry(ev.now);
    var d, dn, from, now := s.dit, ev.dn, s.cache[s.link.value], Canonical(ev.now);
    WrittenUuid(u.cfg, {}, now);
    if from in d {
      var e := Added(u.cfg, PairsIn(now));
      PlaceInPruned(d, u.suffix, dn, from, e);
      if dn in d {
        SetInPruned(d, dn, from, Target(u.cfg, d[dn], PairsIn(now)));
      }
    }
  }

  /** The suffix, or a name under it whose parent is there. */
  predicate HasPlace(d: Dit, suffix: Dn, dn: Dn) {
    dn != [] && Under(dn, suffix) && (dn == suffix || dn[1..] in d)
  }

  /** What an add or a modification makes of an entry. */
  function Written(cfg: Config, d: Dit, dn: Dn, now: Entry): Entry {
    if dn in d then Target(cfg, d[dn], now) else Added(cfg, now)
  }

  /** Adding after a subtree has been removed: nothing can be added in it, and elsewhere it makes
      no difference. */
  lemma PlaceInPruned(d: Dit, suffix: Dn, dn: Dn, from: Dn, e: Entry)
    requires IsTree(d, suffix) && from in d && dn != [] && e != {}
    ensures dn !in d ==>
      AddEntry(Prune(d, from), suffix, dn, e)
      == if !Under(dn, from) && HasPlace(d, suffix, dn) then Some(Prune(d, from)[dn := e]) else None
  {
    hide IsTree;
    if dn !in d && Under(dn, from) {
      assert dn != from;
      UnderParent(dn, from);
      SuffixIsTop(d, suffix, dn, from);
    } else if dn !in d && Under(dn[1..], from) {
      UnderChild(dn, from);
    }
  }

  lemma SuffixIsTop(d: Dit, suffix: Dn, dn: Dn, from: Dn)
    requires IsTree(d, suffix) && from in d && Under(dn, from) && dn != from
    ensures dn != suffix
  {
    assert Under(from, suffix);
    hide IsTree;
  }

  lemma SetInPruned(d: Dit, dn: Dn, from: Dn, f: Entry)
    requires dn in d
    ensures dn in Prune(d, from) <==> !Under(dn, from)
    ensures f == d[dn] && !Under(dn, from) ==> Prune(d, from)[dn := f] == Prune(d, from)
  {
  }

  /** A pending rename whose entry is gone: no write of another entry succeeds, and the marker stays. */
  lemma MarkerStays(u: Setup, s: State, ev: Event)
    requires IsTree(s.dit, u.suffix)
    requires IsEvent(ev) && ev.now != map[] && s.Pending() && ev.now[UUID][0] != s.link.value
    requires s.cache[s.link.value] != [] && s.cache[s.link.value] !in s.dit
    ensures !Step(u.cfg, u.suffix, s, ev).ok && Step(u.cfg, u.suffix, s, ev).state == s
  {
    hide Canonical;
    CanonicalIsEntry(ev.now);
  }

  /** A rename of an entry to the name that it has, which changes nothing on the master.  The
      replica then agrees with it iff the entry has no children: they are lost. */
  lemma RenameToSameName(u: Setup, m: Dit, s: State, dn: Dn, entry: Dict)
    requires u.Valid() && u.IsMaster(m) && u.Agree(m, s.dit)
    requires dn in m && IsEntry(entry) && PairsIn(entry) == m[dn]
    ensures AllEvents([Event(dn, map[], 'r'), Event(dn, entry, 'a')])
    ensures
      var o := Deliver(u, s, [Event(dn, map[], 'r'), Event(dn, entry, 'a')]);
      o.ok && (u.Agree(m, o.state.dit) <==> IsLeaf(m, dn))
  {
    hide Step, Setup.MayHold, Canonical, CanonicalEntry, Added, PairsOf, PairsIn;
    assert u.MayHold(dn, m[dn]);
    AgreeingIsSound(u, m, s.dit);
    IsEventOf(u, dn, entry, 'a');
    HasUuid(u, dn, m[dn]);
    var v :| PairsOf(m[dn], UUID) == {(UUID, v)};
    VisibleUuid(u, m[dn], s.dit[dn]);
    FirstHalf(u, s, dn, v);
    FirstUuidOf(entry, v);
    var s' := State(s.dit, Some(v), s.cache[v := dn]);
    HeldHasOnePassword(u, dn, m[dn]);
    CanonicalPairs(entry);
    AddedIsNotEmpty(u, dn, m[dn]);
    var e := Added(u.cfg, CanonicalEntry(m[dn]));
    SecondHalfInPlace(u, s', dn, entry, v, e);
    DeliverTwo(u, s, Event(dn, map[], 'r'), Event(dn, entry, 'a'), s');
    VisibleAfterUpdate(u, {}, CanonicalEntry(m[dn]));
    InPlaceAgrees(u, m, s.dit, dn, e);
  }

  lemma HasUuid(u: Setup, dn: Dn, e: Entry)
    requires u.MayHold(dn, e)
    ensures exists v :: PairsOf(e, UUID) == {(UUID, v)}
  {
  }

  lemma SecondHalfInPlace(u: Setup, s: State, dn: Dn, now: Dict, v: Uuid, e: Entry)
    requires IsTree(s.dit, u.suffix) && dn in s.dit
    requires IsEvent(Event(dn, now, 'a')) && now != map[] && now[UUID][0] == v
    requires s.link == Some(v) && v in s.cache && s.cache[v] == dn
    requires e == Added(u.cfg, PairsIn(Canonical(now))) && e != {}
    ensures Step(u.cfg, u.suffix, s, Event(dn, now, 'a'))
         == Outcome(State(Prune(s.dit, dn)[dn := e], None, s.cache - {v}), true)
  {
    hide Added, PairsIn;
    CanonicalIsEntry(now);
    var d := Prune(s.dit, dn);
    assert dn !in d;
    if dn != u.suffix {
      assert dn[1..] in d;
    }
    assert AddEntry(d, u.suffix, dn, e) == Some(d[dn := e]);
  }

  lemma ChildIsPruned(m: Dit, r: Dit, dn: Dn, e: Entry)
    requires m.Keys == r.Keys && !IsLeaf(m, dn)
    ensures m.Keys != Prune(r, dn)[dn := e].Keys
  {
    var c :| c in m && c != [] && c[1..] == dn;
    assert c[|c| - |dn|..] == dn;
    assert c in r && c !in Prune(r, dn)[dn := e];
  }

  lemma LeafPruned(suffix: Dn, m: Dit, r: Dit, dn: Dn)
    requires IsTree(m, suffix) && m.Keys == r.Keys && dn in m && IsLeaf(m, dn)
    ensures Prune(r, dn) == r - {dn}
  {
    hide IsTree, IsLeaf;
    assert Under(dn, dn);
    hide Under;
    forall x | x in Subtree(r, dn)
      ensures x == dn
    {
      NothingUnderLeaf(m, suffix, dn, x);
    }
  }

  lemma InPlaceAgrees(u: Setup, m: Dit, r: Dit, dn: Dn, e: Entry)
    requires u.IsMaster(m) && u.Agree(m, r) && dn in m && u.Visible(CanonicalEntry(m[dn])) == u.Visible(e)
    ensures u.Agree(m, Prune(r, dn)[dn := e]) <==> IsLeaf(m, dn)
  {
    hide CanonicalEntry, Setup.Visible, Setup.MayHold;
    var d := Prune(r, dn)[dn := e];
    if IsLeaf(m, dn) {
      LeafPruned(u.suffix, m, r, dn);
      hide Prune, IsLeaf, Setup.IsMaster;
      assert d == (r - {dn})[dn := e];
      assert d.Keys == m.Keys;
    } else {
      ChildIsPruned(m, r, dn, e);
    }
  }

  // A directory of two entries.

  const TOP: Dn := [[("dc", "x")]]

  const CHILD: Dn := [[("cn", "y")], [("dc", "x")]]

  function TopEntry(): Dict {
    map["dc" := ["x"], UUID := ["1"]]
  }

  ghost function TwoEntries(): Dit {
    map[TOP := {("dc", "x"), (UUID, "1")}, CHILD := {("cn", "y"), (UUID, "2")}]
  }

  const SMALL := Setup(Config(true, "uniqueMember"), TOP, {})

  lemma ShortIsNotExcluded(cfg: Config, attr: string)
    requires |attr| < 7
    ensures !Excluded(cfg, attr)
  {
    assert |Lower(attr)| < 7;
  }

  lemma EntryMayHold(rdn: Pair, v: string, dn: Dn)
    requires |rdn.0| == 2 && dn != [] && dn[0] == [rdn]
    ensures SMALL.MayHold(dn, {rdn, (UUID, v)})
  {
    ShortIsNotExcluded(SMALL.cfg, rdn.0);
    hide Excluded;
    assert |UUID| == 9 && |PASSWORD_ATTRIBUTE| == 12;
    assert Avas([rdn]) == {rdn};
    assert PairsOf({rdn, (UUID, v)}, UUID) == {(UUID, v)};
  }

  lemma NamesDiffer()
    ensures CHILD != TOP && CHILD[1..] == TOP && Under(CHILD, TOP) && Under(TOP, TOP) && !Under(TOP, CHILD)
  {
    assert CHILD[|CHILD| - |TOP|..] == TOP && TOP[|TOP| - |TOP|..] == TOP;
  }

  lemma NothingToName(e: Entry)
    requires forall p :: p in e ==> |p.0| < 12
    ensures CanonicalEntry(e) == e
  {
    assert |PASSWORD_ATTRIBUTE| == 12;
  }

  lemma TwoEntriesAreMaster()
    ensures SMALL.Valid() && SMALL.IsMaster(TwoEntries())
    ensures !IsLeaf(TwoEntries(), TOP)
  {
    EntryMayHold(("dc", "x"), "1", TOP);
    EntryMayHold(("cn", "y"), "2", CHILD);
    NamesDiffer();
    hide Setup.MayHold, Under, IsTree;
    TwoEntriesAreTree();
    assert CHILD in TwoEntries() && CHILD != [] && CHILD[1..] == TOP;
  }

  lemma TwoEntriesAreTree()
    ensures IsTree(TwoEntries(), TOP)
  {
    NamesDiffer();
    hide Under;
    var m := TwoEntries();
    assert m[TOP] != {} && m[CHILD] != {} by {
      assert (UUID, "1") in m[TOP] && (UUID, "2") in m[CHILD];
    }
  }

  lemma TwoEntriesAgree()
    ensures SMALL.Agree(TwoEntries(), TwoEntries())
  {
    assert |UUID| == 9;
    NothingToName({("dc", "x"), (UUID, "1")});
    NothingToName({("cn", "y"), (UUID, "2")});
    hide CanonicalEntry;
  }

  /** A rename of the top entry to its own name loses the child. */
  lemma ChildIsLost()
    ensures
      var events := [Event(TOP, map[], 'r'), Event(TOP, TopEntry(), 'a')];
      && AllEvents(events)
      && !SMALL.Agree(TwoEntries(), Deliver(SMALL, State(TwoEntries(), None, map[]), events).state.dit)
  {
    hide Setup.Agree, Setup.IsMaster, Deliver, IsLeaf, IsEvent;
    TwoEntriesAreMaster();
    TwoEntriesAgree();
    TopPairs();
    RenameToSameName(SMALL, TwoEntries(), State(TwoEntries(), None, map[]), TOP, TopEntry());
  }

  lemma TopPairs()
    ensures IsEntry(TopEntry()) && PairsIn(TopEntry()) == TwoEntries()[TOP]
  {
    NamesDiffer();
    hide Under;
  }

  /** The marker of a rename of the child, which is gone, stays when the top entry is written. */
  lemma MarkerOfLostChild()
    ensures
      var s := State(map[TOP := TwoEntries()[TOP]], Some("2"), map["2" := CHILD]);
      var ev := Event(TOP, TopEntry(), 'm');
      && IsEvent(ev) && s.Pending()
      && !Step(SMALL.cfg, TOP, s, ev).ok && Step(SMALL.cfg, TOP, s, ev).state == s
  {
    TopPairs();
    EntryMayHold(("dc", "x"), "1", TOP);
    NamesDiffer();
    hide Step, IsEvent, Under, Setup.MayHold, PairsIn;
    IsEventOf(SMALL, TOP, TopEntry(), 'm');
    var s := State(map[TOP := TwoEntries()[TOP]], Some("2"), map["2" := CHILD]);
    MarkerStays(SMALL, s, Event(TOP, TopEntry(), 'm'));
  }
}
