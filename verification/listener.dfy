/** The replication listener of replication.py: one event of the master, applied to the local
    directory, with the two-step rename and its marker. */
module Listener {
  import opened Ldap
  import opened Modlist
  import opened Wrappers

  type Uuid = string

  /** The local directory, the symbolic link "current_modrdn" and the files that it can point to. */
  datatype State = State(dit: Dit, link: Option<Uuid>, cache: map<Uuid, Dn>) {

    /** The link exists and points to a file. */
    predicate Pending() {
      link.Some? && link.value in cache
    }
  }

  /** now is empty for an entry that is gone; op is 'r' for the first half of a rename. */
  datatype Event = Event(dn: Dn, now: Dict, op: char)

  datatype Outcome = Outcome(state: State, ok: bool)

  const UUID := "entryUUID"

  ghost predicate HasOneUuid(e: Entry) {
    exists u :: PairsOf(e, UUID) == {(UUID, u)}
  }

  ghost function UuidOf(e: Entry): (u: Uuid)
    ensures HasOneUuid(e) ==> PairsOf(e, UUID) == {(UUID, u)}
  {
    if HasOneUuid(e) then
      var u :| PairsOf(e, UUID) == {(UUID, u)};
      u
    else ""
  }

  predicate IsRdn(r: Rdn) {
    r != [] && forall i :: 0 <= i < |r| ==> r[i].0 != UUID
  }

  /** A directory tree in which each entry has one entryUUID and is not named by it. */
  ghost predicate Sound(d: Dit, suffix: Dn) {
    && IsTree(d, suffix)
    && forall dn :: dn in d ==> HasOneUuid(d[dn]) && IsRdn(dn[0])
  }

  /** What the directory listener delivers: a name, and an entry with an entryUUID, if any. */
  ghost predicate IsEvent(ev: Event) {
    && ev.dn != [] && IsRdn(ev.dn[0])
    && (ev.now != map[] ==> IsEntry(ev.now) && UUID in ev.now && |ev.now[UUID]| == 1)
  }

  /** The naming of the password attribute that the local server uses. */
  function Canonical(now: Dict): Dict {
    if "pwdAttribute" in now && now["pwdAttribute"] != [] && now["pwdAttribute"][0] == "userPassword"
    then now["pwdAttribute" := ["2.5.4.35"]]
    else now
  }

  lemma CanonicalIsEntry(now: Dict)
    requires IsEntry(now)
    ensures IsEntry(Canonical(now)) && (now == map[] <==> Canonical(now) == map[])
    ensures UUID in now ==> UUID in Canonical(now) && Canonical(now)[UUID] == now[UUID]
  {
  }

  /** Whether the old RDN's values are to be deleted: one of them is not in the new entry. */
  predicate DeleteOld(from: Rdn, now: Dict) {
    exists i :: 0 <= i < |from| && (from[i].0 !in now || from[i].1 !in now[from[i].0])
  }

  /** The parts of handler, as functions on the state. */

  ghost function Update(cfg: Config, suffix: Dn, s: State, dn: Dn, now: Dict): Outcome {
    if dn in s.dit then
      Outcome(s.(dit := s.dit[dn := Target(cfg, s.dit[dn], PairsIn(now))]), true)
    else
      match AddEntry(s.dit, suffix, dn, Added(cfg, PairsIn(now)))
      case None => Outcome(s, false)
      case Some(d) => Outcome(s.(dit := d), true)
  }

  /** The second half of a rename.  An entry that has the new name already is removed, and if the
      old name is gone the entry is added. */
  ghost function FinishRename(cfg: Config, suffix: Dn, s: State, dn: Dn, now: Dict): Outcome
    requires s.Pending() && dn != []
  {
    var d := if dn in s.dit then Prune(s.dit, dn) else s.dit;
    var from := s.cache[s.link.value];
    var result :=
      if from in d && from != []
      then RenameEntry(d, from, dn[0], dn[1..], DeleteOld(from[0], now))
      else AddEntry(d, suffix, dn, Added(cfg, PairsIn(now)));
    match result
    case None => Outcome(s.(dit := d), false)
    case Some(r) => Outcome(State(r, None, s.cache - {s.link.value}), true)
  }

  /** Another entry comes instead of the second half: the subtree with the old name is removed. */
  ghost function DropStale(cfg: Config, suffix: Dn, s: State, dn: Dn, now: Dict): Outcome
    requires s.Pending()
  {
    var from := s.cache[s.link.value];
    if from != [] && from !in s.dit then Outcome(s, false)
    else
      var d := if from != [] then Prune(s.dit, from) else s.dit;
      var result :=
        if dn !in s.dit then AddEntry(d, suffix, dn, Added(cfg, PairsIn(now)))
        else
          var target := Target(cfg, s.dit[dn], PairsIn(now));
          if target == s.dit[dn] then Some(d)
          else if dn in d then Some(d[dn := target])
          else None;
      match result
      case None => Outcome(s.(dit := d), false)
      case Some(r) => Outcome(s.(dit := r, link := None), true)
  }

  ghost function Write(cfg: Config, suffix: Dn, s: State, dn: Dn, now: Dict): Outcome
    requires dn != [] && UUID in now && now[UUID] != []
  {
    if !s.Pending() then Update(cfg, suffix, s, dn, now)
    else if now[UUID][0] == s.link.value then FinishRename(cfg, suffix, s, dn, now)
    else DropStale(cfg, suffix, s, dn, now)
  }

  /** handler, for a replica that can be reached. */
  ghost function Step(cfg: Config, suffix: Dn, s: State, ev: Event): Outcome
    requires IsEvent(ev)
  {
    CanonicalIsEntry(ev.now);
    var now := Canonical(ev.now);
    if now != map[] then Write(cfg, suffix, s, ev.dn, now)
    else if ev.dn !in s.dit then Outcome(s, true)
    else if ev.op == 'r' then
      var u := UuidOf(s.dit[ev.dn]);
      Outcome(s.(link := Some(u), cache := s.cache[u := ev.dn]), true)
    else Outcome(s.(dit := Prune(s.dit, ev.dn)), true)
  }

  // Every step keeps the directory sound.

  lemma UnderBoth(x: Dn, y: Dn, z: Dn)
    requires Under(x, y) && Under(y, z)
    ensures Under(x, z)
  {
    assert x[|x| - |z|..] == x[|x| - |y|..][|y| - |z|..];
  }

  /** The parent of an entry outside a subtree is outside it. */
  lemma StaysAbove(d: Dit, suffix: Dn, dn: Dn, y: Dn)
    requires IsTree(d, suffix) && y in d && y !in Subtree(d, dn)
    ensures y != [] && (y != suffix ==> y[1..] in d.Keys - Subtree(d, dn))
  {
    if y != suffix && Under(y[1..], dn) {
      UnderChild(y, dn);
    }
  }

  lemma MovedStaysInTree(d: Dit, suffix: Dn, dn: Dn, to: Dn, y: Dn)
    requires IsTree(d, suffix) && dn in d && to != [] && Under(to[1..], suffix) && y != to
    requires Under(y, to) && Moved(y, to, dn) in Subtree(d, dn)
    ensures Under(y, suffix) && y != suffix && y != []
    ensures y[1..] in set x | x in Subtree(d, dn) :: Moved(x, dn, to)
    ensures Moved(y, to, dn) != [] && Moved(y, to, dn)[0] == y[0]
  {
    var x := Moved(y, to, dn);
    UnderParent(y, to);
    UnderChild(to, suffix);
    UnderBoth(y, to, suffix);
    UnderParent(x, dn);
    assert x[1..] in Subtree(d, dn) && y[1..] == Moved(x[1..], dn, to);
  }

  /** Each entry after a rename, but the renamed one, has been there with the same RDN. */
  lemma RenamedFrom(d: Dit, suffix: Dn, dn: Dn, rdn: Rdn, superior: Dn, deleteOld: bool, y: Dn)
    requires IsTree(d, suffix) && RenameEntry(d, dn, rdn, superior, deleteOld).Some?
    requires Under(superior, suffix)
    ensures
      var to, r := [rdn] + superior, RenameEntry(d, dn, rdn, superior, deleteOld).value;
      y in r && y != to ==>
        && y != [] && Under(y, suffix) && (y != suffix ==> y[1..] in r)
        && exists x :: x in d && r[y] == d[x] && x != [] && y[0] == x[0]
  {
    var to, r := [rdn] + superior, RenameEntry(d, dn, rdn, superior, deleteOld).value;
    if y in r && y != to {
      if y in d.Keys - Subtree(d, dn) {
        InTree(d, suffix, y);
        hide IsTree, RenamedEntry, Moved;
        StaysAbove(d, suffix, dn, y);
        assert r[y] == d[y];
      } else {
        hide IsTree, RenamedEntry;
        assert to[1..] == superior;
        MovedBack(d, y, dn, to);
        MovedStaysInTree(d, suffix, dn, to, y);
        assert r[y] == d[Moved(y, to, dn)];
      }
    }
  }

  lemma InTree(d: Dit, suffix: Dn, y: Dn)
    requires IsTree(d, suffix) && y in d
    ensures Under(y, suffix)
  {
  }

  /** A rename keeps the tree, and all entries but the renamed one with their RDNs. */
  lemma RenameMovesTree(d: Dit, suffix: Dn, dn: Dn, rdn: Rdn, superior: Dn, deleteOld: bool)
    requires IsTree(d, suffix) && RenameEntry(d, dn, rdn, superior, deleteOld).Some?
    ensures
      var to, r := [rdn] + superior, RenameEntry(d, dn, rdn, superior, deleteOld).value;
      && to in r && r[to] == RenamedEntry(d[dn], dn[0], rdn, deleteOld)
      && (forall y :: y in r ==> y != [] && Under(y, suffix) && (y != suffix ==> y[1..] in r))
      && forall y :: y in r && y != to ==> exists x :: x in d && r[y] == d[x] && x != [] && y[0] == x[0]
  {
    RenamedPlace(d, suffix, dn, rdn, superior, deleteOld);
    hide IsTree, RenameEntry, RenamedEntry, Under;
    var to := [rdn] + superior;
    var r := RenameEntry(d, dn, rdn, superior, deleteOld).value;
    forall y | y in r && y != to
      ensures y != [] && Under(y, suffix) && (y != suffix ==> y[1..] in r)
      ensures exists x :: x in d && r[y] == d[x] && x != [] && y[0] == x[0]
    {
      RenamedFrom(d, suffix, dn, rdn, superior, deleteOld, y);
    }
  }

  lemma RenamedPlace(d: Dit, suffix: Dn, dn: Dn, rdn: Rdn, superior: Dn, deleteOld: bool)
    requires IsTree(d, suffix) && RenameEntry(d, dn, rdn, superior, deleteOld).Some?
    ensures dn in d && dn != [] && Under(superior, suffix)
    ensures
      var to, r := [rdn] + superior, RenameEntry(d, dn, rdn, superior, deleteOld).value;
      && to in r && r[to] == RenamedEntry(d[dn], dn[0], rdn, deleteOld)
      && Under(to, suffix) && (to != suffix ==> to[1..] in r)
  {
    InTree(d, suffix, superior);
    hide IsTree, RenamedEntry;
    var to := [rdn] + superior;
    assert dn in Subtree(d, dn) && Moved(dn, dn, to) == to;
    assert to[1..] == superior;
    UnderChild(to, suffix);
  }

  lemma RenameIsSound(d: Dit, suffix: Dn, dn: Dn, rdn: Rdn, superior: Dn, deleteOld: bool)
    requires Sound(d, suffix) && IsRdn(rdn) && RenameEntry(d, dn, rdn, superior, deleteOld).Some?
    ensures Sound(RenameEntry(d, dn, rdn, superior, deleteOld).value, suffix)
  {
    hide RenameEntry, IsRdn, Under, HasOneUuid, RenamedEntry;
    var to := [rdn] + superior;
    var r := RenameEntry(d, dn, rdn, superior, deleteOld).value;
    RenameMovesTree(d, suffix, dn, rdn, superior, deleteOld);
    RenameFindsEntry(d, dn, rdn, superior, deleteOld);
    RenamedUuid(d[dn], dn[0], rdn, deleteOld);
    forall y | y in r
      ensures HasOneUuid(r[y]) && IsRdn(y[0]) && r[y] != {}
    {
      if y != to {
        var x :| x in d && r[y] == d[x] && x != [] && y[0] == x[0];
      } else {
        UuidIsPair(r[to]);
      }
    }
  }

  lemma RenameFindsEntry(d: Dit, dn: Dn, rdn: Rdn, superior: Dn, deleteOld: bool)
    requires RenameEntry(d, dn, rdn, superior, deleteOld).Some?
    ensures dn in d && dn != []
  {
  }

  lemma RenamedUuid(e: Entry, from: Rdn, to: Rdn, deleteOld: bool)
    requires HasOneUuid(e) && IsRdn(from) && IsRdn(to)
    ensures HasOneUuid(RenamedEntry(e, from, to, deleteOld))
  {
    var r := RenamedEntry(e, from, to, deleteOld);
    assert PairsOf(r, UUID) == PairsOf(e, UUID);
  }

  lemma UuidIsPair(e: Entry)
    requires HasOneUuid(e)
    ensures e != {}
  {
    var u :| PairsOf(e, UUID) == {(UUID, u)};
    assert (UUID, u) in PairsOf(e, UUID);
  }

  lemma LengthOfUuid()
    ensures |Lower(UUID)| == 9
  {
  }

  lemma UuidIsNotExcluded(cfg: Config)
    ensures !Excluded(cfg, UUID)
  {
    LengthOfUuid();
  }

  /** What is written for an event's entry has its entryUUID. */
  lemma WrittenUuid(cfg: Config, e: Entry, now: Dict)
    requires IsEntry(now) && UUID in now && |now[UUID]| == 1
    ensures HasOneUuid(Added(cfg, PairsIn(now))) && Added(cfg, PairsIn(now)) != {}
    ensures HasOneUuid(Target(cfg, e, PairsIn(now))) && Target(cfg, e, PairsIn(now)) != {}
  {
    UuidIsNotExcluded(cfg);
    hide Excluded;
    var u := now[UUID][0];
    forall p
      ensures p in PairsOf(PairsIn(now), UUID) <==> p == (UUID, u)
    {
    }
    assert PairsOf(Added(cfg, PairsIn(now)), UUID) == {(UUID, u)};
    assert PairsOf(Target(cfg, e, PairsIn(now)), UUID) == {(UUID, u)};
    UuidIsPair(Added(cfg, PairsIn(now)));
    UuidIsPair(Target(cfg, e, PairsIn(now)));
  }

  lemma SetIsSound(d: Dit, suffix: Dn, dn: Dn, e: Entry)
    requires Sound(d, suffix) && dn != [] && IsRdn(dn[0]) && HasOneUuid(e) && e != {} && Under(dn, suffix)
    requires dn in d || dn == suffix || dn[1..] in d
    ensures Sound(d[dn := e], suffix)
  {
    hide Under, HasOneUuid, IsRdn;
  }

  lemma StepKeepsSound(cfg: Config, suffix: Dn, s: State, ev: Event)
    requires IsEvent(ev) && Sound(s.dit, suffix)
    ensures Sound(Step(cfg, suffix, s, ev).state.dit, suffix)
  {
    hide Canonical, PairsIn, Added, Target, RenameEntry, Prune, HasOneUuid, DeleteOld, Sound, Under;
    CanonicalIsEntry(ev.now);
    var now, dn := Canonical(ev.now), ev.dn;
    PruneIsSound(s.dit, suffix, dn);
    if now != map[] {
      if !s.Pending() {
        WriteIsSound(cfg, suffix, s.dit, s.dit, dn, now);
      } else {
        var from := s.cache[s.link.value];
        PruneIsSound(s.dit, suffix, from);
        var d := if dn in s.dit then Prune(s.dit, dn) else s.dit;
        WriteIsSound(cfg, suffix, d, d, dn, now);
        WriteIsSound(cfg, suffix, s.dit, Prune(s.dit, from), dn, now);
        WriteIsSound(cfg, suffix, s.dit, s.dit, dn, now);
        if from in d && from != [] {
          var flag := DeleteOld(from[0], now);
          if RenameEntry(d, from, dn[0], dn[1..], flag).Some? {
            RenameIsSound(d, suffix, from, dn[0], dn[1..], flag);
          }
        }
      }
    }
  }

  /** Writing the entry that has come to a sound directory d. */
  lemma WriteIsSound(cfg: Config, suffix: Dn, was: Dit, d: Dit, dn: Dn, now: Dict)
    requires Sound(d, suffix) && dn != [] && IsRdn(dn[0])
    requires IsEntry(now) && UUID in now && |now[UUID]| == 1
    ensures
      var r := AddEntry(d, suffix, dn, Added(cfg, PairsIn(now)));
      r.Some? ==> Sound(r.value, suffix)
    ensures dn in was && dn in d ==> Sound(d[dn := Target(cfg, was[dn], PairsIn(now))], suffix)
  {
    hide Added, Target, PairsIn;
    var e := Added(cfg, PairsIn(now));
    WrittenUuid(cfg, if dn in was then was[dn] else {}, now);
    if AddEntry(d, suffix, dn, e).Some? {
      SetIsSound(d, suffix, dn, e);
    }
    if dn in was && dn in d {
      SetIsSound(d, suffix, dn, Target(cfg, was[dn], PairsIn(now)));
    }
  }

  /** Recursive deletion: entries are deleted one by one, in the reverse of the order in which a
      search has listed them. */

  function DeleteEach(d: Dit, dns: seq<Dn>): Option<Dit> {
    if dns == [] then Some(d)
    else
      match DeleteEntry(d, dns[|dns| - 1])
      case None => None
      case Some(e) => DeleteEach(e, dns[..|dns| - 1])
  }

  /** A listing of a subtree, without duplicates. */
  ghost predicate Lists(dns: seq<Dn>, d: Dit, top: Dn) {
    && (forall x :: x in dns <==> x in Subtree(d, top))
    && (forall i, j :: 0 <= i < j < |dns| ==> dns[i] != dns[j])
  }

  /** No entry is listed before its parent. */
  ghost predicate ParentsFirst(dns: seq<Dn>) {
    forall i, j :: 0 <= i < j < |dns| && dns[i] != [] ==> dns[i][1..] != dns[j]
  }

  lemma UnderParent(x: Dn, top: Dn)
    requires Under(x, top) && x != top
    ensures x != [] && Under(x[1..], top)
  {
    assert x[1..][|x| - 1 - |top|..] == x[|x| - |top|..];
  }

  lemma UnderChild(x: Dn, top: Dn)
    requires x != [] && Under(x[1..], top)
    ensures Under(x, top)
  {
    assert x[1..][|x| - 1 - |top|..] == x[|x| - |top|..];
  }

  /** d without the entries of the subtree that are not among the given ones. */
  function Remaining(d: Dit, top: Dn, dns: seq<Dn>): Dit {
    d - (Subtree(d, top) - set x | x in dns)
  }

  lemma LastIsLeaf(d: Dit, top: Dn, dns: seq<Dn>)
    requires dns != [] && forall x :: x in dns ==> x in Subtree(d, top)
    requires forall i, j :: 0 <= i < j < |dns| ==> dns[i] != dns[j]
    ensures
      var last := dns[|dns| - 1];
      last in Remaining(d, top, dns)
      && Remaining(d, top, dns) - {last} == Remaining(d, top, dns[..|dns| - 1])
      && (IsLeaf(Remaining(d, top, dns), last)
          <==> forall i :: 0 <= i < |dns| - 1 && dns[i] != [] ==> dns[i][1..] != last)
  {
    var last, before := dns[|dns| - 1], dns[..|dns| - 1];
    var rest := Remaining(d, top, dns);
    assert (set x | x in dns) == (set x | x in before) + {last};
    forall c | c in rest && c != [] && c[1..] == last
      ensures c in before
    {
      UnderChild(c, top);
      assert c in dns && c != last;
    }
    forall i | 0 <= i < |dns| - 1 && dns[i] != [] && dns[i][1..] == last
      ensures !IsLeaf(rest, last)
    {
      assert dns[i] in dns && dns[i] in rest;
    }
  }

  /** Whether the deletions succeed depends on the order of the listing only. */
  lemma {:induction false} DeletionsInOrder(d: Dit, top: Dn, dns: seq<Dn>)
    requires forall x :: x in dns ==> x in Subtree(d, top)
    requires forall i, j :: 0 <= i < j < |dns| ==> dns[i] != dns[j]
    ensures DeleteEach(Remaining(d, top, dns), dns).Some? <==> ParentsFirst(dns)
    ensures ParentsFirst(dns) ==> DeleteEach(Remaining(d, top, dns), dns) == Some(Prune(d, top))
    decreases |dns|
  {
    hide Remaining, IsLeaf, Subtree;
    if dns == [] {
      NothingRemains(d, top);
    } else {
      LastIsLeaf(d, top, dns);
      DeletionsInOrder(d, top, dns[..|dns| - 1]);
    }
  }

  lemma NothingRemains(d: Dit, top: Dn)
    ensures Remaining(d, top, []) == Prune(d, top)
  {
    assert (set x: Dn | x in []) == {};
  }

  /** Deleting a listed subtree in reverse succeeds iff no entry has been listed before its parent,
      and then removes the subtree and nothing else. */
  lemma RecursiveDeletion(d: Dit, top: Dn, dns: seq<Dn>)
    requires Lists(dns, d, top)
    ensures DeleteEach(d, dns) == if ParentsFirst(dns) then Some(Prune(d, top)) else None
  {
    assert (set x | x in dns) == Subtree(d, top);
    assert Remaining(d, top, dns) == d;
    DeletionsInOrder(d, top, dns);
  }

  /** Whatever is left of a subtree, some entry of it has no parent left. */
  lemma {:induction false} SomeTopmost(rest: set<Dn>, top: Dn, x: Dn)
    requires x in rest && forall y :: y in rest ==> Under(y, top)
    ensures exists y :: y in rest && (y == top || (y != [] && y[1..] !in rest))
    decreases |x|
  {
    if x != top {
      UnderParent(x, top);
      if x[1..] in rest {
        SomeTopmost(rest, top, x[1..]);
      }
    }
  }

  lemma ListedAfterParents(dns: seq<Dn>, top: Dn, rest: set<Dn>, y: Dn)
    requires ParentsFirst(dns) && (forall x :: x in dns ==> Under(x, top) && (x != top ==> x[1..] !in rest))
    requires y in rest && Under(y, top)
    ensures ParentsFirst(dns + [y])
  {
    forall i | 0 <= i < |dns| && dns[i] != []
      ensures dns[i][1..] != y
    {
      if dns[i] == top {
        assert |y| >= |top|;
      } else {
        assert dns[i] in dns;
      }
    }
  }

  method AnyListing(entries: set<Dn>, top: Dn) returns (dns: seq<Dn>)
    requires forall x :: x in entries ==> Under(x, top)
    ensures ParentsFirst(dns) && (forall x :: x in dns <==> x in entries)
    ensures forall i, j :: 0 <= i < j < |dns| ==> dns[i] != dns[j]
  {
    hide Under, ParentsFirst;
    var rest := entries;
    dns := [];
    assert ParentsFirst(dns) by { EmptyListing(); }
    while rest != {}
      invariant rest <= entries
      invariant forall x :: x in dns <==> x in entries && x !in rest
      invariant forall i, j :: 0 <= i < j < |dns| ==> dns[i] != dns[j]
      invariant forall x :: x in dns && x != top ==> x != [] && x[1..] !in rest
      invariant ParentsFirst(dns)
    {
      ghost var x :| x in rest;
      SomeTopmost(rest, top, x);
      var y :| y in rest && (y == top || (y != [] && y[1..] !in rest));
      ListedAfterParents(dns, top, rest, y);
      rest := rest - {y};
      dns := dns + [y];
    }
  }

  lemma EmptyListing()
    ensures ParentsFirst([])
  {
  }

  datatype Reply = Success | NoSuchObject | NotAllowedOnNonLeaf | OtherError

  /** The replica: the local server and the files of the listener. */
  class Replica {
    const cfg: Config
    const suffix: Dn
    var dit: Dit
    var link: Option<Uuid>
    var cache: map<Uuid, Dn>

    ghost function Now(): State
      reads this
    {
      State(dit, link, cache)
    }

    constructor (cfg: Config, suffix: Dn, s: State)
      ensures Now() == s && this.cfg == cfg && this.suffix == suffix
    {
      this.cfg, this.suffix := cfg, suffix;
      dit, link, cache := s.dit, s.link, s.cache;
    }

    /** getOldValues: the entry as a dictionary, in any order; empty if there is none. */
    method GetOldValues(dn: Dn) returns (was: Dict)
      requires Sound(dit, suffix)
      ensures IsEntry(was) && (dn in dit <==> was != map[])
      ensures dn in dit ==> PairsIn(was) == dit[dn]
    {
      if dn !in dit {
        return map[];
      }
      was := map[];
      var attrs := set p | p in dit[dn] :: p.0;
      ghost var u := UuidOf(dit[dn]);
      assert (UUID, u) in PairsOf(dit[dn], UUID);
      while attrs != {}
        invariant was.Keys !! attrs && was.Keys + attrs == set p | p in dit[dn] :: p.0
        invariant IsEntry(was)
        invariant forall k :: k in was ==> HoldsAll(dit[dn], k, was[k])
      {
        hide HoldsAll;
        var k :| k in attrs;
        attrs := attrs - {k};
        var values := set p | p in dit[dn] && p.0 == k :: p.1;
        var l := ListOf(values);
        ListHoldsAll(dit[dn], k, values, l);
        was := was[k := l];
      }
      PairsOfAll(dit[dn], was);
      assert UUID in was;
    }

    method DeleteS(dn: Dn) returns (r: Reply)
      modifies `dit
      ensures r == if dn !in old(dit) then NoSuchObject
                   else if !IsLeaf(old(dit), dn) then NotAllowedOnNonLeaf else Success
      ensures dit == if r == Success then DeleteEntry(old(dit), dn).value else old(dit)
    {
      if dn !in dit {
        return NoSuchObject;
      }
      match DeleteEntry(dit, dn)
      case None => r := NotAllowedOnNonLeaf;
      case Some(d) =>
        dit := d;
        r := Success;
    }

    /** A search of a whole subtree, for a server that lists parents before their children. */
    method SearchSubtree(top: Dn) returns (dns: seq<Dn>)
      ensures Lists(dns, dit, top) && ParentsFirst(dns)
    {
      dns := AnyListing(Subtree(dit, top), top);
    }

    /** _delete_dn_recursive. */
    method DeleteDnRecursive(dn: Dn) returns (ok: bool)
      requires IsTree(dit, suffix)
      modifies `dit
      ensures ok && dit == if dn in old(dit) then Prune(old(dit), dn) else old(dit)
    {
      hide IsTree, Under, ParentsFirst;
      ghost var d := dit;
      var r := DeleteS(dn);
      if r == NotAllowedOnNonLeaf {
        var dns := SearchSubtree(dn);
        RecursiveDeletion(d, dn, dns);
        assert dns[..|dns|] == dns;
        var i := |dns|;
        while i > 0
          invariant 0 <= i <= |dns|
          invariant DeleteEach(dit, dns[..i]) == Some(Prune(d, dn))
        {
          i := i - 1;
          assert dns[..i + 1][..i] == dns[..i];
          r := DeleteS(dns[i]);
          if r != Success { return false; }
        }
      } else if r == Success {
        LeafIsSubtree(d, suffix, dn);
      }
      ok := true;
    }

    method AddS(dn: Dn, al: Dict) returns (ok: bool)
      modifies `dit
      ensures ok == AddEntry(old(dit), suffix, dn, PairsIn(al)).Some?
      ensures dit == AddEntry(old(dit), suffix, dn, PairsIn(al)).GetOr(old(dit))
    {
      match AddEntry(dit, suffix, dn, PairsIn(al))
      case None => ok := false;
      case Some(d) =>
        dit := d;
        ok := true;
    }

    method ModifyS(dn: Dn, ml: seq<Mod>) returns (ok: bool)
      modifies `dit
      ensures ok == (dn in old(dit) && ModifyAll(old(dit)[dn], ml).Some?)
      ensures dit == if ok then old(dit)[dn := ModifyAll(old(dit)[dn], ml).value] else old(dit)
    {
      if dn !in dit {
        return false;
      }
      match ModifyAll(dit[dn], ml)
      case None => ok := false;
      case Some(e) =>
        dit := dit[dn := e];
        ok := true;
    }

    method RenameS(dn: Dn, rdn: Rdn, superior: Dn, deleteOld: bool) returns (ok: bool)
      modifies `dit
      ensures ok == RenameEntry(old(dit), dn, rdn, superior, deleteOld).Some?
      ensures dit == RenameEntry(old(dit), dn, rdn, superior, deleteOld).GetOr(old(dit))
    {
      match RenameEntry(dit, dn, rdn, superior, deleteOld)
      case None => ok := false;
      case Some(d) =>
        dit := d;
        ok := true;
    }

    method AddFromNew(dn: Dn, now: Dict) returns (ok: bool)
      modifies `dit
      ensures ok == AddEntry(old(dit), suffix, dn, Added(cfg, PairsIn(now))).Some?
      ensures dit == AddEntry(old(dit), suffix, dn, Added(cfg, PairsIn(now))).GetOr(old(dit))
    {
      AddListAdds(cfg, now);
      ok := AddS(dn, AddList(cfg, now));
    }

    /** The entry that the modifications are for may have been deleted since it was read. */
    method ModifyFromOldAndNew(dn: Dn, was: Dict, now: Dict) returns (ok: bool)
      requires IsEntry(was) && IsEntry(now) && (dn in dit ==> dit[dn] == PairsIn(was))
      modifies `dit
      ensures ok <==> dn in old(dit) || Target(cfg, PairsIn(was), PairsIn(now)) == PairsIn(was)
      ensures dit == if dn in old(dit) then old(dit)[dn := Target(cfg, PairsIn(was), PairsIn(now))]
                     else old(dit)
    {
      var ml := ModList(cfg, was, now);
      ok := true;
      if ml != [] {
        ok := ModifyS(dn, ml);
      }
    }

    /** handler. */
    method Handle(ev: Event) returns (ok: bool)
      requires IsEvent(ev) && Sound(dit, suffix)
      modifies `dit, `link, `cache
      ensures Outcome(Now(), ok) == Step(cfg, suffix, old(Now()), ev)
      ensures Sound(dit, suffix)
    {
      hide Canonical, PairsIn, Prune, Write, Sound;
      StepKeepsSound(cfg, suffix, Now(), ev);
      CanonicalIsEntry(ev.now);
      var now := Canonical(ev.now);
      var was := GetOldValues(ev.dn);
      if now != map[] {
        ok := HandleEntry(ev.dn, now, was);
      } else if was != map[] {
        if ev.op == 'r' {
          assert HasOneUuid(dit[ev.dn]) by { SoundUuid(dit, suffix, ev.dn); }
          FirstUuid(was, dit[ev.dn]);
          var uuid := was[UUID][0];
          cache := cache[uuid := ev.dn];
          link := Some(uuid);
          return true;
        }
        SoundTree(dit, suffix);
        ok := DeleteDnRecursive(ev.dn);
      } else {
        ok := true;
      }
    }

    /** The part of handler for an entry that is there; was is the local entry. */
    method HandleEntry(dn: Dn, now: Dict, was: Dict) returns (ok: bool)
      requires Sound(dit, suffix) && IsEntry(was) && IsEntry(now) && (dn in dit <==> was != map[])
      requires dn in dit ==> PairsIn(was) == dit[dn]
      requires dn != [] && UUID in now && now[UUID] != []
      modifies `dit, `link, `cache
      ensures Outcome(Now(), ok) == Write(cfg, suffix, old(Now()), dn, now)
    {
      hide AddEntry, RenameEntry, Target, Added, PairsIn, Prune, DeleteOld, Sound;
      if link.Some? && link.value in cache {
        var target, from := link.value, cache[link.value];
        if now[UUID][0] == target {
          ok := FinishRenameOf(dn, now, was, from);
          if !ok { return; }
          cache := cache - {target};
        } else {
          ok := DropStaleFor(dn, now, was, from);
          if !ok { return; }
        }
        link := None;
      } else if was != map[] {
        ok := ModifyFromOldAndNew(dn, was, now);
      } else {
        ok := AddFromNew(dn, now);
      }
    }

    method MustDeleteOld(rdn: Rdn, now: Dict) returns (deleteOld: bool)
      ensures deleteOld == DeleteOld(rdn, now)
    {
      deleteOld := false;
      for i := 0 to |rdn|
        invariant deleteOld <==> DeleteOld(rdn[..i], now)
      {
        OneMoreAva(rdn, i, now);
        var key, value := rdn[i].0, rdn[i].1;
        if key !in now {
          deleteOld := true;
        } else if value !in now[key] {
          deleteOld := true;
        }
      }
      assert rdn[..|rdn|] == rdn;
    }

    method FinishRenameOf(dn: Dn, now: Dict, was: Dict, from: Dn) returns (ok: bool)
      requires Sound(dit, suffix) && dn != [] && (dn in dit <==> was != map[])
      modifies `dit
      ensures
        var d := if dn in old(dit) then Prune(old(dit), dn) else old(dit);
        var r := if from in d && from != []
                 then RenameEntry(d, from, dn[0], dn[1..], DeleteOld(from[0], now))
                 else AddEntry(d, suffix, dn, Added(cfg, PairsIn(now)));
        ok == r.Some? && dit == r.GetOr(d)
    {
      hide AddEntry, RenameEntry, Added, PairsIn;
      if was != map[] {
        PruneIsSound(dit, suffix, dn);
        ok := DeleteDnRecursive(dn);
      }
      ghost var d := dit;
      var there := GetOldValues(from);
      assert from in d ==> from != [];
      if there != map[] {
        var deleteOld := MustDeleteOld(from[0], now);
        ok := RenameS(from, dn[0], dn[1..], deleteOld);
      } else {
        ok := AddFromNew(dn, now);
      }
    }

    method DropStaleFor(dn: Dn, now: Dict, was: Dict, from: Dn) returns (ok: bool)
      requires Sound(dit, suffix) && IsEntry(was) && IsEntry(now) && (dn in dit <==> was != map[])
      requires dn in dit ==> PairsIn(was) == dit[dn]
      modifies `dit
      ensures
        var s := old(dit);
        if from != [] && from !in s then !ok && dit == s
        else
          var d := if from != [] then Prune(s, from) else s;
          if dn !in s then
            var r := AddEntry(d, suffix, dn, Added(cfg, PairsIn(now)));
            ok == r.Some? && dit == r.GetOr(d)
          else
            var target := Target(cfg, s[dn], PairsIn(now));
            ok == (target == s[dn] || dn in d) && dit == if dn in d && target != s[dn] then d[dn := target] else d
    {
      hide AddEntry, Added, PairsIn, Target;
      if from != [] {
        if from !in dit {
          return false;
        }
        ok := DeleteDnRecursive(from);
      }
      if was == map[] {
        ok := AddFromNew(dn, now);
      } else {
        ghost var d := dit;
        ok := ModifyFromOldAndNew(dn, was, now);
        assert dn in d ==> d[dn := d[dn]] == d;
      }
    }
  }

  lemma SoundUuid(d: Dit, suffix: Dn, dn: Dn)
    requires Sound(d, suffix) && dn in d
    ensures HasOneUuid(d[dn])
  {
  }

  lemma SoundTree(d: Dit, suffix: Dn)
    requires Sound(d, suffix)
    ensures IsTree(d, suffix)
  {
  }

  /** The list has exactly the values of the attribute. */
  ghost predicate HoldsAll(e: Entry, k: string, l: seq<string>) {
    forall v :: v in l <==> (k, v) in e
  }

  lemma ListHoldsAll(e: Entry, k: string, values: set<string>, l: seq<string>)
    requires values == (set p | p in e && p.0 == k :: p.1) && Values(l) == values
    requires exists p :: p in e && p.0 == k
    ensures HoldsAll(e, k, l) && values != {}
  {
    assert forall v :: v in l <==> v in Values(l);
    forall v
      ensures v in values <==> (k, v) in e
    {
    }
    var p :| p in e && p.0 == k;
    assert p.1 in values;
  }

  lemma PairsOfAll(e: Entry, was: Dict)
    requires was.Keys == set p | p in e :: p.0
    requires forall k :: k in was ==> HoldsAll(e, k, was[k])
    ensures PairsIn(was) == e
  {
    forall p
      ensures p in PairsIn(was) <==> p in e
    {
      if p in e {
        assert p.0 in was && HoldsAll(e, p.0, was[p.0]);
      }
      if p in PairsIn(was) {
        assert HoldsAll(e, p.0, was[p.0]);
      }
    }
  }

  lemma FirstUuid(was: Dict, e: Entry)
    requires IsEntry(was) && PairsIn(was) == e && HasOneUuid(e)
    ensures UUID in was && was[UUID] != [] && was[UUID][0] == UuidOf(e)
  {
    var u := UuidOf(e);
    assert (UUID, u) in PairsOf(e, UUID);
    assert (UUID, was[UUID][0]) in PairsOf(e, UUID);
  }

  lemma OneMoreAva(r: Rdn, i: nat, now: Dict)
    requires i < |r|
    ensures
      DeleteOld(r[..i + 1], now)
      <==> DeleteOld(r[..i], now) || r[i].0 !in now || r[i].1 !in now[r[i].0]
  {
    assert r[..i + 1][i] == r[i];
    assert forall k :: 0 <= k < i ==> r[..i + 1][k] == r[..i][k];
  }

  lemma PruneIsSound(d: Dit, suffix: Dn, top: Dn)
    requires Sound(d, suffix)
    ensures Sound(Prune(d, top), suffix)
  {
    var e := Prune(d, top);
    forall x | x in e && x != suffix
      ensures x[1..] in e
    {
      if Under(x[1..], top) {
        UnderChild(x, top);
      }
    }
  }

  lemma LeafIsSubtree(d: Dit, suffix: Dn, dn: Dn)
    requires IsTree(d, suffix) && dn in d && IsLeaf(d, dn)
    ensures d - {dn} == Prune(d, dn)
  {
    hide IsTree, IsLeaf;
    assert Under(dn, dn);
    hide Under;
    forall x | x in Subtree(d, dn)
      ensures x == dn
    {
      NothingUnderLeaf(d, suffix, dn, x);
    }
  }

  lemma {:induction false} NothingUnderLeaf(d: Dit, suffix: Dn, dn: Dn, x: Dn)
    requires IsTree(d, suffix) && dn in d && IsLeaf(d, dn) && x in d && Under(x, dn)
    ensures x == dn
    decreases |x|
  {
    if x == dn {
    } else {
      UnderParent(x, dn);
      NothingUnderLeaf(d, suffix, dn, x[1..]);
    }
  }
}
