/** A run of the replication listener, event by event, with the directory that it leaves. */
module ExampleRun {
  import opened Ldap
  import opened Modlist
  import opened Wrappers
  import opened Listener
  import opened Replication

  const CFG := Config(false, "uniqueMember")

  const TOP: Dn := [[("dc", "x")]]

  const USER: Dn := [[("cn", "u")], [("dc", "x")]]

  const MOVED: Dn := [[("cn", "w")], [("dc", "x")]]

  const TOP_ENTRY: Dict := map["dc" := ["x"], "entryUUID" := ["1"]]

  const USER_ENTRY: Dict :=
    map["cn" := ["u"], "userPassword" := ["old"], "pwdAttribute" := ["userPassword"], "pwdReset" := ["TRUE"],
        "entryUUID" := ["2"]]

  const NEW_ENTRY: Dict :=
    map["cn" := ["u"], "userPassword" := ["new"], "mail" := ["a", "b"], "memberOf" := ["g"], "entryUUID" := ["2"]]

  const MOVED_ENTRY: Dict :=
    map["cn" := ["w"], "userPassword" := ["new"], "mail" := ["a", "b"], "memberOf" := ["g"], "entryUUID" := ["2"]]

  lemma SentByLength(attr: string)
    requires |attr| in {2, 4, 9, 12}
    ensures !Excluded(CFG, attr)
  {
    assert |Lower(attr)| == |attr|;
  }

  lemma NotSent()
    ensures Excluded(CFG, "pwdReset") && Excluded(CFG, "memberOf")
  {
    assert Lower("pwdReset") == "pwdreset";
    assert Lower("memberOf") == "memberof";
  }

  lemma Names()
    ensures !Excluded(CFG, "dc") && !Excluded(CFG, "cn") && !Excluded(CFG, "mail")
    ensures !Excluded(CFG, "entryUUID") && !Excluded(CFG, "userPassword") && !Excluded(CFG, "pwdAttribute")
    ensures Excluded(CFG, "pwdReset") && Excluded(CFG, "memberOf")
  {
    hide Excluded;
    SentByLength("dc");
    SentByLength("cn");
    SentByLength("mail");
    SentByLength("entryUUID");
    SentByLength("userPassword");
    SentByLength("pwdAttribute");
    NotSent();
  }

  lemma Places()
    ensures Under(TOP, TOP) && Under(USER, TOP) && Under(MOVED, TOP) && Under(USER, USER)
    ensures !Under(TOP, USER) && !Under(MOVED, USER) && !Under(USER, MOVED)
    ensures USER[1..] == TOP && MOVED[1..] == TOP && USER != TOP && MOVED != TOP && USER != MOVED
    ensures [MOVED[0]] + TOP == MOVED
  {
    assert USER[1] == TOP[0] && MOVED[1] == TOP[0];
    assert USER[0] != MOVED[0] by {
      assert USER[0][0] == ("cn", "u") && MOVED[0][0] == ("cn", "w") && "u"[0] != "w"[0];
    }
    assert USER[0] == [("cn", "u")];
    assert TOP[|TOP| - |TOP|..] == TOP && USER[|USER| - |TOP|..] == TOP && MOVED[|MOVED| - |TOP|..] == TOP;
    assert USER[|USER| - |USER|..] == USER && MOVED[|MOVED| - |USER|..] == MOVED && USER[0..] == USER;
  }

  const T: Entry := {("dc", "x"), ("entryUUID", "1")}

  lemma AddsTop()
    ensures IsEvent(Event(TOP, TOP_ENTRY, 'a'))
    ensures Step(CFG, TOP, State(map[], None, map[]), Event(TOP, TOP_ENTRY, 'a'))
         == Outcome(State(map[TOP := {("dc", "x"), ("entryUUID", "1")}], None, map[]), true)
  {
    Names();
    Places();
    hide Excluded, Under;
    assert Added(CFG, PairsIn(TOP_ENTRY)) == T;
  }

  const ADDED: Entry :=
    {("cn", "u"), ("userPassword", "old"), ("pwdAttribute", "2.5.4.35"), ("entryUUID", "2")}

  /** The entry under another name of the password attribute. */
  const NAMED: Dict := USER_ENTRY["pwdAttribute" := ["2.5.4.35"]]

  lemma UserIsAdded()
    ensures Canonical(USER_ENTRY) == NAMED && Added(CFG, PairsIn(NAMED)) == ADDED
  {
    Names();
    hide Excluded;
  }

  lemma AddsUser()
    ensures IsEvent(Event(USER, USER_ENTRY, 'a'))
    ensures Step(CFG, TOP, State(map[TOP := T], None, map[]), Event(USER, USER_ENTRY, 'a'))
         == Outcome(State(map[TOP := T, USER := ADDED], None, map[]), true)
  {
    Places();
    UserIsAdded();
    assert "cn" in NAMED && ("cn", "u") in ADDED;
    hide Under, Canonical, Added, PairsIn;
    assert map[TOP := T][USER := ADDED] == map[TOP := T, USER := ADDED];
  }

  const MODIFIED: Entry :=
    {("cn", "u"), ("userPassword", "new"), ("mail", "a"), ("mail", "b"), ("entryUUID", "2")}

  lemma NewIsAdded()
    ensures Added(CFG, PairsIn(NEW_ENTRY)) == MODIFIED
  {
    Names();
    hide Excluded;
  }

  lemma UserIsModified()
    ensures Canonical(NEW_ENTRY) == NEW_ENTRY && Target(CFG, ADDED, PairsIn(NEW_ENTRY)) == MODIFIED
  {
    Names();
    NewIsAdded();
    hide Excluded, Added, PairsIn;
    assert (set p | p in ADDED && Excluded(CFG, p.0)) == {};
  }

  lemma ModifiesUser()
    ensures IsEvent(Event(USER, NEW_ENTRY, 'm'))
    ensures Step(CFG, TOP, State(map[TOP := T, USER := ADDED], None, map[]), Event(USER, NEW_ENTRY, 'm'))
         == Outcome(State(map[TOP := T, USER := MODIFIED], None, map[]), true)
  {
    Places();
    UserIsModified();
    assert "cn" in NEW_ENTRY;
    NewPairs();
    assert |NEW_ENTRY["entryUUID"]| == 1 && NEW_ENTRY["entryUUID"][0] == "2";
    hide Under, Canonical, PairsIn, Target, IsEntry;
    assert map[TOP := T, USER := ADDED][USER := MODIFIED] == map[TOP := T, USER := MODIFIED];
  }

  lemma MarksRename()
    ensures IsEvent(Event(USER, map[], 'r'))
    ensures Step(CFG, TOP, State(map[TOP := T, USER := MODIFIED], None, map[]), Event(USER, map[], 'r'))
         == Outcome(State(map[TOP := T, USER := MODIFIED], Some("2"), map["2" := USER]), true)
  {
    assert PairsOf(MODIFIED, "entryUUID") == {("entryUUID", "2")};
    hide Step, PairsOf;
    FirstHalf(Setup(CFG, TOP, {}), State(map[TOP := T, USER := MODIFIED], None, map[]), USER, "2");
  }

  const RENAMED: Entry :=
    {("cn", "w"), ("userPassword", "new"), ("mail", "a"), ("mail", "b"), ("entryUUID", "2")}

  lemma UserIsRenamed()
    ensures Canonical(MOVED_ENTRY) == MOVED_ENTRY && DeleteOld(USER[0], MOVED_ENTRY)
    ensures RenamedEntry(MODIFIED, USER[0], MOVED[0], true) == RENAMED
  {
    assert USER[0] == [("cn", "u")] && MOVED[0] == [("cn", "w")];
    assert USER[0][0].1 !in MOVED_ENTRY["cn"];
    assert Avas(USER[0]) == {("cn", "u")} && Avas(MOVED[0]) == {("cn", "w")};
  }

  lemma RenamesAt(e: Entry, r: Dit, y: Dn)
    requires RenameEntry(map[TOP := T, USER := e], USER, MOVED[0], TOP, true) == Some(r)
    ensures y in r <==> y == TOP || y == MOVED
    ensures y in r ==> r[y] == if y == TOP then T else RenamedEntry(e, USER[0], MOVED[0], true)
  {
    var d := map[TOP := T, USER := e];
    Places();
    Renamed(d, USER, MOVED[0], TOP, true, y);
    hide RenameEntry, RenamedEntry;
    if Under(y, MOVED) && Moved(y, MOVED, USER) in d {
      OnlyUser(y);
    }
    assert Under(MOVED, MOVED) && Moved(MOVED, MOVED, USER) == USER by { assert MOVED[0..] == MOVED; }
    hide Moved, Under;
  }

  lemma RenamesOne(e: Entry, r: Dit)
    requires RenameEntry(map[TOP := T, USER := e], USER, MOVED[0], TOP, true) == Some(r)
    ensures r == map[TOP := T, MOVED := RenamedEntry(e, USER[0], MOVED[0], true)]
  {
    hide RenameEntry, RenamedEntry;
    forall y
      ensures y in r <==> y == TOP || y == MOVED
      ensures y in r ==> r[y] == if y == TOP then T else RenamedEntry(e, USER[0], MOVED[0], true)
    {
      RenamesAt(e, r, y);
    }
    Places();
    hide Under;
  }

  lemma OnlyUser(y: Dn)
    requires Under(y, MOVED) && Moved(y, MOVED, USER) in {TOP, USER}
    ensures y == MOVED
  {
    var x := Moved(y, MOVED, USER);
    assert |x| == |y|;
    assert |y| == 2 && y == y[0..];
  }

  lemma RenamesEntry(e: Entry)
    ensures RenameEntry(map[TOP := T, USER := e], USER, MOVED[0], TOP, true)
         == Some(map[TOP := T, MOVED := RenamedEntry(e, USER[0], MOVED[0], true)])
  {
    Places();
    var d := map[TOP := T, USER := e];
    hide RenamedEntry, Under;
    assert MOVED[0] == [("cn", "w")];
    assert RenameEntry(d, USER, MOVED[0], TOP, true).Some?;
    hide RenameEntry;
    RenamesOne(e, RenameEntry(d, USER, MOVED[0], TOP, true).value);
  }

  lemma RenamesUser()
    ensures IsEvent(Event(MOVED, MOVED_ENTRY, 'a'))
    ensures
      Step(CFG, TOP, State(map[TOP := T, USER := MODIFIED], Some("2"), map["2" := USER]),
           Event(MOVED, MOVED_ENTRY, 'a'))
      == Outcome(State(map[TOP := T, MOVED := RENAMED], None, map[]), true)
  {
    Places();
    UserIsRenamed();
    RenamesEntry(MODIFIED);
    hide Under, Canonical, RenameEntry, RenamedEntry, DeleteOld;
    assert map["2" := USER] - {"2"} == map[];
  }

  lemma DeletesUser()
    ensures IsEvent(Event(MOVED, map[], 'd'))
    ensures Step(CFG, TOP, State(map[TOP := T, MOVED := RENAMED], None, map[]), Event(MOVED, map[], 'd'))
         == Outcome(State(map[TOP := T], None, map[]), true)
  {
    Places();
    var d := map[TOP := T, MOVED := RENAMED];
    assert Under(MOVED, MOVED) && !Under(TOP, MOVED);
    hide Under;
    assert Prune(d, MOVED) == map[TOP := T];
  }

  /** A user is added with an old password, modified, renamed with the old name's value removed, and
      deleted.  The replica has what the master sent, the password and its policy attribute under
      its number included, without pwdReset and memberOf. */
  lemma UserComesAndGoes()
    ensures
      var dcX, cnU, cnW := [("dc", "x")], [("cn", "u")], [("cn", "w")];
      var top := map["dc" := ["x"], "entryUUID" := ["1"]];
      var user := map["cn" := ["u"], "userPassword" := ["old"], "pwdAttribute" := ["userPassword"],
                      "pwdReset" := ["TRUE"], "entryUUID" := ["2"]];
      var changed := map["cn" := ["u"], "userPassword" := ["new"], "mail" := ["a", "b"], "memberOf" := ["g"],
                         "entryUUID" := ["2"]];
      var moved := map["cn" := ["w"], "userPassword" := ["new"], "mail" := ["a", "b"], "memberOf" := ["g"],
                       "entryUUID" := ["2"]];
      var events := [Event([dcX], top, 'a'), Event([cnU, dcX], user, 'a'), Event([cnU, dcX], changed, 'm'),
                     Event([cnU, dcX], map[], 'r'), Event([cnW, dcX], moved, 'a'), Event([cnW, dcX], map[], 'd')];
      var u := Setup(Config(false, "uniqueMember"), [dcX], {});
      var s := State(map[], None, map[]);
      var topEntry := {("dc", "x"), ("entryUUID", "1")};
      && AllEvents(events)
      && Deliver(u, s, events[..2]) == Outcome(State(
           map[[dcX] := topEntry,
               [cnU, dcX] := {("cn", "u"), ("userPassword", "old"), ("pwdAttribute", "2.5.4.35"), ("entryUUID", "2")}],
           None, map[]), true)
      && Deliver(u, s, events[..3]) == Outcome(State(
           map[[dcX] := topEntry,
               [cnU, dcX] := {("cn", "u"), ("userPassword", "new"), ("mail", "a"), ("mail", "b"), ("entryUUID", "2")}],
           None, map[]), true)
      && Deliver(u, s, events[..5]) == Outcome(State(
           map[[dcX] := topEntry,
               [cnW, dcX] := {("cn", "w"), ("userPassword", "new"), ("mail", "a"), ("mail", "b"), ("entryUUID", "2")}],
           None, map[]), true)
      && Deliver(u, s, events) == Outcome(State(map[[dcX] := topEntry], None, map[]), true)
  {
    hide Step, IsEvent;
    AddsTop();
    AddsUser();
    ModifiesUser();
    MarksRename();
    RenamesUser();
    DeletesUser();
    var u, s := Setup(CFG, TOP, {}), State(map[], None, map[]);
    var e := [Event(TOP, TOP_ENTRY, 'a'), Event(USER, USER_ENTRY, 'a'), Event(USER, NEW_ENTRY, 'm'),
              Event(USER, map[], 'r'), Event(MOVED, MOVED_ENTRY, 'a'), Event(MOVED, map[], 'd')];
    DeliverFirst(u, s, e, 0);
    DeliverFirst(u, s, e, 1);
    DeliverFirst(u, s, e, 2);
    DeliverFirst(u, s, e, 3);
    DeliverFirst(u, s, e, 4);
    DeliverFirst(u, s, e, 5);
    assert e[..6] == e;
  }

  /** One event more. */
  lemma {:induction false} DeliverFirst(u: Setup, s: State, events: seq<Event>, n: nat)
    requires n < |events| && AllEvents(events)
    ensures
      var o := Deliver(u, s, events[..n]);
      Deliver(u, s, events[..n + 1]) == if o.ok then Step(u.cfg, u.suffix, o.state, events[n]) else o
    decreases n
  {
    hide Step;
    if n == 0 {
      DeliverOne(u, s, events[0]);
      assert events[..1] == [events[0]] && events[..0] == [];
    } else {
      var o := Step(u.cfg, u.suffix, s, events[0]);
      assert events[..n][0] == events[..n + 1][0] == events[0];
      assert events[..n][1..] == events[1..][..n - 1] && events[..n + 1][1..] == events[1..][..n];
      assert AllEvents(events[1..]);
      if o.ok {
        DeliverFirst(u, o.state, events[1..], n - 1);
      }
    }
  }

  // The master's side.

  const U := Setup(CFG, TOP, {})

  lemma HeldAs(rdn: Pair, uuid: string, dn: Dn, e: Entry)
    requires dn != [] && dn[0] == [rdn] && rdn in e && |rdn.0| == 2
    requires PairsOf(e, "entryUUID") == {("entryUUID", uuid)}
    requires forall p, q :: p in e && q in e && p.0 == q.0 == "pwdAttribute" ==> p == q
    ensures U.MayHold(dn, e)
  {
    SentByLength(rdn.0);
    hide Excluded;
    assert Avas(dn[0]) == {rdn};
  }

  const USER_PAIRS: Entry :=
    {("cn", "u"), ("userPassword", "old"), ("pwdAttribute", "userPassword"), ("pwdReset", "TRUE"), ("entryUUID", "2")}

  const NEW_PAIRS: Entry :=
    {("cn", "u"), ("userPassword", "new"), ("mail", "a"), ("mail", "b"), ("memberOf", "g"), ("entryUUID", "2")}

  const MOVED_PAIRS: Entry :=
    {("cn", "w"), ("userPassword", "new"), ("mail", "a"), ("mail", "b"), ("memberOf", "g"), ("entryUUID", "2")}

  lemma UserPairs()
    ensures IsEntry(TOP_ENTRY) && PairsIn(TOP_ENTRY) == T
    ensures IsEntry(USER_ENTRY) && PairsIn(USER_ENTRY) == USER_PAIRS
  {
  }

  lemma NewPairs()
    ensures IsEntry(NEW_ENTRY) && PairsIn(NEW_ENTRY) == NEW_PAIRS
  {
  }

  lemma MovedPairs()
    ensures IsEntry(MOVED_ENTRY) && PairsIn(MOVED_ENTRY) == MOVED_PAIRS
  {
  }

  lemma AllHeld()
    ensures U.MayHold(TOP, T) && U.MayHold(USER, USER_PAIRS) && U.MayHold(USER, NEW_PAIRS)
    ensures U.MayHold(MOVED, MOVED_PAIRS)
  {
    hide Setup.MayHold;
    HeldAs(("dc", "x"), "1", TOP, T);
    HeldAs(("cn", "u"), "2", USER, USER_PAIRS);
    HeldAs(("cn", "u"), "2", USER, NEW_PAIRS);
    HeldAs(("cn", "w"), "2", MOVED, MOVED_PAIRS);
  }

  lemma MasterAdds()
    ensures MasterStep(U, map[], AddOp(TOP, TOP_ENTRY)) == Some(map[TOP := T])
    ensures MasterStep(U, map[TOP := T], AddOp(USER, USER_ENTRY)) == Some(map[TOP := T, USER := USER_PAIRS])
  {
    Places();
    AllHeld();
    UserPairs();
    hide Setup.MayHold, Under, PairsIn, IsEntry;
    assert ("cn", "u") in USER_PAIRS && ("dc", "x") in T;
    assert map[TOP := T][USER := USER_PAIRS] == map[TOP := T, USER := USER_PAIRS];
  }

  lemma MasterModifies()
    ensures MasterStep(U, map[TOP := T, USER := USER_PAIRS], ModifyOp(USER, NEW_ENTRY))
         == Some(map[TOP := T, USER := NEW_PAIRS])
  {
    AllHeld();
    NewPairs();
    hide Setup.MayHold, PairsIn, IsEntry;
    assert map[TOP := T, USER := USER_PAIRS][USER := NEW_PAIRS] == map[TOP := T, USER := NEW_PAIRS];
  }

  lemma PairsAreRenamed()
    ensures RenamedEntry(NEW_PAIRS, USER[0], MOVED[0], true) == MOVED_PAIRS
    ensures SameBut({}, MOVED_PAIRS, MOVED_PAIRS)
  {
    assert USER[0] == [("cn", "u")] && MOVED[0] == [("cn", "w")];
    assert Avas(USER[0]) == {("cn", "u")} && Avas(MOVED[0]) == {("cn", "w")};
  }

  lemma MasterRenames()
    ensures MasterStep(U, map[TOP := T, USER := NEW_PAIRS], RenameOp(USER, MOVED[0], TOP, true, MOVED_ENTRY))
         == Some(map[TOP := T, MOVED := MOVED_PAIRS])
  {
    Places();
    AllHeld();
    MovedPairs();
    RenamesEntry(NEW_PAIRS);
    PairsAreRenamed();
    hide Setup.MayHold, Under, PairsIn, RenameEntry, RenamedEntry, IsEntry, SameBut;
    assert map[TOP := T, MOVED := MOVED_PAIRS][MOVED := MOVED_PAIRS] == map[TOP := T, MOVED := MOVED_PAIRS];
  }

  lemma MasterDeletes()
    ensures MasterStep(U, map[TOP := T, MOVED := MOVED_PAIRS], DeleteOp(MOVED)) == Some(map[TOP := T])
  {
    Places();
    assert map[TOP := T, MOVED := MOVED_PAIRS] - {MOVED} == map[TOP := T];
  }

  /** The operations that these events come from.  The master accepts them and ends up with the top
      entry as well. */
  lemma MasterDoesThat()
    ensures
      var dcX, cnU, cnW := [("dc", "x")], [("cn", "u")], [("cn", "w")];
      var add, remove := AddOp([dcX], TOP_ENTRY), DeleteOp([cnW, dcX]);
      var addUser, change := AddOp([cnU, dcX], USER_ENTRY), ModifyOp([cnU, dcX], NEW_ENTRY);
      var move := RenameOp([cnU, dcX], cnW, [dcX], true, MOVED_ENTRY);
      && MasterRun(U, map[], [add, addUser, change, move]) == Some(
           map[[dcX] := {("dc", "x"), ("entryUUID", "1")},
               [cnW, dcX] := {("cn", "w"), ("userPassword", "new"), ("mail", "a"), ("mail", "b"), ("memberOf", "g"),
                              ("entryUUID", "2")}])
      && MasterRun(U, map[], [add, addUser, change, move, remove])
         == Some(map[[dcX] := {("dc", "x"), ("entryUUID", "1")}])
      && Events(add) + Events(addUser) + Events(change) + Events(move) + Events(remove)
         == [Event([dcX], TOP_ENTRY, 'a'), Event([cnU, dcX], USER_ENTRY, 'a'), Event([cnU, dcX], NEW_ENTRY, 'm'),
             Event([cnU, dcX], map[], 'r'), Event([cnW, dcX], MOVED_ENTRY, 'a'), Event([cnW, dcX], map[], 'd')]
  {
    MasterAdds();
    MasterModifies();
    MasterRenames();
    MasterDeletes();
    Places();
    hide MasterStep;
    var ops := [AddOp(TOP, TOP_ENTRY), AddOp(USER, USER_ENTRY), ModifyOp(USER, NEW_ENTRY),
                RenameOp(USER, MOVED[0], TOP, true, MOVED_ENTRY), DeleteOp(MOVED)];
    assert MasterRun(U, map[], ops[..0]) == Some(map[]);
    RunStep(map[], ops, 0);
    RunStep(map[], ops, 1);
    RunStep(map[], ops, 2);
    RunStep(map[], ops, 3);
    RunStep(map[], ops, 4);
    assert ops[..5] == ops;
    hide MasterRun;
    assert ops[..4] == [AddOp(TOP, TOP_ENTRY), AddOp(USER, USER_ENTRY), ModifyOp(USER, NEW_ENTRY),
                        RenameOp(USER, MOVED[0], TOP, true, MOVED_ENTRY)];
  }

  lemma RunStep(m: Dit, ops: seq<Op>, n: nat)
    requires n < |ops| && MasterRun(U, m, ops[..n]).Some?
    ensures MasterRun(U, m, ops[..n + 1]) == MasterStep(U, MasterRun(U, m, ops[..n]).value, ops[n])
  {
    hide MasterStep;
    assert ops[..n + 1][..n] == ops[..n];
  }
}
