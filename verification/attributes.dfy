/** Which attributes the replica gets, by their names. */
module Attributes {
  import opened Ldap
  import opened Modlist
  import opened Wrappers
  import opened Listener
  import opened Replication

  /** attr is the name, which is given in small letters, in any spelling. */
  predicate Spells(attr: string, name: string) {
    |attr| == |name|
    && forall i :: 0 <= i < |name| ==> attr[i] == name[i] || attr[i] as int == name[i] as int - 32
  }

  predicate NeverSent(cfg: Config, attr: string) {
    || Spells(attr, "subschemasubentry") || Spells(attr, "hassubordinates") || Spells(attr, "entrydn")
    || Spells(attr, "authtimestamp") || Spells(attr, "pwdchangedtime") || Spells(attr, "pwdaccountlockedtime")
    || Spells(attr, "pwdfailuretime") || Spells(attr, "pwdhistory") || Spells(attr, "pwdgraceusetime")
    || Spells(attr, "pwdreset") || Spells(attr, "pwdpolicysubentry")
    || (!cfg.memberofOverlay && Spells(attr, "memberof"))
  }

  lemma SpelledLower(attr: string, name: string)
    requires forall i :: 0 <= i < |name| ==> 'a' <= name[i] <= 'z'
    ensures Lower(attr) == name <==> Spells(attr, name)
  {
    if Lower(attr) == name {
      forall i | 0 <= i < |name|
        ensures attr[i] == name[i] || attr[i] as int == name[i] as int - 32
      {
        assert Lower(attr)[i] == name[i];
      }
    }
  }

  /** The excluded attributes are those with these names, however they are spelled. */
  lemma ExcludedNames(cfg: Config, attr: string)
    ensures Excluded(cfg, attr) <==> NeverSent(cfg, attr)
    ensures Excluded(cfg, attr) <==>
      || Spells(attr, "subschemasubentry") || Spells(attr, "hassubordinates") || Spells(attr, "entrydn")
      || Spells(attr, "authtimestamp") || Spells(attr, "pwdchangedtime") || Spells(attr, "pwdaccountlockedtime")
      || Spells(attr, "pwdfailuretime") || Spells(attr, "pwdhistory") || Spells(attr, "pwdgraceusetime")
      || Spells(attr, "pwdreset") || Spells(attr, "pwdpolicysubentry")
      || (!cfg.memberofOverlay && Spells(attr, "memberof"))
  {
    OtherNames(attr);
    PasswordNames(attr);
    hide Lower, Spells;
  }

  lemma OtherNames(attr: string)
    ensures Lower(attr) == "subschemasubentry" <==> Spells(attr, "subschemasubentry")
    ensures Lower(attr) == "hassubordinates" <==> Spells(attr, "hassubordinates")
    ensures Lower(attr) == "entrydn" <==> Spells(attr, "entrydn")
    ensures Lower(attr) == "authtimestamp" <==> Spells(attr, "authtimestamp")
    ensures Lower(attr) == "memberof" <==> Spells(attr, "memberof")
  {
    SpelledLower(attr, "subschemasubentry");
    SpelledLower(attr, "hassubordinates");
    SpelledLower(attr, "entrydn");
    SpelledLower(attr, "authtimestamp");
    SpelledLower(attr, "memberof");
    hide Lower, Spells;
  }

  lemma PasswordNames(attr: string)
    ensures Lower(attr) == "pwdchangedtime" <==> Spells(attr, "pwdchangedtime")
    ensures Lower(attr) == "pwdaccountlockedtime" <==> Spells(attr, "pwdaccountlockedtime")
    ensures Lower(attr) == "pwdfailuretime" <==> Spells(attr, "pwdfailuretime")
    ensures Lower(attr) == "pwdhistory" <==> Spells(attr, "pwdhistory")
    ensures Lower(attr) == "pwdgraceusetime" <==> Spells(attr, "pwdgraceusetime")
    ensures Lower(attr) == "pwdreset" <==> Spells(attr, "pwdreset")
    ensures Lower(attr) == "pwdpolicysubentry" <==> Spells(attr, "pwdpolicysubentry")
  {
    SpelledLower(attr, "pwdchangedtime");
    SpelledLower(attr, "pwdaccountlockedtime");
    SpelledLower(attr, "pwdfailuretime");
    SpelledLower(attr, "pwdhistory");
    SpelledLower(attr, "pwdgraceusetime");
    SpelledLower(attr, "pwdreset");
    SpelledLower(attr, "pwdpolicysubentry");
    hide Lower, Spells;
  }

  /** The list for a new entry: everything under another name, as it is. */
  lemma AddListSends(cfg: Config, now: Dict, attr: string)
    ensures attr in AddList(cfg, now) <==> attr in now && !NeverSent(cfg, attr)
    ensures attr in AddList(cfg, now) ==> AddList(cfg, now)[attr] == now[attr]
  {
    ExcludedNames(cfg, attr);
    hide NeverSent, Excluded;
  }

  /** The modifications for a changed entry are for attributes with other names.  A server that
      performs them has the new values of these, and of the others what it had. */
  method ModListSends(cfg: Config, was: Dict, now: Dict) returns (ml: seq<Mod>)
    requires IsEntry(was) && IsEntry(now)
    ensures forall i :: 0 <= i < |ml| ==> !NeverSent(cfg, ml[i].attr) && IsModFor(cfg, was, now, ml[i])
    ensures ModifyAll(PairsIn(was), ml).Some?
    ensures forall attr, v ::
      (attr, v) in ModifyAll(PairsIn(was), ml).value
      <==> if NeverSent(cfg, attr) then attr in was && v in was[attr] else attr in now && v in now[attr]
  {
    hide NeverSent, Excluded, ModifyAll, IsModFor;
    ml := ModList(cfg, was, now);
    forall attr
      ensures Excluded(cfg, attr) <==> NeverSent(cfg, attr)
    {
      ExcludedNames(cfg, attr);
    }
    forall attr: string, v: string
      ensures
        (attr, v) in Target(cfg, PairsIn(was), PairsIn(now))
        <==> if NeverSent(cfg, attr) then attr in was && v in was[attr] else attr in now && v in now[attr]
    {
    }
  }

  /** The value of an attribute that the replica has, where the master has e. */
  predicate Arrives(e: Entry, attr: string, v: string) {
    if attr == "pwdAttribute" && ("pwdAttribute", "userPassword") in e then v == "2.5.4.35"
    else (attr, v) in e
  }

  /** The two directories have entries with the same names, and the attributes that are sent and
      that no server keeps by itself have the same values. */
  ghost predicate SameValues(u: Setup, m: Dit, r: Dit) {
    && (forall dn :: dn in m <==> dn in r)
    && forall dn, attr, v :: dn in m && !NeverSent(u.cfg, attr) && attr !in u.kept ==>
         ((attr, v) in r[dn] <==> Arrives(m[dn], attr, v))
  }

  lemma SameVisible(u: Setup, e: Entry, f: Entry)
    ensures u.Visible(CanonicalEntry(e)) == u.Visible(f) <==>
      forall attr, v :: !NeverSent(u.cfg, attr) && attr !in u.kept ==> ((attr, v) in f <==> Arrives(e, attr, v))
  {
    hide NeverSent, Excluded;
    forall attr: string, v: string
      ensures u.Hidden(attr) <==> NeverSent(u.cfg, attr) || attr in u.kept
      ensures (attr, v) in CanonicalEntry(e) <==> Arrives(e, attr, v)
    {
      ExcludedNames(u.cfg, attr);
    }
    hide CanonicalEntry, Arrives, Setup.Hidden;
    if u.Visible(CanonicalEntry(e)) == u.Visible(f) {
      forall attr: string, v: string | !NeverSent(u.cfg, attr) && attr !in u.kept
        ensures (attr, v) in f <==> Arrives(e, attr, v)
      {
        assert (attr, v) in u.Visible(CanonicalEntry(e)) <==> (attr, v) in u.Visible(f);
      }
    }
  }

  /** Agreement, by names. */
  lemma AgreementIs(u: Setup, m: Dit, r: Dit)
    ensures u.Agree(m, r) <==> SameValues(u, m, r)
  {
    hide NeverSent, Arrives, Setup.Visible, CanonicalEntry;
    forall dn | dn in m && dn in r
      ensures u.Visible(CanonicalEntry(m[dn])) == u.Visible(r[dn]) <==>
        forall attr, v :: !NeverSent(u.cfg, attr) && attr !in u.kept ==>
          ((attr, v) in r[dn] <==> Arrives(m[dn], attr, v))
    {
      SameVisible(u, m[dn], r[dn]);
    }
    assert m.Keys == r.Keys <==> forall dn :: dn in m <==> dn in r;
  }

  lemma {:induction false} PrefixRuns(u: Setup, m: Dit, ops: seq<Op>, n: nat)
    requires n <= |ops| && MasterRun(u, m, ops).Some?
    ensures MasterRun(u, m, ops[..n]).Some?
    decreases |ops| - n
  {
    if n == |ops| {
      assert ops[..n] == ops;
    } else {
      PrefixRuns(u, m, ops, n + 1);
      assert ops[..n + 1][..n] == ops[..n];
    }
  }

  /** Over every run, after each operation, the replica has the master's entries, and of every
      attribute that is sent and that no server keeps by itself the master's values. */
  lemma ValuesFollow(u: Setup, m: Dit, s: State, ops: seq<Op>, n: nat)
    requires u.Valid() && u.IsMaster(m) && SameValues(u, m, s.dit) && !s.Pending()
    requires MasterRun(u, m, ops).Some? && n <= |ops|
    ensures MasterRun(u, m, ops[..n]).Some? && ReplicaRun(u, s, ops[..n]).ok
    ensures
      var there, here := MasterRun(u, m, ops[..n]).value, ReplicaRun(u, s, ops[..n]).state.dit;
      && (forall dn :: dn in there <==> dn in here)
      && forall dn, attr, v :: dn in there && !NeverSent(u.cfg, attr) && attr !in u.kept ==>
           ((attr, v) in here[dn] <==> Arrives(there[dn], attr, v))
  {
    hide NeverSent, Arrives, Setup.Agree, Setup.IsMaster, MasterRun, ReplicaRun;
    PrefixRuns(u, m, ops, n);
    AgreementIs(u, m, s.dit);
    ReplicaFollowsMaster(u, m, s, ops[..n]);
    AgreementIs(u, MasterRun(u, m, ops[..n]).value, ReplicaRun(u, s, ops[..n]).state.dit);
  }
}
