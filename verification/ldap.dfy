/** A directory and the operations of RFC 4511 on it, as a strict server performs them. */
module Ldap {
  import opened Wrappers

  /** An attribute with one of its values.  An attribute is present iff it has a value. */
  type Pair = (string, string)

  type Entry = set<Pair>

  type Rdn = seq<Pair>

  /** A distinguished name, from the leaf up.  Names are compared exactly: each stands for all its
      spellings. */
  type Dn = seq<Rdn>

  type Dit = map<Dn, Entry>

  predicate Under(dn: Dn, top: Dn) {
    |top| <= |dn| && dn[|dn| - |top|..] == top
  }

  /** Every entry lies under the suffix, and below it has a parent. */
  ghost predicate IsTree(d: Dit, suffix: Dn) {
    && suffix != []
    && forall dn :: dn in d ==> Under(dn, suffix) && d[dn] != {} && (dn != suffix ==> dn[1..] in d)
  }

  predicate IsLeaf(d: Dit, dn: Dn) {
    forall c :: c in d ==> c == [] || c[1..] != dn
  }

  function Subtree(d: Dit, top: Dn): set<Dn> {
    set dn | dn in d && Under(dn, top)
  }

  function Prune(d: Dit, top: Dn): Dit {
    d - Subtree(d, top)
  }

  /** The operations give no directory where the server gives an error. */
  function AddEntry(d: Dit, suffix: Dn, dn: Dn, e: Entry): Option<Dit> {
    if dn in d || !Under(dn, suffix) || (dn != suffix && dn[1..] !in d) || e == {} then None
    else Some(d[dn := e])
  }

  function DeleteEntry(d: Dit, dn: Dn): Option<Dit> {
    if dn !in d || !IsLeaf(d, dn) then None else Some(d - {dn})
  }

  function Avas(r: Rdn): set<Pair> {
    set p | p in r
  }

  /** Section 4.9: the new RDN's values are added, and those of the old one that are not in it are
      removed if so asked. */
  function RenamedEntry(e: Entry, oldRdn: Rdn, newRdn: Rdn, deleteOld: bool): Entry {
    (if deleteOld then e - (Avas(oldRdn) - Avas(newRdn)) else e) + Avas(newRdn)
  }

  /** The name under top that a name under from gets. */
  function Moved(dn: Dn, from: Dn, to: Dn): Dn
    requires Under(dn, from)
  {
    dn[..|dn| - |from|] + to
  }

  function RenameEntry(d: Dit, dn: Dn, rdn: Rdn, superior: Dn, deleteOld: bool): Option<Dit> {
    var to := [rdn] + superior;
    if dn !in d || dn == [] || to in d || superior !in d || Under(superior, dn) || rdn == [] then None
    else
      var kept, moved := d.Keys - Subtree(d, dn), set x | x in Subtree(d, dn) :: Moved(x, dn, to);
      Some(map y | y in kept + moved ::
             if y == to then RenamedEntry(d[dn], dn[0], rdn, deleteOld)
             else if y in kept then d[y]
             else
               MovedBack(d, y, dn, to);
               d[Moved(y, to, dn)])
  }

  lemma MovedBack(d: Dit, y: Dn, from: Dn, to: Dn)
    requires y in set x | x in Subtree(d, from) :: Moved(x, from, to)
    ensures Under(y, to) && Moved(y, to, from) in Subtree(d, from)
  {
    var x :| x in Subtree(d, from) && y == Moved(x, from, to);
    assert y[|y| - |to|..] == to;
    assert Moved(y, to, from) == x;
  }

  /** A modification of section 4.6. */
  datatype Mod =
    | Add(attr: string, values: seq<string>)
    | Delete(attr: string, values: seq<string>)
    | Replace(attr: string, values: seq<string>)

  predicate Distinct(values: seq<string>) {
    forall i, j :: 0 <= i < j < |values| ==> values[i] != values[j]
  }

  function PairsWith(attr: string, values: seq<string>): Entry {
    set v | v in values :: (attr, v)
  }

  function PairsOf(e: Entry, attr: string): Entry {
    set p | p in e && p.0 == attr
  }

  /** One modification.  Adding needs values, all of them new; deleting needs them all present, or
      the attribute if it names no values. */
  function Modify(e: Entry, m: Mod): Option<Entry> {
    if !Distinct(m.values) then None
    else
      var named := PairsWith(m.attr, m.values);
      match m
      case Add(attr, values) => if values == [] || named * e != {} then None else Some(e + named)
      case Delete(attr, values) =>
        if values == [] then
          if PairsOf(e, attr) == {} then None else Some(e - PairsOf(e, attr))
        else if named <= e then Some(e - named) else None
      case Replace(attr, values) => Some(e - PairsOf(e, attr) + named)
  }

  function ModifyAll(e: Entry, ml: seq<Mod>): Option<Entry> {
    if ml == [] then Some(e)
    else
      match ModifyAll(e, ml[..|ml| - 1])
      case None => None
      case Some(f) => Modify(f, ml[|ml| - 1])
  }
}
