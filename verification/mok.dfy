/** The list of machine owner keys: signature lists as section 32.4.1 of the UEFI Specification 2.8 has them. */
module Mok {
  import opened LittleEndian
  import opened Wrappers

  /** A key or hash and its signature type. */
  datatype Key = Key(kind: seq<Byte>, bytes: seq<Byte>)

  /** An entry of the list that is built: mok is the offset of the key in the buffer, or None for NULL. */
  datatype Node = Node(size: nat, mok: Option<nat>, kind: seq<Byte>)

  const LIST_SIZE := 28
  const GUID_SIZE := 16
  const DATA_SIZE := 17

  function X509Guid(): (g: seq<Byte>)
    ensures |g| == GUID_SIZE
  {
    [0xa1, 0x59, 0xc0, 0xa5, 0xe4, 0x94, 0xa7, 0x4a, 0x87, 0xb5, 0xab, 0x15, 0x5c, 0x2b, 0xf0, 0x72]
  }

  function Sha256Guid(): (g: seq<Byte>)
    ensures |g| == GUID_SIZE
  {
    [0x26, 0x16, 0xc4, 0xc1, 0x4c, 0x50, 0x92, 0x40, 0xac, 0xa9, 0x41, 0xf9, 0x36, 0x93, 0x43, 0x28]
  }

  function ShimLockGuid(): (g: seq<Byte>)
    ensures |g| == GUID_SIZE
  {
    [0x50, 0xab, 0x5d, 0x60, 0x46, 0xe0, 0x00, 0x43, 0xab, 0xb6, 0x3d, 0xd8, 0x10, 0xdd, 0x8b, 0x23]
  }

  lemma GuidsDiffer()
    ensures X509Guid() != Sha256Guid()
  {
    assert X509Guid()[0] != Sha256Guid()[0];
  }

  /** The first `size` bytes of `mem` are the buffer; what follows it in memory may be anything. */
  predicate Buffer(mem: seq<Byte>, size: nat) {
    size < U32 && size + LIST_SIZE <= |mem|
  }

  function KindAt(mem: seq<Byte>, at: nat): seq<Byte>
    requires at + LIST_SIZE <= |mem|
  {
    mem[at..at + GUID_SIZE]
  }

  function ListSizeAt(mem: seq<Byte>, at: nat): nat
    requires at + LIST_SIZE <= |mem|
  {
    Field(mem, at + 16, 4)
  }

  function HeaderSizeAt(mem: seq<Byte>, at: nat): nat
    requires at + LIST_SIZE <= |mem|
  {
    Field(mem, at + 20, 4)
  }

  function SignatureSizeAt(mem: seq<Byte>, at: nat): nat
    requires at + LIST_SIZE <= |mem|
  {
    Field(mem, at + 24, 4)
  }

  // Counting and building.

  /** There is another list at `at`, and it is not longer than what is left. */
  predicate More(mem: seq<Byte>, size: nat, at: nat)
    requires Buffer(mem, size) && at <= size
  {
    at < size && ListSizeAt(mem, at) <= size - at
  }

  predicate Corrupt(mem: seq<Byte>, size: nat, at: nat)
    requires Buffer(mem, size) && at <= size
  {
    at + LIST_SIZE > size || ListSizeAt(mem, at) == 0
  }

  /** The number of keys and hashes from `at` on, or None for an invalid list. */
  function CountFrom(mem: seq<Byte>, size: nat, at: nat): (r: Option<nat>)
    requires Buffer(mem, size) && at <= size
    decreases size - at
  {
    if !More(mem, size, at) then Some(0)
    else if Corrupt(mem, size, at) then None
    else
      var rest := CountFrom(mem, size, at + ListSizeAt(mem, at));
      if KindAt(mem, at) != X509Guid() && KindAt(mem, at) != Sha256Guid() then rest
      else if KindAt(mem, at) != X509Guid() && SignatureSizeAt(mem, at) != 48 then rest
      else if rest.None? then None
      else Some(rest.value + 1)
  }

  // Which lists the parsers come to.

  predicate Accepted(mem: seq<Byte>, at: nat)
    requires at + LIST_SIZE <= |mem|
  {
    || KindAt(mem, at) == X509Guid()
    || (KindAt(mem, at) == Sha256Guid() && SignatureSizeAt(mem, at) == 48)
  }

  /** Where the lists from `at` on start, up to an invalid one. */
  ghost function Lists(mem: seq<Byte>, size: nat, at: nat): (r: seq<nat>)
    requires Buffer(mem, size) && at <= size
    ensures forall o :: o in r ==> o + LIST_SIZE <= size
    decreases size - at
  {
    if !More(mem, size, at) || Corrupt(mem, size, at) then []
    else [at] + Lists(mem, size, at + ListSizeAt(mem, at))
  }

  /** Where these lists end. */
  ghost function End(mem: seq<Byte>, size: nat, at: nat): (r: nat)
    requires Buffer(mem, size) && at <= size
    ensures at <= r <= size && (!More(mem, size, r) || Corrupt(mem, size, r))
    decreases size - at
  {
    if !More(mem, size, at) || Corrupt(mem, size, at) then at
    else End(mem, size, at + ListSizeAt(mem, at))
  }

  ghost predicate Invalid(mem: seq<Byte>, size: nat, at: nat)
    requires Buffer(mem, size) && at <= size
  {
    More(mem, size, End(mem, size, at))
  }

  ghost function AcceptedOf(mem: seq<Byte>, lists: seq<nat>): (r: seq<nat>)
    requires forall o :: o in lists ==> o + LIST_SIZE <= |mem|
    ensures forall o :: o in r <==> o in lists && Accepted(mem, o)
    decreases |lists|
  {
    if lists == [] then []
    else
      assert lists[0] in lists;
      assert forall o :: o in lists <==> o == lists[0] || o in lists[1..];
      (if Accepted(mem, lists[0]) then [lists[0]] else []) + AcceptedOf(mem, lists[1..])
  }

  ghost function AcceptedFrom(mem: seq<Byte>, size: nat, at: nat): (r: seq<nat>)
    requires Buffer(mem, size) && at <= size
    ensures forall o :: o in r ==> o + LIST_SIZE <= size
  {
    AcceptedOf(mem, Lists(mem, size, at))
  }

  lemma AcceptedStep(mem: seq<Byte>, size: nat, at: nat)
    requires Buffer(mem, size) && at <= size
    ensures !More(mem, size, at) || Corrupt(mem, size, at) ==> AcceptedFrom(mem, size, at) == []
    ensures More(mem, size, at) && !Corrupt(mem, size, at) ==>
              var rest := AcceptedFrom(mem, size, at + ListSizeAt(mem, at));
              AcceptedFrom(mem, size, at) == if Accepted(mem, at) then [at] + rest else rest
  {
    hide Accepted, ListSizeAt, More, Corrupt;
  }

  /** What is counted: the accepted lists, unless there is an invalid one. */
  lemma {:induction false} CountIsAccepted(mem: seq<Byte>, size: nat, at: nat)
    requires Buffer(mem, size) && at <= size
    ensures CountFrom(mem, size, at)
         == if Invalid(mem, size, at) then None else Some(|AcceptedFrom(mem, size, at)|)
    decreases size - at
  {
    hide Field, X509Guid, Sha256Guid, AcceptedFrom;
    GuidsDiffer();
    AcceptedStep(mem, size, at);
    if !More(mem, size, at) || Corrupt(mem, size, at) {
    } else {
      CountIsAccepted(mem, size, at + ListSizeAt(mem, at));
    }
  }

  method CountKeys(mem: seq<Byte>, size: nat) returns (n: nat)
    requires Buffer(mem, size)
    ensures n == match CountFrom(mem, size, 0) case None => 0 case Some(c) => c
  {
    hide Field, X509Guid, Sha256Guid, KindAt, ListSizeAt, SignatureSizeAt;
    var dbsize: nat, at: nat := size, 0;
    n := 0;
    while dbsize > 0 && dbsize >= ListSizeAt(mem, at)
      invariant at + dbsize == size
      invariant CountFrom(mem, size, 0)
             == match CountFrom(mem, size, at) case None => None case Some(c) => Some(n + c)
      decreases dbsize
    {
      var length := ListSizeAt(mem, at);
      if at + LIST_SIZE > size || length == 0 {
        return 0;
      }
      var kind := KindAt(mem, at);
      if kind != X509Guid() && kind != Sha256Guid() {
        dbsize := dbsize - length;
        at := at + length;
        continue;
      }
      if kind != X509Guid() && SignatureSizeAt(mem, at) != 48 {
        dbsize := dbsize - length;
        at := at + length;
        continue;
      }
      n := n + 1;
      dbsize := dbsize - length;
      at := at + length;
    }
  }

  function NodeAt(mem: seq<Byte>, at: nat): Option<Node>
    requires at + LIST_SIZE <= |mem|
  {
    if SignatureSizeAt(mem, at) <= GUID_SIZE then None
    else Some(Node(SignatureSizeAt(mem, at) - GUID_SIZE,
                   Some(at + LIST_SIZE + HeaderSizeAt(mem, at) + GUID_SIZE), KindAt(mem, at)))
  }

  predicate Inside(size: nat, node: Node) {
    node.mok.Some? && node.size > 0 && node.mok.value + node.size <= size
  }

  /** The nodes from `at` on, or None for NULL. */
  function BuildFrom(mem: seq<Byte>, size: nat, at: nat): (r: Option<seq<Node>>)
    requires Buffer(mem, size) && at <= size
    decreases size - at
  {
    if !More(mem, size, at) then Some([])
    else if Corrupt(mem, size, at) then None
    else
      var rest := BuildFrom(mem, size, at + ListSizeAt(mem, at));
      if KindAt(mem, at) != X509Guid() && KindAt(mem, at) != Sha256Guid() then rest
      else if KindAt(mem, at) == Sha256Guid() && SignatureSizeAt(mem, at) != 48 then rest
      else
        var node := NodeAt(mem, at);
        if node.None? || !Inside(size, node.value) || rest.None? then None
        else Some([node.value] + rest.value)
  }

  /** A hash node has the size of a SHA-256 digest. */
  ghost predicate Proper(size: nat, node: Node) {
    && Inside(size, node)
    && node.mok.value >= LIST_SIZE + GUID_SIZE
    && (node.kind == X509Guid() || (node.kind == Sha256Guid() && node.size == 32))
  }

  /** A list that is built has as many nodes as were counted, each inside the buffer. */
  lemma {:induction false} BuiltAsCounted(mem: seq<Byte>, size: nat, at: nat)
    requires Buffer(mem, size) && at <= size && BuildFrom(mem, size, at).Some?
    ensures CountFrom(mem, size, at) == Some(|BuildFrom(mem, size, at).value|)
    ensures forall node :: node in BuildFrom(mem, size, at).value ==> Proper(size, node)
    decreases size - at
  {
    hide Field, X509Guid, Sha256Guid;
    GuidsDiffer();
    if !More(mem, size, at) {
    } else {
      BuiltAsCounted(mem, size, at + ListSizeAt(mem, at));
    }
  }

  /** The nodes that are written to the slots of the list from `at` on, before the loop ends or
      gives up.  A node that turns out to lie outside the buffer has been written already. */
  function SlotsFrom(mem: seq<Byte>, size: nat, at: nat): (r: seq<Node>)
    requires Buffer(mem, size) && at <= size
    decreases size - at
  {
    if !More(mem, size, at) || Corrupt(mem, size, at) then []
    else
      var next := at + ListSizeAt(mem, at);
      if KindAt(mem, at) != X509Guid() && KindAt(mem, at) != Sha256Guid() then SlotsFrom(mem, size, next)
      else if KindAt(mem, at) == Sha256Guid() && SignatureSizeAt(mem, at) != 48 then SlotsFrom(mem, size, next)
      else if CertOutside(mem, size, at) then []
      else
        var node := NodeAt(mem, at).value;
        if !Inside(size, node) then [node] else [node] + SlotsFrom(mem, size, next)
  }

  predicate CertOutside(mem: seq<Byte>, size: nat, at: nat)
    requires Buffer(mem, size) && at <= size && at + LIST_SIZE <= |mem|
  {
    at + LIST_SIZE + HeaderSizeAt(mem, at) + DATA_SIZE > size || SignatureSizeAt(mem, at) <= GUID_SIZE
  }

  /** Header, owner and signature of the list end inside the buffer, and the signature is not empty. */
  predicate Fits(mem: seq<Byte>, size: nat, at: nat)
    requires at + LIST_SIZE <= |mem|
  {
    && SignatureSizeAt(mem, at) > GUID_SIZE
    && at + LIST_SIZE + HeaderSizeAt(mem, at) + SignatureSizeAt(mem, at) <= size
  }

  lemma FitsIsInside(mem: seq<Byte>, size: nat, at: nat)
    requires Buffer(mem, size) && at <= size && at + LIST_SIZE <= |mem|
    ensures Fits(mem, size, at) <==> NodeAt(mem, at).Some? && Inside(size, NodeAt(mem, at).value)
    ensures Fits(mem, size, at) ==> !CertOutside(mem, size, at)
    ensures !CertOutside(mem, size, at) ==> NodeAt(mem, at).Some?
  {
    hide Field;
  }

  /** Whether the first accepted list is written to a slot. */
  ghost predicate FirstIsWritten(mem: seq<Byte>, size: nat, at: nat)
    requires Buffer(mem, size) && at <= size
  {
    var lists := AcceptedFrom(mem, size, at);
    lists != [] && assert lists[0] in lists; !CertOutside(mem, size, lists[0])
  }

  ghost function Joined(built: seq<Node>, rest: Option<seq<Node>>): Option<seq<Node>> {
    if rest.None? then None else Some(built + rest.value)
  }

  /** What becomes of one list. */
  lemma OneList(mem: seq<Byte>, size: nat, at: nat)
    requires Buffer(mem, size) && at <= size && More(mem, size, at) && !Corrupt(mem, size, at)
    ensures
      var slots, built := SlotsFrom(mem, size, at), BuildFrom(mem, size, at);
      var next := at + ListSizeAt(mem, at);
      if !Accepted(mem, at) then slots == SlotsFrom(mem, size, next) && built == BuildFrom(mem, size, next)
      else if CertOutside(mem, size, at) then slots == [] && built == None
      else
        && NodeAt(mem, at).Some?
        && var node := NodeAt(mem, at).value;
        && slots == [node] + (if Fits(mem, size, at) then SlotsFrom(mem, size, next) else [])
        && built == if Fits(mem, size, at) then Joined([node], BuildFrom(mem, size, next)) else None
  {
    hide Field, X509Guid, Sha256Guid, CertOutside, NodeAt, Inside, Fits;
    GuidsDiffer();
    FitsIsInside(mem, size, at);
    hide More, Corrupt, ListSizeAt, SignatureSizeAt, KindAt;
  }

  lemma {:induction false} SlotsFromHere(mem: seq<Byte>, size: nat, at: nat)
    requires Buffer(mem, size) && at <= size
    ensures SlotsFrom(mem, size, at) == [] <==> !FirstIsWritten(mem, size, at)
    ensures |SlotsFrom(mem, size, at)| <= |AcceptedFrom(mem, size, at)|
    ensures BuildFrom(mem, size, at).Some? ==> SlotsFrom(mem, size, at) == BuildFrom(mem, size, at).value
    decreases size - at
  {
    hide Field, CertOutside, NodeAt, Fits, Accepted, AcceptedFrom;
    AcceptedStep(mem, size, at);
    if !More(mem, size, at) || Corrupt(mem, size, at) {
    } else {
      SlotsFromHere(mem, size, at + ListSizeAt(mem, at));
      OneList(mem, size, at);
      hide SlotsFrom, BuildFrom, More, Corrupt, ListSizeAt;
    }
  }

  /** The slots that are allocated are those that the count asks for.  More nodes are written iff an
      invalid list has made the count zero and the first accepted list before it reaches its slot. */
  lemma SlotsSuffice(mem: seq<Byte>, size: nat)
    requires Buffer(mem, size)
    ensures var num := match CountFrom(mem, size, 0) case None => 0 case Some(c) => c;
            |SlotsFrom(mem, size, 0)| <= num <==> !Invalid(mem, size, 0) || !FirstIsWritten(mem, size, 0)
  {
    hide CountFrom, SlotsFrom, BuildFrom, FirstIsWritten, Invalid;
    CountIsAccepted(mem, size, 0);
    SlotsFromHere(mem, size, 0);
  }

  /** A list is built iff none is invalid and each accepted one fits. */
  lemma {:induction false} BuiltIffFits(mem: seq<Byte>, size: nat, at: nat)
    requires Buffer(mem, size) && at <= size
    ensures BuildFrom(mem, size, at).Some?
            <==> !Invalid(mem, size, at) && forall o :: o in AcceptedFrom(mem, size, at) ==> Fits(mem, size, o)
    decreases size - at
  {
    hide Field, CertOutside, NodeAt, Fits, Accepted, AcceptedFrom;
    AcceptedStep(mem, size, at);
    if !More(mem, size, at) || Corrupt(mem, size, at) {
    } else {
      BuiltIffFits(mem, size, at + ListSizeAt(mem, at));
      FitsIsInside(mem, size, at);
      OneList(mem, size, at);
      hide BuildFrom, More, Corrupt, ListSizeAt;
    }
  }

  lemma JoinNothing(rest: Option<seq<Node>>)
    ensures Joined([], rest) == rest
  {
    assert rest.Some? ==> [] + rest.value == rest.value;
  }

  lemma JoinOne(built: seq<Node>, node: Node, rest: Option<seq<Node>>)
    ensures Joined(built, Joined([node], rest)) == Joined(built + [node], rest)
  {
    assert rest.Some? ==> built + ([node] + rest.value) == (built + [node]) + rest.value;
  }

  /** One list: the node that is written, if any, and whether the loop gives up. */
  datatype Entry = Skipped | GivenUp | Rejected(node: Node) | Taken(node: Node)

  method ReadList(mem: seq<Byte>, size: nat, at: nat) returns (entry: Entry)
    requires Buffer(mem, size) && at < size && More(mem, size, at)
    ensures entry.GivenUp? ==> BuildFrom(mem, size, at) == None && SlotsFrom(mem, size, at) == []
    ensures entry.Rejected? ==> BuildFrom(mem, size, at) == None && SlotsFrom(mem, size, at) == [entry.node]
    ensures entry.Skipped? || entry.Taken? ==> !Corrupt(mem, size, at)
    ensures entry.Skipped? ==>
              var next := at + ListSizeAt(mem, at);
              BuildFrom(mem, size, at) == BuildFrom(mem, size, next)
              && SlotsFrom(mem, size, at) == SlotsFrom(mem, size, next)
    ensures entry.Taken? ==>
              var next := at + ListSizeAt(mem, at);
              BuildFrom(mem, size, at) == Joined([entry.node], BuildFrom(mem, size, next))
              && SlotsFrom(mem, size, at) == [entry.node] + SlotsFrom(mem, size, next)
  {
    hide Field, X509Guid, Sha256Guid;
    if at + LIST_SIZE > size || ListSizeAt(mem, at) == 0 {
      return GivenUp;
    }
    var kind := KindAt(mem, at);
    if kind != X509Guid() && kind != Sha256Guid() {
      return Skipped;
    }
    if kind == Sha256Guid() && SignatureSizeAt(mem, at) != 48 {
      return Skipped;
    }
    var cert := at + LIST_SIZE + HeaderSizeAt(mem, at);
    if cert + DATA_SIZE > size || SignatureSizeAt(mem, at) <= GUID_SIZE {
      return GivenUp;
    }
    var node := Node(SignatureSizeAt(mem, at) - GUID_SIZE, Some(cert + GUID_SIZE), kind);
    if node.size > size - (cert + GUID_SIZE) {
      return Rejected(node);
    }
    return Taken(node);
  }

  /** slots is what has been written to the num slots of the allocated list. */
  method BuildMokList(num: nat, mem: seq<Byte>, size: nat) returns (list: Option<seq<Node>>, slots: seq<Node>)
    requires Buffer(mem, size)
    ensures list == BuildFrom(mem, size, 0) && slots == SlotsFrom(mem, size, 0)
    ensures num == (match CountFrom(mem, size, 0) case None => 0 case Some(c) => c) ==>
              (|slots| <= num <==> !Invalid(mem, size, 0) || !FirstIsWritten(mem, size, 0))
    ensures list.Some? ==> slots == list.value && CountFrom(mem, size, 0) == Some(|slots|)
    ensures list.Some? ==> forall node :: node in list.value ==> Inside(size, node)
  {
    hide BuildFrom, SlotsFrom, CountFrom, Joined, Corrupt, Invalid, FirstIsWritten, AcceptedFrom;
    SlotsSuffice(mem, size);
    SlotsFromHere(mem, size, 0);
    if BuildFrom(mem, size, 0).Some? {
      BuiltAsCounted(mem, size, 0);
    }
    var dbsize: nat, at: nat := size, 0;
    list, slots := None, [];
    JoinNothing(BuildFrom(mem, size, 0));
    assert [] + SlotsFrom(mem, size, 0) == SlotsFrom(mem, size, 0);
    while dbsize > 0 && dbsize >= ListSizeAt(mem, at)
      invariant at + dbsize == size
      invariant BuildFrom(mem, size, 0) == Joined(slots, BuildFrom(mem, size, at))
      invariant SlotsFrom(mem, size, 0) == slots + SlotsFrom(mem, size, at)
      decreases dbsize
    {
      var entry := ReadList(mem, size, at);
      match entry
      case GivenUp =>
        GivingUp(slots, []);
        return None, slots;
      case Rejected(node) =>
        GivingUp(slots, [node]);
        return None, slots + [node];
      case Skipped =>
        Progress(mem, size, at);
        var length := ListSizeAt(mem, at);
        dbsize := dbsize - length;
        at := at + length;
      case Taken(node) =>
        Progress(mem, size, at);
        var length := ListSizeAt(mem, at);
        JoinOne(slots, node, BuildFrom(mem, size, at + length));
        slots := slots + [node];
        dbsize := dbsize - length;
        at := at + length;
    }
    LoopEnds(mem, size, at, slots);
    list := Some(slots);
  }

  lemma Progress(mem: seq<Byte>, size: nat, at: nat)
    requires Buffer(mem, size) && at < size && !Corrupt(mem, size, at)
    ensures 0 < ListSizeAt(mem, at)
  {
  }

  lemma GivingUp(slots: seq<Node>, last: seq<Node>)
    ensures Joined(slots, None) == None
    ensures last == [] ==> slots + last == slots
  {
  }

  lemma LoopEnds(mem: seq<Byte>, size: nat, at: nat, slots: seq<Node>)
    requires Buffer(mem, size) && at <= size && !More(mem, size, at)
    ensures Joined(slots, BuildFrom(mem, size, at)) == Some(slots)
    ensures slots + SlotsFrom(mem, size, at) == slots
  {
    assert slots + [] == slots;
  }

  // Deleting.

  function BytesOf(mem: seq<Byte>, node: Node): (s: seq<Byte>)
    requires Inside(|mem|, node)
    ensures |s| == node.size
  {
    mem[node.mok.value..node.mok.value + node.size]
  }

  function KeyOf(mem: seq<Byte>, node: Node): Key
    requires Inside(|mem|, node)
  {
    Key(node.kind, BytesOf(mem, node))
  }

  ghost predicate AllInside(mem: seq<Byte>, nodes: seq<Node>) {
    forall node :: node in nodes ==> Inside(|mem|, node)
  }

  /** The keys that a list of nodes stands for. */
  ghost function Keys(mem: seq<Byte>, nodes: seq<Node>): (r: seq<Key>)
    requires AllInside(mem, nodes)
    ensures |r| == |nodes|
  {
    seq(|nodes|, i requires 0 <= i < |nodes| => KeyOf(mem, nodes[i]))
  }

  /** A node that has been deleted keeps only its type. */
  function Nulled(node: Node): Node {
    Node(0, None, node.kind)
  }

  ghost predicate Matched(mem: seq<Byte>, was: Node, dmem: seq<Byte>, dels: seq<Node>)
    requires Inside(|mem|, was) && AllInside(dmem, dels)
  {
    exists d :: d in dels && BytesOf(dmem, d) == BytesOf(mem, was)
  }

  ghost function Deleted(mem: seq<Byte>, nodes: seq<Node>, dmem: seq<Byte>, dels: seq<Node>): (r: seq<Node>)
    requires AllInside(mem, nodes) && AllInside(dmem, dels)
    ensures |r| == |nodes|
  {
    seq(|nodes|, i requires 0 <= i < |nodes| =>
      if Matched(mem, nodes[i], dmem, dels) then Nulled(nodes[i]) else nodes[i])
  }

  /** One pass over the list for one key to delete. */
  method DeleteKey(mok: array<Node>, mem: seq<Byte>, bytes: seq<Byte>, ghost was: seq<Node>)
    requires bytes != [] && AllInside(mem, was) && |was| == mok.Length
    requires forall j :: 0 <= j < |was| ==> mok[j] == was[j] || mok[j] == Nulled(was[j])
    modifies mok
    ensures forall j :: 0 <= j < |was| ==>
              mok[j] == if BytesOf(mem, was[j]) == bytes then Nulled(was[j]) else old(mok[j])
  {
    var j := 0;
    while j < mok.Length
      invariant 0 <= j <= mok.Length
      invariant forall k :: 0 <= k < j ==>
                  mok[k] == if BytesOf(mem, was[k]) == bytes then Nulled(was[k]) else old(mok[k])
      invariant forall k :: j <= k < mok.Length ==> mok[k] == old(mok[k])
    {
      assert was[j] in was && (mok[j] == was[j] || mok[j] == Nulled(was[j]));
      if mok[j].size == |bytes| && BytesOf(mem, mok[j]) == bytes {
        mok[j] := mok[j].(mok := None);
        mok[j] := mok[j].(size := 0);
      }
      j := j + 1;
    }
  }

  method SearchAndDestroy(mok: array<Node>, mem: seq<Byte>, dels: seq<Node>, dmem: seq<Byte>)
    requires AllInside(mem, mok[..]) && AllInside(dmem, dels)
    modifies mok
    ensures mok[..] == Deleted(mem, old(mok[..]), dmem, dels)
  {
    ghost var was := mok[..];
    var i := 0;
    while i < |dels|
      invariant 0 <= i <= |dels|
      invariant forall j :: 0 <= j < |was| ==>
                  mok[j] == if Matched(mem, was[j], dmem, dels[..i]) then Nulled(was[j]) else was[j]
    {
      assert dels[i] in dels;
      var bytes := BytesOf(dmem, dels[i]);
      DeleteKey(mok, mem, bytes, was);
      forall j | 0 <= j < |was|
        ensures Matched(mem, was[j], dmem, dels[..i + 1])
            <==> Matched(mem, was[j], dmem, dels[..i]) || BytesOf(mem, was[j]) == bytes
      {
        assert dels[..i + 1] == dels[..i] + [dels[i]];
        assert BytesOf(mem, was[j]) == bytes ==> dels[i] in dels[..i + 1];
      }
      i := i + 1;
    }
    assert dels[..i] == dels;
  }

  // Writing back.

  const RECORD_SIZE := LIST_SIZE + GUID_SIZE

  function Header(kind: seq<Byte>, size: nat): (r: seq<Byte>)
    ensures |r| == |kind| + 28
  {
    kind + Digits(size + LIST_SIZE + DATA_SIZE - 1, 4) + Digits(0, 4) + Digits(size + GUID_SIZE, 4) + ShimLockGuid()
  }

  /** One signature list with one key. */
  ghost function Record(key: Key): (r: seq<Byte>)
    ensures |r| == |key.kind| + 28 + |key.bytes|
  {
    Header(key.kind, |key.bytes|) + key.bytes
  }

  ghost function Written(keys: seq<Key>): seq<Byte>
    decreases |keys|
  {
    if keys == [] then [] else Written(keys[..|keys| - 1]) + Record(keys[|keys| - 1])
  }

  ghost predicate Writable(mem: seq<Byte>, nodes: seq<Node>) {
    forall node :: node in nodes ==> |node.kind| == GUID_SIZE && (node.mok.Some? ==> Inside(|mem|, node))
  }

  /** The keys of the nodes that are not deleted. */
  ghost function Remaining(mem: seq<Byte>, nodes: seq<Node>): (r: seq<Key>)
    requires Writable(mem, nodes)
    decreases |nodes|
  {
    if nodes == [] then []
    else
      var last := nodes[|nodes| - 1];
      Remaining(mem, nodes[..|nodes| - 1]) + if last.mok.None? then [] else [KeyOf(mem, last)]
  }

  ghost function Output(mem: seq<Byte>, nodes: seq<Node>): seq<Byte>
    requires Writable(mem, nodes)
  {
    Written(Remaining(mem, nodes))
  }

  lemma OutputNext(mem: seq<Byte>, nodes: seq<Node>, i: nat)
    requires Writable(mem, nodes) && i < |nodes|
    ensures nodes[i] in nodes
    ensures Output(mem, nodes[..i + 1])
         == Output(mem, nodes[..i]) + if nodes[i].mok.None? then [] else Record(KeyOf(mem, nodes[i]))
    ensures |Output(mem, nodes[..i + 1])|
         == |Output(mem, nodes[..i])| + if nodes[i].mok.None? then 0 else RECORD_SIZE + nodes[i].size
  {
    hide Record;
    assert nodes[i] in nodes;
    assert nodes[..i + 1][..i] == nodes[..i];
    var r := Remaining(mem, nodes[..i]);
    if nodes[i].mok.Some? {
      assert (r + [KeyOf(mem, nodes[i])])[..|r|] == r;
    } else {
      assert r + [] == r;
    }
  }

  lemma {:induction false} OutputGrows(mem: seq<Byte>, nodes: seq<Node>, i: nat)
    requires Writable(mem, nodes) && i <= |nodes|
    ensures |Output(mem, nodes[..i])| <= |Output(mem, nodes)|
    decreases |nodes| - i
  {
    hide *;
    if i < |nodes| {
      OutputNext(mem, nodes, i);
      OutputGrows(mem, nodes, i + 1);
    } else {
      assert nodes[..i] == nodes;
    }
  }

  method Put(data: array<Byte>, at: nat, s: seq<Byte>)
    requires at + |s| <= data.Length
    modifies data
    ensures data[..] == Stored(old(data[..]), at, s)
  {
    forall i | 0 <= i < |s| {
      data[at + i] := s[i];
    }
  }

  /** Fills in the list header and the signature, field by field. */
  method PutRecord(data: array<Byte>, ptr: nat, node: Node, mem: seq<Byte>)
    requires Inside(|mem|, node) && |node.kind| == GUID_SIZE
    requires ptr + RECORD_SIZE + node.size <= data.Length
    modifies data
    ensures data[..ptr] == old(data[..ptr])
    ensures data[ptr..ptr + RECORD_SIZE + node.size] == Record(KeyOf(mem, node))
  {
    hide Digits, ShimLockGuid, Header, BytesOf;
    PutHeader(data, ptr, node.kind, node.size);
    Put(data, ptr + RECORD_SIZE, BytesOf(mem, node));
    StoredAfter(data[..], ptr, Header(node.kind, node.size), BytesOf(mem, node));
  }

  lemma StoredAfter(d: seq<Byte>, ptr: nat, a: seq<Byte>, b: seq<Byte>)
    requires ptr + |a| + |b| <= |d|
    requires d[ptr..ptr + |a|] == a && d[ptr + |a|..ptr + |a| + |b|] == b
    ensures d[ptr..ptr + |a| + |b|] == a + b
  {
  }

  method PutHeader(data: array<Byte>, ptr: nat, kind: seq<Byte>, size: nat)
    requires |kind| == GUID_SIZE && ptr + RECORD_SIZE <= data.Length
    modifies data
    ensures data[..ptr] == old(data[..ptr])
    ensures data[ptr..ptr + RECORD_SIZE] == Header(kind, size)
  {
    hide Digits, ShimLockGuid;
    Put(data, ptr, kind);
    Put(data, ptr + 16, Digits(size + LIST_SIZE + DATA_SIZE - 1, 4));
    Put(data, ptr + 20, Digits(0, 4));
    Put(data, ptr + 24, Digits(size + GUID_SIZE, 4));
    Put(data, ptr + LIST_SIZE, ShimLockGuid());
  }

  method DataSize(list: array<Node>, mem: seq<Byte>) returns (size: nat)
    requires Writable(mem, list[..])
    ensures size == |Output(mem, list[..])|
  {
    hide Output;
    ghost var nodes := list[..];
    assert |Output(mem, nodes[..0])| == 0 by { OutputOfNone(mem); assert nodes[..0] == []; }
    size := 0;
    for i := 0 to list.Length
      invariant size == |Output(mem, nodes[..i])|
    {
      OutputNext(mem, nodes, i);
      if list[i].mok.None? {
        continue;
      }
      size := size + LIST_SIZE + GUID_SIZE;
      size := size + list[i].size;
    }
    assert nodes[..list.Length] == nodes;
  }

  lemma OutputOfNone(mem: seq<Byte>)
    ensures Output(mem, []) == []
  {
  }

  method WriteBackMokList(list: array<Node>, mem: seq<Byte>) returns (data: array<Byte>)
    requires Writable(mem, list[..])
    ensures fresh(data) && data[..] == Output(mem, list[..])
  {
    hide Output, Record, Inside, KeyOf;
    ghost var nodes := list[..];
    var size := DataSize(list, mem);
    data := new Byte[size](_ => 0);
    var ptr: nat := 0;
    assert Output(mem, nodes[..0]) == [] by { OutputOfNone(mem); assert nodes[..0] == []; }
    for i := 0 to list.Length
      invariant list[..] == nodes
      invariant ptr <= data.Length == |Output(mem, nodes)|
      invariant data[..ptr] == Output(mem, nodes[..i])
    {
      OutputNext(mem, nodes, i);
      OutputGrows(mem, nodes, i + 1);
      if list[i].mok.None? {
        continue;
      }
      PutRecord(data, ptr, list[i], mem);
      ghost var end := ptr + RECORD_SIZE + list[i].size;
      assert data[..end] == data[..ptr] + data[ptr..end];
      ptr := ptr + LIST_SIZE + GUID_SIZE + list[i].size;
    }
    assert nodes[..list.Length] == nodes;
    assert data[..ptr] == data[..];
  }

  // Deleting keys from the stored list.

  /** The list parses, or it counts as empty and no node of it is looked at. */
  ghost predicate Usable(mem: seq<Byte>, size: nat) {
    Buffer(mem, size) && (BuildFrom(mem, size, 0).Some? || CountFrom(mem, size, 0) == None)
  }

  /** Lists are counted that cannot be built. */
  ghost predicate Unbuildable(mem: seq<Byte>, size: nat)
    requires Buffer(mem, size)
  {
    && !Invalid(mem, size, 0)
    && exists o :: o in AcceptedFrom(mem, size, 0) && !Fits(mem, size, o)
  }

  lemma UsableIffBuildable(mem: seq<Byte>, size: nat)
    requires Buffer(mem, size)
    ensures Usable(mem, size) <==> !Unbuildable(mem, size)
  {
    hide BuildFrom, CountFrom, AcceptedFrom, Fits;
    CountIsAccepted(mem, size, 0);
    BuiltIffFits(mem, size, 0);
  }

  ghost function Nodes(mem: seq<Byte>, size: nat): seq<Node>
    requires Usable(mem, size)
  {
    if BuildFrom(mem, size, 0).Some? then BuildFrom(mem, size, 0).value else []
  }

  lemma {:induction false} NothingCounted(mem: seq<Byte>, size: nat, at: nat)
    requires Buffer(mem, size) && at <= size && CountFrom(mem, size, at) == Some(0)
    ensures BuildFrom(mem, size, at) == Some([])
    decreases size - at
  {
    hide Field, X509Guid, Sha256Guid;
    GuidsDiffer();
    if !More(mem, size, at) {
    } else {
      NothingCounted(mem, size, at + ListSizeAt(mem, at));
    }
  }

  lemma NodesAreUsable(mem: seq<Byte>, size: nat)
    requires Usable(mem, size)
    ensures AllInside(mem, Nodes(mem, size)) && Writable(mem, Nodes(mem, size))
    ensures forall node :: node in Nodes(mem, size) ==> Proper(size, node)
  {
    hide Field, X509Guid, Sha256Guid;
    if BuildFrom(mem, size, 0).Some? {
      BuiltAsCounted(mem, size, 0);
    }
  }

  ghost function Result(mem: seq<Byte>, size: nat, dmem: seq<Byte>, dsize: nat): seq<Byte>
    requires Usable(mem, size) && Usable(dmem, dsize)
  {
    NodesAreUsable(mem, size);
    NodesAreUsable(dmem, dsize);
    Output(mem, Deleted(mem, Nodes(mem, size), dmem, Nodes(dmem, dsize)))
  }

  /** What delete_keys comes to: nothing to do, a NULL list that is looked into, or a new list. */
  datatype Deletion = NothingToDo | NullPointer | Wrote(data: seq<Byte>)

  /** The nodes that the two calls give, or None for NULL where there should be some. */
  method ListNodes(mem: seq<Byte>, size: nat) returns (nodes: Option<seq<Node>>)
    requires Buffer(mem, size)
    ensures nodes.Some? <==> Usable(mem, size)
    ensures nodes.Some? ==> nodes.value == Nodes(mem, size)
  {
    hide Field, X509Guid, Sha256Guid;
    var num := CountKeys(mem, size);
    var list, slots := BuildMokList(num, mem, size);
    if num == 0 {
      if CountFrom(mem, size, 0) == Some(0) {
        NothingCounted(mem, size, 0);
      }
      return Some([]);
    }
    return list;
  }

  method DeleteKeys(mem: seq<Byte>, size: nat, dmem: seq<Byte>, dsize: nat) returns (deletion: Deletion)
    requires Buffer(mem, size) && Buffer(dmem, dsize)
    ensures deletion == NothingToDo <==> size == 0
    ensures deletion == NullPointer <==> size != 0 && (Unbuildable(mem, size) || Unbuildable(dmem, dsize))
    ensures deletion.Wrote? ==>
              Usable(mem, size) && Usable(dmem, dsize) && deletion.data == Result(mem, size, dmem, dsize)
  {
    hide Deleted, Output, BuildFrom, CountFrom, Usable, Nodes, Unbuildable;
    UsableIffBuildable(mem, size);
    UsableIffBuildable(dmem, dsize);
    if size == 0 {
      return NothingToDo;
    }
    var list := ListNodes(mem, size);
    var delList := ListNodes(dmem, dsize);
    if list == None || delList == None {
      return NullPointer;
    }
    NodesAreUsable(mem, size);
    NodesAreUsable(dmem, dsize);
    var nodes, dels := list.value, delList.value;
    var mok := new Node[|nodes|](i requires 0 <= i < |nodes| => nodes[i]);
    assert mok[..] == nodes;
    SearchAndDestroy(mok, mem, dels, dmem);
    DeletedIsWritable(mem, nodes, dmem, dels);
    var data := WriteBackMokList(mok, mem);
    return Wrote(data[..]);
  }

  lemma DeletedIsWritable(mem: seq<Byte>, nodes: seq<Node>, dmem: seq<Byte>, dels: seq<Node>)
    requires AllInside(mem, nodes) && AllInside(dmem, dels) && Writable(mem, nodes)
    ensures Writable(mem, Deleted(mem, nodes, dmem, dels))
  {
  }

  // Reading what was written.

  ghost predicate Storable(key: Key) {
    && |key.kind| == GUID_SIZE
    && key.bytes != []
    && (key.kind == X509Guid() || (key.kind == Sha256Guid() && |key.bytes| == 32))
  }

  lemma LastWritten(keys: seq<Key>, last: Key)
    ensures Written(keys + [last]) == Written(keys) + Record(last)
  {
    hide Record;
    assert (keys + [last])[..|keys|] == keys;
  }

  lemma {:induction false} WrittenFront(keys: seq<Key>)
    requires keys != []
    ensures Written(keys) == Record(keys[0]) + Written(keys[1..])
    decreases |keys|
  {
    hide Record;
    var init, last := keys[..|keys| - 1], keys[|keys| - 1];
    if init == [] {
      assert keys[1..] == [];
      assert Written([]) == [];
    } else {
      WrittenFront(init);
      assert keys[1..] == init[1..] + [last];
      LastWritten(init[1..], last);
    }
  }

  lemma Slice(mem: seq<Byte>, at: nat, r: seq<Byte>, i: nat, n: nat)
    requires at + |r| <= |mem| && mem[at..at + |r|] == r && i + n <= |r|
    ensures mem[at + i..at + i + n] == r[i..i + n]
  {
    forall k | at + i <= k < at + i + n
      ensures mem[k] == r[k - at]
    {
      assert mem[at..at + |r|][k - at] == mem[k];
    }
    assert mem[at + i..at + i + n] == r[i..i + n];
  }

  lemma FieldOf(mem: seq<Byte>, at: nat, r: seq<Byte>, i: nat, value: nat)
    requires at + |r| <= |mem| && mem[at..at + |r|] == r && i + 4 <= |r|
    requires r[i..i + 4] == Digits(value, 4) && value < U32
    ensures Field(mem, at + i, 4) == value
  {
    hide Number, Digits, Power;
    Slice(mem, at, r, i, 4);
    NumberOfDigits(value, 4);
    WidthsOfInterest();
  }

  lemma RecordParts(key: Key)
    requires |key.kind| == GUID_SIZE
    ensures var n, r := |key.bytes|, Record(key);
            && r[..16] == key.kind
            && r[16..20] == Digits(n + LIST_SIZE + DATA_SIZE - 1, 4)
            && r[20..24] == Digits(0, 4)
            && r[24..28] == Digits(n + GUID_SIZE, 4)
            && r[RECORD_SIZE..] == key.bytes
  {
    hide Digits, ShimLockGuid;
  }

  lemma RecordFields(mem: seq<Byte>, at: nat, key: Key)
    requires |key.kind| == GUID_SIZE && |key.bytes| + RECORD_SIZE < U32
    requires at + |Record(key)| <= |mem| && mem[at..at + |Record(key)|] == Record(key)
    ensures KindAt(mem, at) == key.kind
    ensures ListSizeAt(mem, at) == |Record(key)|
    ensures HeaderSizeAt(mem, at) == 0
    ensures SignatureSizeAt(mem, at) == |key.bytes| + GUID_SIZE
    ensures mem[at + RECORD_SIZE..at + |Record(key)|] == key.bytes
  {
    hide Digits, Field, Record;
    var n, r := |key.bytes|, Record(key);
    RecordParts(key);
    Slice(mem, at, r, 0, 16);
    FieldOf(mem, at, r, 16, n + LIST_SIZE + DATA_SIZE - 1);
    FieldOf(mem, at, r, 20, 0);
    FieldOf(mem, at, r, 24, n + GUID_SIZE);
    Slice(mem, at, r, RECORD_SIZE, n);
  }

  lemma NodeOfRecord(mem: seq<Byte>, size: nat, at: nat, key: Key)
    requires Buffer(mem, size) && Storable(key)
    requires at + |Record(key)| <= size && mem[at..at + |Record(key)|] == Record(key)
    ensures More(mem, size, at) && !Corrupt(mem, size, at)
    ensures ListSizeAt(mem, at) == |Record(key)| && KindAt(mem, at) == key.kind
    ensures key.kind == Sha256Guid() && key.kind != X509Guid() ==> SignatureSizeAt(mem, at) == 48
    ensures NodeAt(mem, at).Some? && Inside(size, NodeAt(mem, at).value)
    ensures KeyOf(mem, NodeAt(mem, at).value) == key
  {
    hide Field, ShimLockGuid, X509Guid, Sha256Guid;
    RecordFields(mem, at, key);
    hide Record;
  }

  lemma KeysOfMore(mem: seq<Byte>, node: Node, nodes: seq<Node>)
    requires Inside(|mem|, node) && AllInside(mem, nodes)
    ensures AllInside(mem, [node] + nodes) && Keys(mem, [node] + nodes) == [KeyOf(mem, node)] + Keys(mem, nodes)
  {
    hide KeyOf, Inside;
  }

  lemma WrittenSplits(mem: seq<Byte>, size: nat, at: nat, keys: seq<Key>)
    requires at <= size <= |mem| && keys != [] && mem[at..size] == Written(keys)
    ensures var next := at + |Record(keys[0])|;
            && next <= size
            && mem[at..next] == Record(keys[0]) && mem[next..size] == Written(keys[1..])
  {
    WrittenFront(keys);
    var r, w := Record(keys[0]), Written(keys[1..]);
    hide Record, Written;
    var s := mem[at..size];
    assert s == r + w;
    var next := at + |r|;
    assert mem[at..next] == s[..|r|] == r;
    assert mem[next..size] == s[|r|..] == w;
  }

  /** What was written for a list of keys is parsed as these keys. */
  lemma {:induction false} Reparse(mem: seq<Byte>, size: nat, at: nat, keys: seq<Key>)
    requires Buffer(mem, size) && at <= size && mem[at..size] == Written(keys)
    requires forall key :: key in keys ==> Storable(key)
    ensures BuildFrom(mem, size, at).Some?
    ensures AllInside(mem, BuildFrom(mem, size, at).value)
    ensures Keys(mem, BuildFrom(mem, size, at).value) == keys
    decreases |keys|
  {
    hide Field, ShimLockGuid, X509Guid, Sha256Guid, Record, KindAt, ListSizeAt, NodeAt, SignatureSizeAt, KeyOf;
    if keys == [] {
      assert at == size;
    } else {
      WrittenSplits(mem, size, at, keys);
      var first, rest := keys[0], keys[1..];
      var next := at + |Record(first)|;
      NodeOfRecord(mem, size, at, first);
      Reparse(mem, size, next, rest);
      GuidsDiffer();
      var node := NodeAt(mem, at).value;
      assert BuildFrom(mem, size, at) == Some([node] + BuildFrom(mem, size, next).value);
      hide BuildFrom, Written;
      KeysOfMore(mem, node, BuildFrom(mem, size, next).value);
      assert [first] + rest == keys;
    }
  }

  // Lists on which the parsers fail.

  lemma NoList(mem: seq<Byte>, at: nat)
    requires at + LIST_SIZE <= |mem| && mem[at + 16..at + 20] == [0, 0, 0, 0]
    ensures ListSizeAt(mem, at) == 0
  {
    assert Digits(0, 2) == [0, 0];
    assert Digits(0, 4) == [0, 0, 0, 0];
    FieldOf(mem, at + 16, [0, 0, 0, 0], 0, 0);
  }

  lemma KeyThenNothing(mem: seq<Byte>)
    requires mem == Record(Key(X509Guid(), [7])) + seq(40, _ => 0)
    ensures |mem| == 85 && KindAt(mem, 0) == X509Guid() && ListSizeAt(mem, 0) == 45
    ensures HeaderSizeAt(mem, 0) == 0 && SignatureSizeAt(mem, 0) == 17 && ListSizeAt(mem, 45) == 0
  {
    hide X509Guid, Field;
    var key := Key(X509Guid(), [7]);
    assert mem[0..45] == Record(key);
    RecordFields(mem, 0, key);
    hide Record;
    assert mem[61..65] == [0, 0, 0, 0];
    NoList(mem, 45);
  }

  /** An invalid list behind a key: nothing is counted, and the key is written to a slot nevertheless. */
  lemma InvalidListOverruns()
    ensures var mem := Record(Key(X509Guid(), [7])) + seq(40, _ => 0);
            && Buffer(mem, 46)
            && Invalid(mem, 46, 0) && FirstIsWritten(mem, 46, 0)
            && CountFrom(mem, 46, 0) == None && |SlotsFrom(mem, 46, 0)| == 1
  {
    var mem := Record(Key(X509Guid(), [7])) + seq(40, _ => 0);
    KeyThenNothing(mem);
    hide X509Guid, Sha256Guid, Record, Field, KindAt, ListSizeAt, HeaderSizeAt, SignatureSizeAt;
    assert Lists(mem, 46, 45) == [];
    assert Lists(mem, 46, 0) == [0];
    CountIsAccepted(mem, 46, 0);
    OneList(mem, 46, 0);
    assert SlotsFrom(mem, 46, 45) == [];
  }

  lemma EmptyKeyFields(mem: seq<Byte>)
    requires |mem| >= 28 && mem[..28] == X509Guid() + Digits(28, 4) + Digits(0, 4) + Digits(16, 4)
    ensures KindAt(mem, 0) == X509Guid() && ListSizeAt(mem, 0) == 28 && SignatureSizeAt(mem, 0) == 16
  {
    hide X509Guid, Digits, Field;
    var front := X509Guid() + Digits(28, 4) + Digits(0, 4) + Digits(16, 4);
    assert mem[0..28] == front;
    FieldOf(mem, 0, front, 16, 28);
    FieldOf(mem, 0, front, 24, 16);
    Slice(mem, 0, front, 0, 16);
  }

  /** A list whose signature is an owner and nothing else: it is counted and is not built. */
  lemma EmptyKeyIsNull()
    ensures var mem := X509Guid() + Digits(28, 4) + Digits(0, 4) + Digits(16, 4) + seq(40, _ => 0);
            && Buffer(mem, 28) && Unbuildable(mem, 28)
            && CountFrom(mem, 28, 0) == Some(1) && BuildFrom(mem, 28, 0) == None
  {
    var front := X509Guid() + Digits(28, 4) + Digits(0, 4) + Digits(16, 4);
    var mem := front + seq(40, _ => 0);
    EmptyKeyFields(mem);
    hide X509Guid, Field, Digits, KindAt;
    assert Lists(mem, 28, 28) == [];
    assert Lists(mem, 28, 0) == [0] + Lists(mem, 28, 28);
    CountIsAccepted(mem, 28, 0);
    BuiltIffFits(mem, 28, 0);
    assert 0 in AcceptedFrom(mem, 28, 0);
  }

  // What deletion leaves.

  ghost predicate Deletes(dels: seq<Key>, key: Key) {
    exists d :: d in dels && d.bytes == key.bytes
  }

  /** The keys whose bytes are not those of a key to delete, in order. */
  ghost function Without(keys: seq<Key>, dels: seq<Key>): (r: seq<Key>)
    decreases |keys|
  {
    if keys == [] then []
    else
      var last := keys[|keys| - 1];
      Without(keys[..|keys| - 1], dels) + if Deletes(dels, last) then [] else [last]
  }

  lemma MatchedIsDeleted(mem: seq<Byte>, was: Node, dmem: seq<Byte>, dels: seq<Node>)
    requires Inside(|mem|, was) && AllInside(dmem, dels)
    ensures Matched(mem, was, dmem, dels) <==> Deletes(Keys(dmem, dels), KeyOf(mem, was))
  {
    var keys := Keys(dmem, dels);
    if Matched(mem, was, dmem, dels) {
      var d :| d in dels && BytesOf(dmem, d) == BytesOf(mem, was);
      var i :| 0 <= i < |dels| && dels[i] == d;
      assert keys[i] in keys;
    }
    if Deletes(keys, KeyOf(mem, was)) {
      var k :| k in keys && k.bytes == KeyOf(mem, was).bytes;
      var i :| 0 <= i < |keys| && keys[i] == k;
      assert dels[i] in dels;
    }
  }

  lemma {:induction false} RemainingIsWithout(mem: seq<Byte>, nodes: seq<Node>, dmem: seq<Byte>, dels: seq<Node>)
    requires AllInside(mem, nodes) && AllInside(dmem, dels) && Writable(mem, nodes)
    ensures Writable(mem, Deleted(mem, nodes, dmem, dels))
    ensures Remaining(mem, Deleted(mem, nodes, dmem, dels)) == Without(Keys(mem, nodes), Keys(dmem, dels))
    decreases |nodes|
  {
    hide Matched, Deletes;
    if nodes == [] {
    } else {
      var init, last := nodes[..|nodes| - 1], nodes[|nodes| - 1];
      assert last in nodes;
      RemainingIsWithout(mem, init, dmem, dels);
      MatchedIsDeleted(mem, last, dmem, dels);
      var all := Deleted(mem, nodes, dmem, dels);
      assert all[..|nodes| - 1] == Deleted(mem, init, dmem, dels);
      assert Keys(mem, nodes)[..|nodes| - 1] == Keys(mem, init);
    }
  }

  lemma {:induction false} WithoutHolds(keys: seq<Key>, dels: seq<Key>, key: Key)
    ensures key in Without(keys, dels) <==> key in keys && !Deletes(dels, key)
    decreases |keys|
  {
    if keys == [] {
    } else {
      hide Deletes;
      var init, last := keys[..|keys| - 1], keys[|keys| - 1];
      assert key in keys <==> key in init || key == last;
      WithoutHolds(init, dels, key);
    }
  }

  lemma {:induction false} WithoutNone(keys: seq<Key>, dels: seq<Key>)
    requires forall key :: key in keys ==> !Deletes(dels, key)
    ensures Without(keys, dels) == keys
    decreases |keys|
  {
    if keys == [] {
    } else {
      hide Deletes;
      var init, last := keys[..|keys| - 1], keys[|keys| - 1];
      assert keys == init + [last] && last in keys;
      WithoutNone(init, dels);
    }
  }

  lemma WithoutKeeps(keys: seq<Key>, dels: seq<Key>)
    ensures forall key :: key in Without(keys, dels) <==> key in keys && !Deletes(dels, key)
    ensures Without(Without(keys, dels), dels) == Without(keys, dels)
    ensures Without(keys, dels) == keys <==> forall key :: key in keys ==> !Deletes(dels, key)
  {
    hide Deletes, Without;
    forall key
      ensures key in Without(keys, dels) <==> key in keys && !Deletes(dels, key)
    {
      WithoutHolds(keys, dels, key);
    }
    WithoutNone(Without(keys, dels), dels);
    if forall key :: key in keys ==> !Deletes(dels, key) {
      WithoutNone(keys, dels);
    }
  }

  /** The keys that a stored list holds. */
  ghost function Stock(mem: seq<Byte>, size: nat): seq<Key>
    requires Usable(mem, size)
  {
    NodesAreUsable(mem, size);
    Keys(mem, Nodes(mem, size))
  }

  /**
   * The list that is written parses, with as many nodes as are counted, as exactly the old
   * keys, in order and with their types, whose bytes are those of no key to delete.
   */
  lemma DeletionLeavesTheRest(mem: seq<Byte>, size: nat, dmem: seq<Byte>, dsize: nat, after: seq<Byte>)
    requires Usable(mem, size) && Usable(dmem, dsize)
    requires var out := Result(mem, size, dmem, dsize);
             Buffer(after, |out|) && after[..|out|] == out
    ensures var n := |Result(mem, size, dmem, dsize)|;
            && Usable(after, n)
            && Stock(after, n) == Without(Stock(mem, size), Stock(dmem, dsize))
            && CountFrom(after, n, 0) == Some(|Stock(after, n)|)
  {
    hide Deleted, Written, BuildFrom, CountFrom, Remaining;
    NodesAreUsable(mem, size);
    NodesAreUsable(dmem, dsize);
    var out := Result(mem, size, dmem, dsize);
    var keys := Without(Stock(mem, size), Stock(dmem, dsize));
    RemainingIsWithout(mem, Nodes(mem, size), dmem, Nodes(dmem, dsize));
    assert out == Written(keys);
    StockIsStorable(mem, size);
    WithoutKeeps(Stock(mem, size), Stock(dmem, dsize));
    assert after[0..|out|] == after[..|out|];
    Reparse(after, |out|, 0, keys);
    BuiltAsCounted(after, |out|, 0);
  }

  lemma StockIsStorable(mem: seq<Byte>, size: nat)
    requires Usable(mem, size)
    ensures forall key :: key in Stock(mem, size) ==> Storable(key)
  {
    hide X509Guid, Sha256Guid, Nodes;
    NodesAreUsable(mem, size);
    forall key | key in Stock(mem, size)
      ensures Storable(key)
    {
      var i :| 0 <= i < |Stock(mem, size)| && Stock(mem, size)[i] == key;
      assert Nodes(mem, size)[i] in Nodes(mem, size);
    }
  }

  /** Deleting nothing and writing back keeps the keys; deleting again writes the same list. */
  lemma DeletingAgain(mem: seq<Byte>, size: nat, dmem: seq<Byte>, dsize: nat, after: seq<Byte>)
    requires Usable(mem, size) && Usable(dmem, dsize)
    requires var out := Result(mem, size, dmem, dsize);
             Buffer(after, |out|) && after[..|out|] == out
    ensures Usable(after, |Result(mem, size, dmem, dsize)|)
    ensures Result(after, |Result(mem, size, dmem, dsize)|, dmem, dsize) == Result(mem, size, dmem, dsize)
    ensures Stock(after, |Result(mem, size, dmem, dsize)|) == Stock(mem, size)
            <==> forall key :: key in Stock(mem, size) ==> !Deletes(Stock(dmem, dsize), key)
  {
    hide Deleted, Written, BuildFrom, CountFrom, Remaining, Deletes, Nodes;
    DeletionLeavesTheRest(mem, size, dmem, dsize, after);
    WithoutKeeps(Stock(mem, size), Stock(dmem, dsize));
    var n := |Result(mem, size, dmem, dsize)|;
    ResultIsWritten(mem, size, dmem, dsize);
    ResultIsWritten(after, n, dmem, dsize);
  }

  lemma ResultIsWritten(mem: seq<Byte>, size: nat, dmem: seq<Byte>, dsize: nat)
    requires Usable(mem, size) && Usable(dmem, dsize)
    ensures Result(mem, size, dmem, dsize) == Written(Without(Stock(mem, size), Stock(dmem, dsize)))
  {
    hide Deleted, Written, Remaining, Nodes;
    NodesAreUsable(mem, size);
    NodesAreUsable(dmem, dsize);
    RemainingIsWithout(mem, Nodes(mem, size), dmem, Nodes(dmem, dsize));
  }
}
