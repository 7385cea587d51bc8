/**
 * Signature lists with several signatures, which section 32.4.1 of the UEFI Specification 2.8
 * allows.  The parsers of the key manager read the first signature of a list and no other.
 */
module Signatures {
  import opened LittleEndian
  import opened Mok
  import opened Wrappers

  /** The signatures, each with an owner in front, that stand between two offsets. */
  ghost function SignaturesIn(mem: seq<Byte>, kind: seq<Byte>, begin: nat, end: nat, width: nat): (r: seq<Key>)
    requires begin <= end <= |mem| && GUID_SIZE < width
    ensures r == [] <==> end < begin + width
    decreases end - begin
  {
    if end < begin + width then []
    else [Key(kind, mem[begin + GUID_SIZE..begin + width])] + SignaturesIn(mem, kind, begin + width, end, width)
  }

  /** The list at `at` has room for a signature, and the signature for a key. */
  predicate HoldsSome(mem: seq<Byte>, at: nat)
    requires at + LIST_SIZE <= |mem|
  {
    && SignatureSizeAt(mem, at) > GUID_SIZE
    && LIST_SIZE + HeaderSizeAt(mem, at) + SignatureSizeAt(mem, at) <= ListSizeAt(mem, at)
  }

  /** It has no room for a second one. */
  predicate HoldsOne(mem: seq<Byte>, at: nat)
    requires at + LIST_SIZE <= |mem|
  {
    ListSizeAt(mem, at) < LIST_SIZE + HeaderSizeAt(mem, at) + 2 * SignatureSizeAt(mem, at)
  }

  /** All signatures of the list at `at`. */
  ghost function SignaturesAt(mem: seq<Byte>, at: nat): seq<Key>
    requires at + LIST_SIZE <= |mem| && at + ListSizeAt(mem, at) <= |mem|
  {
    if !HoldsSome(mem, at) then []
    else
      SignaturesIn(mem, KindAt(mem, at), at + LIST_SIZE + HeaderSizeAt(mem, at),
                   at + ListSizeAt(mem, at), SignatureSizeAt(mem, at))
  }

  ghost function SignaturesFrom(mem: seq<Byte>, size: nat, at: nat): seq<Key>
    requires Buffer(mem, size) && at <= size
    decreases size - at
  {
    if !More(mem, size, at) || Corrupt(mem, size, at) then []
    else SignaturesAt(mem, at) + SignaturesFrom(mem, size, at + ListSizeAt(mem, at))
  }

  /** The signatures that are not read: all but the first of a list, or all of a list that is not
      accepted. */
  ghost function PassedOver(mem: seq<Byte>, size: nat, at: nat): seq<Key>
    requires Buffer(mem, size) && at <= size
    decreases size - at
  {
    if !More(mem, size, at) || Corrupt(mem, size, at) then []
    else
      var all := SignaturesAt(mem, at);
      (if Accepted(mem, at) && all != [] then all[1..] else all)
      + PassedOver(mem, size, at + ListSizeAt(mem, at))
  }

  /** No list is invalid, and each holds a signature. */
  ghost predicate Regular(mem: seq<Byte>, size: nat, at: nat)
    requires Buffer(mem, size) && at <= size
  {
    && !Invalid(mem, size, at)
    && forall o :: o in Lists(mem, size, at) ==> HoldsSome(mem, o)
  }

  lemma RegularStep(mem: seq<Byte>, size: nat, at: nat)
    requires Buffer(mem, size) && at <= size && More(mem, size, at)
    requires Regular(mem, size, at)
    ensures !Corrupt(mem, size, at) && HoldsSome(mem, at)
    ensures Regular(mem, size, at + ListSizeAt(mem, at))
  {
    hide HoldsSome, More, ListSizeAt;
    assert Lists(mem, size, at)[0] == at;
  }

  lemma {:induction false} WithoutJoined(a: seq<Key>, b: seq<Key>, dels: seq<Key>)
    ensures Without(a + b, dels) == Without(a, dels) + Without(b, dels)
    decreases |b|
  {
    hide Deletes;
    if b == [] {
      assert a + b == a;
    } else {
      var init, last := b[..|b| - 1], b[|b| - 1];
      WithoutJoined(a, init, dels);
      assert (a + b)[..|a + b| - 1] == a + init;
    }
  }

  lemma WithoutIsEmpty(keys: seq<Key>, dels: seq<Key>)
    ensures Without(keys, dels) == [] <==> forall key :: key in keys ==> Deletes(dels, key)
  {
    hide Deletes;
    forall key | key in keys
      ensures key in Without(keys, dels) <==> !Deletes(dels, key)
    {
      WithoutHolds(keys, dels, key);
    }
    if Without(keys, dels) != [] {
      WithoutHolds(keys, dels, Without(keys, dels)[0]);
    }
  }

  /** The key that is read from an accepted list is its first signature. */
  lemma ReadsFirst(mem: seq<Byte>, size: nat, at: nat)
    requires Buffer(mem, size) && at <= size && More(mem, size, at) && !Corrupt(mem, size, at)
    requires HoldsSome(mem, at)
    ensures Fits(mem, size, at) && !CertOutside(mem, size, at)
    ensures NodeAt(mem, at).Some? && Inside(|mem|, NodeAt(mem, at).value)
    ensures SignaturesAt(mem, at) != [] && SignaturesAt(mem, at)[0] == KeyOf(mem, NodeAt(mem, at).value)
  {
    hide Field, KindAt, X509Guid, Sha256Guid;
    FitsIsInside(mem, size, at);
  }

  /** What is kept of all signatures: those that are read and kept, and those that are lost. */
  ghost predicate Shared(all: seq<Key>, kept: seq<Key>, lost: seq<Key>) {
    |all| == |kept| + |lost| && (lost == [] ==> all == kept)
  }

  lemma SharedByMore(r: seq<Key>, o: seq<Key>, a: seq<Key>, k: seq<Key>, l: seq<Key>)
    requires Shared(a, k, l)
    ensures Shared(r + o + a, r + k, o + l)
  {
    if o + l == [] {
      assert |o + l| == |o| + |l|;
      assert r + o == r;
    }
  }

  lemma Combined(read: seq<Key>, over: seq<Key>, all: seq<Key>, keys: seq<Key>, lost: seq<Key>, dels: seq<Key>)
    requires Shared(Without(all, dels), Without(keys, dels), Without(lost, dels))
    ensures Shared(Without(read + over + all, dels), Without(read + keys, dels), Without(over + lost, dels))
  {
    hide Without, Shared;
    WithoutJoined(read + over, all, dels);
    WithoutJoined(read, over, dels);
    WithoutJoined(read, keys, dels);
    WithoutJoined(over, lost, dels);
    SharedByMore(Without(read, dels), Without(over, dels), Without(all, dels),
                 Without(keys, dels), Without(lost, dels));
  }

  lemma HoldsOneSignature(mem: seq<Byte>, size: nat, at: nat)
    requires Buffer(mem, size) && at <= size && More(mem, size, at) && !Corrupt(mem, size, at)
    requires HoldsSome(mem, at)
    ensures SignaturesAt(mem, at) != []
    ensures SignaturesAt(mem, at)[1..] == [] <==> HoldsOne(mem, at)
  {
    hide Field, KindAt;
  }

  lemma Cut(all: seq<Key>, accepted: bool) returns (read: seq<Key>, over: seq<Key>)
    requires all != []
    ensures read == (if accepted then [all[0]] else []) && over == (if accepted then all[1..] else all)
    ensures read + over == all
  {
    read, over := if accepted then [all[0]] else [], if accepted then all[1..] else all;
  }

  lemma SignaturesStep(mem: seq<Byte>, size: nat, at: nat)
    requires Buffer(mem, size) && at <= size && More(mem, size, at) && !Corrupt(mem, size, at)
    ensures var next, all := at + ListSizeAt(mem, at), SignaturesAt(mem, at);
            && SignaturesFrom(mem, size, at) == all + SignaturesFrom(mem, size, next)
            && PassedOver(mem, size, at)
               == (if Accepted(mem, at) && all != [] then all[1..] else all) + PassedOver(mem, size, next)
  {
    hide Accepted, SignaturesAt, ListSizeAt;
  }

  lemma NothingRead(mem: seq<Byte>, size: nat, at: nat, next: nat)
    requires Buffer(mem, size) && at <= next <= size && next == at + ListSizeAt(mem, at)
    requires More(mem, size, at) && !Corrupt(mem, size, at) && !Accepted(mem, at)
    requires BuildFrom(mem, size, next).Some? && AllInside(mem, BuildFrom(mem, size, next).value)
    ensures BuildFrom(mem, size, at) == BuildFrom(mem, size, next)
  {
    hide *;
    OneList(mem, size, at);
  }

  lemma NodeRead(mem: seq<Byte>, size: nat, at: nat, next: nat)
    requires Buffer(mem, size) && at <= next <= size && next == at + ListSizeAt(mem, at)
    requires More(mem, size, at) && !Corrupt(mem, size, at) && Accepted(mem, at)
    requires Fits(mem, size, at) && !CertOutside(mem, size, at) && BuildFrom(mem, size, next).Some?
    ensures NodeAt(mem, at).Some?
    ensures BuildFrom(mem, size, at) == Some([NodeAt(mem, at).value] + BuildFrom(mem, size, next).value)
  {
    hide More, Corrupt, ListSizeAt, Accepted, Fits, CertOutside, NodeAt, BuildFrom, SlotsFrom;
    OneList(mem, size, at);
  }

  lemma OneRead(mem: seq<Byte>, size: nat, at: nat, next: nat)
    requires Buffer(mem, size) && at <= next <= size && next == at + ListSizeAt(mem, at)
    requires More(mem, size, at) && !Corrupt(mem, size, at) && HoldsSome(mem, at) && Accepted(mem, at)
    requires BuildFrom(mem, size, next).Some? && AllInside(mem, BuildFrom(mem, size, next).value)
    ensures BuildFrom(mem, size, at).Some? && AllInside(mem, BuildFrom(mem, size, at).value)
    ensures SignaturesAt(mem, at) != []
    ensures Keys(mem, BuildFrom(mem, size, at).value)
         == [SignaturesAt(mem, at)[0]] + Keys(mem, BuildFrom(mem, size, next).value)
  {
    assert at + LIST_SIZE <= |mem|;
    hide *;
    ReadsFirst(mem, size, at);
    NodeRead(mem, size, at, next);
    KeysOfMore(mem, NodeAt(mem, at).value, BuildFrom(mem, size, next).value);
  }

  /** A deletion keeps of all signatures no more than those that are read. */
  lemma {:induction false} ReadAndPassedOver(mem: seq<Byte>, size: nat, at: nat, dels: seq<Key>)
    requires Buffer(mem, size) && at <= size && Regular(mem, size, at)
    ensures BuildFrom(mem, size, at).Some? && AllInside(mem, BuildFrom(mem, size, at).value)
    ensures var kept := Without(Keys(mem, BuildFrom(mem, size, at).value), dels);
            Shared(Without(SignaturesFrom(mem, size, at), dels), kept, Without(PassedOver(mem, size, at), dels))
    decreases size - at
  {
    hide HoldsSome, SignaturesAt, Without, Accepted, ListSizeAt;
    if !More(mem, size, at) {
      assert Without([], dels) == [] by { WithoutIsEmpty([], dels); }
    } else {
      var next := at + ListSizeAt(mem, at);
      RegularStep(mem, size, at);
      hide Regular;
      ReadAndPassedOver(mem, size, next, dels);
      hide *;
      SignaturesStep(mem, size, at);
      ReadsFirst(mem, size, at);
      var signatures, keys := SignaturesAt(mem, at), Keys(mem, BuildFrom(mem, size, next).value);
      var read, over := Cut(signatures, Accepted(mem, at));
      Combined(read, over, SignaturesFrom(mem, size, next), keys, PassedOver(mem, size, next), dels);
      if Accepted(mem, at) {
        OneRead(mem, size, at, next);
      } else {
        NothingRead(mem, size, at, next);
        assert [] + keys == keys;
      }
    }
  }

  lemma RegularIsUsable(mem: seq<Byte>, size: nat)
    requires Buffer(mem, size) && Regular(mem, size, 0)
    ensures Usable(mem, size) && AllInside(mem, Nodes(mem, size))
    ensures BuildFrom(mem, size, 0).Some?
  {
    hide BuildFrom, CountFrom, Regular;
    ReadAndPassedOver(mem, size, 0, []);
  }

  lemma {:induction false} PassedOverIsEmpty(mem: seq<Byte>, size: nat, at: nat)
    requires Buffer(mem, size) && at <= size && Regular(mem, size, at)
    ensures PassedOver(mem, size, at) == []
            <==> forall o :: o in Lists(mem, size, at) ==> Accepted(mem, o) && HoldsOne(mem, o)
    decreases size - at
  {
    hide HoldsSome, HoldsOne, SignaturesAt, Accepted, ListSizeAt;
    if !More(mem, size, at) {
    } else {
      var next := at + ListSizeAt(mem, at);
      RegularStep(mem, size, at);
      hide Regular;
      PassedOverIsEmpty(mem, size, next);
      HoldsOneSignature(mem, size, at);
      hide More, Corrupt;
      assert forall o :: o in Lists(mem, size, at) <==> o == at || o in Lists(mem, size, next);
    }
  }

  lemma AtEnd(mem: seq<Byte>, size: nat)
    requires Buffer(mem, size)
    ensures !More(mem, size, size)
  {
  }

  /** What is written for a list of keys has one list with one signature for each. */
  lemma {:induction false} WrittenSignatures(mem: seq<Byte>, size: nat, at: nat, keys: seq<Key>)
    requires Buffer(mem, size) && at <= size && mem[at..size] == Written(keys)
    requires forall key :: key in keys ==> Storable(key)
    ensures SignaturesFrom(mem, size, at) == keys
    decreases |keys|
  {
    hide Record, SignaturesAt, Storable, ListSizeAt, More, Corrupt;
    if keys == [] {
      assert at == size && !More(mem, size, at) by { AtEnd(mem, size); }
    } else {
      WrittenSplits(mem, size, at, keys);
      hide *;
      var first, rest := keys[0], keys[1..];
      assert keys == [first] + rest;
      SignatureOfRecord(mem, size, at, first);
      SignaturesStep(mem, size, at);
      WrittenSignatures(mem, size, at + |Record(first)|, rest);
    }
  }

  lemma SignatureOfRecord(mem: seq<Byte>, size: nat, at: nat, key: Key)
    requires Buffer(mem, size) && Storable(key)
    requires at + |Record(key)| <= size && mem[at..at + |Record(key)|] == Record(key)
    ensures More(mem, size, at) && !Corrupt(mem, size, at) && ListSizeAt(mem, at) == |Record(key)|
    ensures SignaturesAt(mem, at) == [key]
  {
    hide Field, ShimLockGuid, X509Guid, Sha256Guid;
    RecordFields(mem, at, key);
    hide Record;
  }

  /** All signatures but those to delete are in the list that is written iff those that are passed
      over are to be deleted as well. */
  lemma DeletionOfSignatures(mem: seq<Byte>, size: nat, dmem: seq<Byte>, dsize: nat, after: seq<Byte>)
    requires Usable(mem, size) && Regular(mem, size, 0) && Usable(dmem, dsize)
    requires var out := Result(mem, size, dmem, dsize);
             Buffer(after, |out|) && after[..|out|] == out
    ensures var n, dels := |Result(mem, size, dmem, dsize)|, Stock(dmem, dsize);
            SignaturesFrom(after, n, 0) == Without(SignaturesFrom(mem, size, 0), dels)
            <==> forall key :: key in PassedOver(mem, size, 0) ==> Deletes(dels, key)
  {
    hide SignaturesFrom, PassedOver, Regular, Without, Deletes, Result, BuildFrom, Keys;
    var out, dels := Result(mem, size, dmem, dsize), Stock(dmem, dsize);
    var kept := Without(Stock(mem, size), dels);
    ResultIsWritten(mem, size, dmem, dsize);
    StockIsStorable(mem, size);
    WithoutKeeps(Stock(mem, size), dels);
    assert after[0..|out|] == after[..|out|];
    WrittenSignatures(after, |out|, 0, kept);
    ReadAndPassedOver(mem, size, 0, dels);
    WithoutIsEmpty(PassedOver(mem, size, 0), dels);
  }

  /** If none is to be deleted, all stay iff each list is accepted and holds one. */
  lemma AllSignaturesStay(mem: seq<Byte>, size: nat, dmem: seq<Byte>, dsize: nat, after: seq<Byte>)
    requires Usable(mem, size) && Regular(mem, size, 0) && Usable(dmem, dsize)
    requires forall key :: key in SignaturesFrom(mem, size, 0) ==> !Deletes(Stock(dmem, dsize), key)
    requires var out := Result(mem, size, dmem, dsize);
             Buffer(after, |out|) && after[..|out|] == out
    ensures SignaturesFrom(after, |Result(mem, size, dmem, dsize)|, 0) == SignaturesFrom(mem, size, 0)
            <==> forall o :: o in Lists(mem, size, 0) ==> Accepted(mem, o) && HoldsOne(mem, o)
  {
    hide SignaturesFrom, PassedOver, Regular, Deletes, Result, Stock, HoldsOne, Accepted;
    DeletionOfSignatures(mem, size, dmem, dsize, after);
    WithoutNone(SignaturesFrom(mem, size, 0), Stock(dmem, dsize));
    PassedOverIsEmpty(mem, size, 0);
    PassedOverIsSome(mem, size, 0);
    var over := PassedOver(mem, size, 0);
    if over != [] {
      assert over[0] in over;
    }
  }

  lemma {:induction false} PassedOverIsSome(mem: seq<Byte>, size: nat, at: nat)
    requires Buffer(mem, size) && at <= size
    ensures forall key :: key in PassedOver(mem, size, at) ==> key in SignaturesFrom(mem, size, at)
    decreases size - at
  {
    hide SignaturesAt, Accepted, ListSizeAt;
    if !More(mem, size, at) || Corrupt(mem, size, at) {
    } else {
      PassedOverIsSome(mem, size, at + ListSizeAt(mem, at));
    }
  }

  ghost function TwoKeys(): (mem: seq<Byte>)
    ensures |mem| == 90
  {
    X509Guid() + Digits(62, 4) + Digits(0, 4) + Digits(17, 4)
    + ShimLockGuid() + [7] + ShimLockGuid() + [8] + seq(28, _ => 0)
  }

  lemma TwoKeysFields(mem: seq<Byte>)
    requires mem == TwoKeys()
    ensures KindAt(mem, 0) == X509Guid()
    ensures ListSizeAt(mem, 0) == 62 && HeaderSizeAt(mem, 0) == 0 && SignatureSizeAt(mem, 0) == 17
    ensures mem[44..45] == [7] && mem[61..62] == [8]
  {
    hide X509Guid, ShimLockGuid, Digits, Field;
    var front := X509Guid() + Digits(62, 4) + Digits(0, 4) + Digits(17, 4);
    assert mem[0..28] == front;
    Slice(mem, 0, front, 0, 16);
    FieldOf(mem, 0, front, 16, 62);
    FieldOf(mem, 0, front, 20, 0);
    FieldOf(mem, 0, front, 24, 17);
  }

  lemma TwoKeysBuilt(mem: seq<Byte>)
    requires mem == TwoKeys()
    ensures Regular(mem, 62, 0) && Usable(mem, 62) && Stock(mem, 62) == [Key(X509Guid(), [7])]
  {
    TwoKeysFields(mem);
    hide X509Guid, TwoKeys, KindAt, ListSizeAt, HeaderSizeAt, SignatureSizeAt, Field;
    assert Lists(mem, 62, 62) == [];
    assert Lists(mem, 62, 0) == [0];
    OneList(mem, 62, 0);
    var node := NodeAt(mem, 0).value;
    assert BuildFrom(mem, 62, 62) == Some([]);
    assert KeyOf(mem, node) == Key(X509Guid(), [7]);
    hide BuildFrom, KeyOf;
  }

  lemma TwoKeysRead(mem: seq<Byte>)
    requires mem == TwoKeys()
    ensures SignaturesFrom(mem, 62, 0) == [Key(X509Guid(), [7]), Key(X509Guid(), [8])]
  {
    TwoKeysFields(mem);
    hide X509Guid, TwoKeys, KindAt, ListSizeAt, HeaderSizeAt, SignatureSizeAt, Field;
    assert SignaturesAt(mem, 0) == [Key(X509Guid(), [7]), Key(X509Guid(), [8])] by {
      assert SignaturesIn(mem, X509Guid(), 62, 62, 17) == [];
      assert SignaturesIn(mem, X509Guid(), 45, 62, 17) == [Key(X509Guid(), [8])];
    }
    assert SignaturesFrom(mem, 62, 62) == [];
    hide SignaturesIn, SignaturesAt;
  }

  /** A list with the keys 7 and 8: the second one is not read and is in no list that is written. */
  lemma SecondKeyIsLost(mem: seq<Byte>, dmem: seq<Byte>, dsize: nat, after: seq<Byte>)
    requires mem == TwoKeys() && Usable(dmem, dsize) && !Deletes(Stock(dmem, dsize), Key(X509Guid(), [7]))
    ensures Usable(mem, 62) && SignaturesFrom(mem, 62, 0) == [Key(X509Guid(), [7]), Key(X509Guid(), [8])]
    ensures var out := Result(mem, 62, dmem, dsize);
            Buffer(after, |out|) && after[..|out|] == out ==>
              SignaturesFrom(after, |out|, 0) == [Key(X509Guid(), [7])]
  {
    hide SignaturesFrom, Regular, Deletes, Result, Stock, TwoKeys, X509Guid, Written, Without;
    TwoKeysRead(mem);
    TwoKeysBuilt(mem);
    var out, keys := Result(mem, 62, dmem, dsize), Stock(mem, 62);
    WithoutNone(keys, Stock(dmem, dsize));
    ResultIsWritten(mem, 62, dmem, dsize);
    StockIsStorable(mem, 62);
    if Buffer(after, |out|) && after[..|out|] == out {
      assert after[0..|out|] == after[..|out|];
      WrittenSignatures(after, |out|, 0, keys);
    }
  }
}
