/** Lists of keys, byte by byte, and what is written after a deletion. */
module MokBytes {
  import opened LittleEndian
  import opened Mok
  import opened Wrappers

  /** The types of a certificate and of a hash, and the boot loader as owner. */
  const X509: seq<Byte> :=
    [0xa1, 0x59, 0xc0, 0xa5, 0xe4, 0x94, 0xa7, 0x4a, 0x87, 0xb5, 0xab, 0x15, 0x5c, 0x2b, 0xf0, 0x72]

  const SHA256: seq<Byte> :=
    [0x26, 0x16, 0xc4, 0xc1, 0x4c, 0x50, 0x92, 0x40, 0xac, 0xa9, 0x41, 0xf9, 0x36, 0x93, 0x43, 0x28]

  const SHIM: seq<Byte> :=
    [0x50, 0xab, 0x5d, 0x60, 0x46, 0xe0, 0x00, 0x43, 0xab, 0xb6, 0x3d, 0xd8, 0x10, 0xdd, 0x8b, 0x23]

  /** A list counts iff its first sixteen bytes are those of the X.509 type, or those of the SHA-256
      type with a signature size of 48. */
  lemma AcceptedByBytes(mem: seq<Byte>, at: nat)
    requires at + 28 <= |mem|
    ensures Accepted(mem, at) <==>
      || mem[at..at + 16]
         == [0xa1, 0x59, 0xc0, 0xa5, 0xe4, 0x94, 0xa7, 0x4a, 0x87, 0xb5, 0xab, 0x15, 0x5c, 0x2b, 0xf0, 0x72]
      || (mem[at..at + 16]
            == [0x26, 0x16, 0xc4, 0xc1, 0x4c, 0x50, 0x92, 0x40, 0xac, 0xa9, 0x41, 0xf9, 0x36, 0x93, 0x43, 0x28]
          && mem[at + 24..at + 28] == [48, 0, 0, 0])
  {
    FourDigits(48);
    NumberOfDigits(48, 4);
    WidthsOfInterest();
    DigitsOfNumber(mem[at + 24..at + 28]);
    hide Number, Digits;
  }

  /** A list with one signature: sixteen bytes of type, three sizes, owner and key. */
  ghost function ListBytes(kind: seq<Byte>, size: Byte, width: Byte, owner: seq<Byte>, key: seq<Byte>): seq<Byte> {
    kind + [size, 0, 0, 0] + [0, 0, 0, 0] + [width, 0, 0, 0] + owner + key
  }

  ghost predicate HasList(mem: seq<Byte>, at: nat, kind: seq<Byte>, size: Byte, owner: seq<Byte>, key: seq<Byte>) {
    && |kind| == |owner| == 16 && 16 + |key| < 256 && size == 44 + |key|
    && at + size <= |mem|
    && mem[at..at + size] == ListBytes(kind, size, 16 + |key|, owner, key)
  }

  lemma SmallDigits(b: Byte)
    ensures Digits(b, 4) == [b, 0, 0, 0]
  {
    FourDigits(b);
  }

  lemma ListParts(kind: seq<Byte>, size: Byte, width: Byte, owner: seq<Byte>, key: seq<Byte>)
    requires |kind| == |owner| == 16
    ensures
      var r := ListBytes(kind, size, width, owner, key);
      && |r| == 44 + |key|
      && r[..16] == kind && r[16..20] == [size, 0, 0, 0] && r[20..24] == [0, 0, 0, 0]
      && r[24..28] == [width, 0, 0, 0] && r[44..] == key
  {
  }

  lemma ListFields(mem: seq<Byte>, at: nat, kind: seq<Byte>, size: Byte, owner: seq<Byte>, key: seq<Byte>)
    requires HasList(mem, at, kind, size, owner, key)
    ensures KindAt(mem, at) == kind && ListSizeAt(mem, at) == size && HeaderSizeAt(mem, at) == 0
    ensures SignatureSizeAt(mem, at) == 16 + |key| && mem[at + 44..at + size] == key
  {
    var width := 16 + |key|;
    var r := ListBytes(kind, size, width, owner, key);
    hide ListBytes, Digits, Field;
    ListParts(kind, size, width, owner, key);
    SmallDigits(size);
    SmallDigits(0);
    SmallDigits(width);
    Slice(mem, at, r, 0, 16);
    FieldOf(mem, at, r, 16, size);
    FieldOf(mem, at, r, 20, 0);
    FieldOf(mem, at, r, 24, width);
    Slice(mem, at, r, 44, |key|);
  }

  /** One accepted list with room for its key, in front of lists that can be built. */
  lemma ReadsKey(mem: seq<Byte>, size: nat, at: nat, kind: seq<Byte>, length: Byte, owner: seq<Byte>, key: seq<Byte>,
                 rest: seq<Node>)
    requires Buffer(mem, size) && HasList(mem, at, kind, length, owner, key) && at + length <= size && key != []
    requires kind == X509Guid() || (kind == Sha256Guid() && |key| == 32)
    requires BuildFrom(mem, size, at + length) == Some(rest)
    ensures BuildFrom(mem, size, at) == Some([Node(|key|, Some(at + 44), kind)] + rest)
  {
    ListFields(mem, at, kind, length, owner, key);
    hide HasList, X509Guid, Sha256Guid, BuildFrom, SlotsFrom, Field;
    assert Accepted(mem, at) && Fits(mem, size, at) && !CertOutside(mem, size, at);
    assert NodeAt(mem, at) == Some(Node(|key|, Some(at + 44), kind));
    OneList(mem, size, at);
    hide Accepted, Fits, CertOutside, NodeAt;
  }

  lemma SkipsList(mem: seq<Byte>, size: nat, at: nat, kind: seq<Byte>, length: Byte, owner: seq<Byte>, key: seq<Byte>)
    requires Buffer(mem, size) && HasList(mem, at, kind, length, owner, key) && at + length <= size
    requires kind != X509Guid() && kind != Sha256Guid()
    ensures BuildFrom(mem, size, at) == BuildFrom(mem, size, at + length)
  {
    ListFields(mem, at, kind, length, owner, key);
    hide HasList, X509Guid, Sha256Guid, BuildFrom, SlotsFrom, Field;
    OneList(mem, size, at);
  }

  lemma NothingMore(mem: seq<Byte>, size: nat)
    requires Buffer(mem, size)
    ensures BuildFrom(mem, size, size) == Some([])
  {
  }

  lemma KeyAt(mem: seq<Byte>, at: nat, kind: seq<Byte>, length: Byte, owner: seq<Byte>, key: seq<Byte>)
    requires HasList(mem, at, kind, length, owner, key) && key != []
    ensures Inside(|mem|, Node(|key|, Some(at + 44), kind))
    ensures KeyOf(mem, Node(|key|, Some(at + 44), kind)) == Key(kind, key)
  {
    ListFields(mem, at, kind, length, owner, key);
    hide ListBytes;
  }

  /** A certificate, a hash, a list of another type and another certificate, whoever owns them. */
  ghost predicate IsMokList(mem: seq<Byte>, owners: seq<seq<Byte>>, hash: seq<Byte>, other: seq<Byte>) {
    && |mem| >= 239 && |owners| == 4 && |hash| == 32
    && HasList(mem, 0, X509Guid(), 45, owners[0], [7])
    && HasList(mem, 45, Sha256Guid(), 76, owners[1], hash)
    && other != X509Guid() && other != Sha256Guid() && HasList(mem, 121, other, 45, owners[2], [8])
    && HasList(mem, 166, X509Guid(), 45, owners[3], [9])
  }

  lemma MokListBuilt(mem: seq<Byte>, owners: seq<seq<Byte>>, hash: seq<Byte>, other: seq<Byte>)
    requires IsMokList(mem, owners, hash, other)
    ensures Buffer(mem, 211)
    ensures BuildFrom(mem, 211, 0)
         == Some([Node(1, Some(44), X509Guid()), Node(32, Some(89), Sha256Guid()), Node(1, Some(210), X509Guid())])
  {
    hide HasList, BuildFrom, X509Guid, Sha256Guid;
    var x, y, z := Node(1, Some(44), X509Guid()), Node(32, Some(89), Sha256Guid()), Node(1, Some(210), X509Guid());
    NothingMore(mem, 211);
    ReadsKey(mem, 211, 166, X509Guid(), 45, owners[3], [9], []);
    assert [z] + [] == [z];
    SkipsList(mem, 211, 121, other, 45, owners[2], [8]);
    ReadsKey(mem, 211, 45, Sha256Guid(), 76, owners[1], hash, [z]);
    assert [y] + [z] == [y, z];
    ReadsKey(mem, 211, 0, X509Guid(), 45, owners[0], [7], [y, z]);
    assert [x] + [y, z] == [x, y, z];
  }

  lemma MokListStock(mem: seq<Byte>, owners: seq<seq<Byte>>, hash: seq<Byte>, other: seq<Byte>)
    requires IsMokList(mem, owners, hash, other)
    ensures Usable(mem, 211)
    ensures Stock(mem, 211) == [Key(X509Guid(), [7]), Key(Sha256Guid(), hash), Key(X509Guid(), [9])]
  {
    MokListBuilt(mem, owners, hash, other);
    hide HasList, BuildFrom, X509Guid, Sha256Guid, KeyOf, Inside;
    KeyAt(mem, 0, X509Guid(), 45, owners[0], [7]);
    KeyAt(mem, 45, Sha256Guid(), 76, owners[1], hash);
    KeyAt(mem, 166, X509Guid(), 45, owners[3], [9]);
    hide Keys;
    KeysOfThree(mem, Node(1, Some(44), X509Guid()), Node(32, Some(89), Sha256Guid()), Node(1, Some(210), X509Guid()));
  }

  lemma KeysOfThree(mem: seq<Byte>, x: Node, y: Node, z: Node)
    requires Inside(|mem|, x) && Inside(|mem|, y) && Inside(|mem|, z)
    ensures AllInside(mem, [x, y, z]) && Keys(mem, [x, y, z]) == [KeyOf(mem, x), KeyOf(mem, y), KeyOf(mem, z)]
  {
    hide KeyOf, Inside;
  }

  lemma MokDelStock(dmem: seq<Byte>, owner: seq<Byte>)
    requires |dmem| >= 73 && HasList(dmem, 0, X509Guid(), 45, owner, [9])
    ensures Usable(dmem, 45) && Stock(dmem, 45) == [Key(X509Guid(), [9])]
  {
    hide HasList, BuildFrom, X509Guid, KeyOf, Inside;
    NothingMore(dmem, 45);
    ReadsKey(dmem, 45, 0, X509Guid(), 45, owner, [9], []);
    KeyAt(dmem, 0, X509Guid(), 45, owner, [9]);
    var z := Node(1, Some(44), X509Guid());
    assert [z] + [] == [z];
  }

  lemma WithoutNine(hash: seq<Byte>)
    requires |hash| == 32
    ensures Without([Key(X509Guid(), [7]), Key(Sha256Guid(), hash), Key(X509Guid(), [9])], [Key(X509Guid(), [9])])
         == [Key(X509Guid(), [7]), Key(Sha256Guid(), hash)]
  {
    hide X509Guid, Sha256Guid;
    var x, y, z := Key(X509Guid(), [7]), Key(Sha256Guid(), hash), Key(X509Guid(), [9]);
    var dels := [z];
    assert !Deletes(dels, x) && !Deletes(dels, y);
    assert z in dels && Deletes(dels, z);
    hide Deletes;
    assert [x, y, z][..2] == [x, y] && [x, y][..1] == [x] && [x][..0] == [];
    assert Without([x], dels) == [x] && Without([x, y], dels) == [x, y];
  }

  lemma WrittenTwo(a: Key, b: Key)
    ensures Written([a, b]) == Record(a) + Record(b)
  {
    hide Record;
    assert [a, b][..1] == [a] && [a][..0] == [];
    assert Written([a]) == Record(a);
  }

  lemma RecordBytes(key: Key)
    requires |key.kind| == 16 && 44 + |key.bytes| < 256
    ensures Record(key) == ListBytes(key.kind, 44 + |key.bytes|, 16 + |key.bytes|, SHIM, key.bytes)
  {
    SmallDigits(44 + |key.bytes|);
    SmallDigits(0);
    SmallDigits(16 + |key.bytes|);
    hide Digits;
    assert ShimLockGuid() == SHIM;
  }

  lemma GuidBytes()
    ensures X509Guid() == X509 && Sha256Guid() == SHA256 && |X509| == |SHA256| == 16
  {
  }

  /** Deleting the second certificate, whoever owns the keys.  The first certificate and the hash are
      written back with the boot loader as owner; the list of another type is not. */
  method DeletesCertificate(mem: seq<Byte>, owners: seq<seq<Byte>>, hash: seq<Byte>, other: seq<Byte>,
                            dmem: seq<Byte>, owner: seq<Byte>)
    returns (deletion: Deletion)
    requires |mem| >= 239 && |owners| == 4 && |hash| == 32 && other != X509 && other != SHA256
    requires HasList(mem, 0, X509, 45, owners[0], [7]) && HasList(mem, 45, SHA256, 76, owners[1], hash)
    requires HasList(mem, 121, other, 45, owners[2], [8]) && HasList(mem, 166, X509, 45, owners[3], [9])
    requires |dmem| >= 73 && HasList(dmem, 0, X509, 45, owner, [9])
    ensures deletion == Wrote(ListBytes(X509, 45, 17, SHIM, [7]) + ListBytes(SHA256, 76, 48, SHIM, hash))
  {
    GuidBytes();
    hide X509Guid, Sha256Guid, HasList, Usable, Result, Unbuildable, Record, ListBytes;
    WritesTwo(mem, owners, hash, other, dmem, owner);
    RecordBytes(Key(X509Guid(), [7]));
    RecordBytes(Key(Sha256Guid(), hash));
    deletion := DeleteKeys(mem, 211, dmem, 45);
  }

  lemma WritesTwo(mem: seq<Byte>, owners: seq<seq<Byte>>, hash: seq<Byte>, other: seq<Byte>,
                  dmem: seq<Byte>, owner: seq<Byte>)
    requires IsMokList(mem, owners, hash, other)
    requires |dmem| >= 73 && HasList(dmem, 0, X509Guid(), 45, owner, [9])
    ensures Buffer(mem, 211) && Buffer(dmem, 45) && Usable(mem, 211) && Usable(dmem, 45)
    ensures !Unbuildable(mem, 211) && !Unbuildable(dmem, 45)
    ensures Result(mem, 211, dmem, 45) == Record(Key(X509Guid(), [7])) + Record(Key(Sha256Guid(), hash))
  {
    assert Buffer(mem, 211) && Buffer(dmem, 45);
    hide *;
    MokListStock(mem, owners, hash, other);
    MokDelStock(dmem, owner);
    UsableIffBuildable(mem, 211);
    UsableIffBuildable(dmem, 45);
    ResultIsWritten(mem, 211, dmem, 45);
    HashIsLong(mem, owners, hash, other);
    WithoutNine(hash);
    WrittenTwo(Key(X509Guid(), [7]), Key(Sha256Guid(), hash));
  }

  lemma HashIsLong(mem: seq<Byte>, owners: seq<seq<Byte>>, hash: seq<Byte>, other: seq<Byte>)
    requires IsMokList(mem, owners, hash, other)
    ensures |hash| == 32
  {
  }
}
