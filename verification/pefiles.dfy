/** Files with two sections, byte by byte, and what generate_hash makes of them. */
module PeFiles {
  import opened LittleEndian
  import opened PeHash

  /** A PE32+ file of 560 bytes: headers of 416 bytes, with the section headers at 328 and 368, and a
      certificate table of eight bytes at 552.  The sections have these sizes and file offsets. */
  function FileByte(i: nat, size1: nat, pointer1: nat, size2: nat, pointer2: nat): Byte {
    match i
    case 0 => 0x4D
    case 1 => 0x5A
    case 60 => 64
    case 64 => 0x50
    case 65 => 0x45
    case 70 => 2
    case 84 => 240
    case 86 => 2
    case 88 => 0x0B
    case 89 => 0x02
    case 145 => 0x10
    case 148 => 0xA0
    case 149 => 1
    case 196 => 16
    case 232 => 0x28
    case 233 => 2
    case 236 => 8
    // The first section header, with a size and an address in memory.
    case 336 => 0x31
    case 341 => 0x20
    case 344 => size1 % 256
    case 345 => size1 / 256 % 256
    case 348 => pointer1 % 256
    case 349 => pointer1 / 256 % 256
    // The second one.
    case 376 => 0x41
    case 381 => 0x10
    case 384 => size2 % 256
    case 385 => size2 / 256 % 256
    case 388 => pointer2 % 256
    case 389 => pointer2 / 256 % 256
    case _ => 0
  }

  ghost predicate IsFile(file: seq<Byte>, size1: nat, pointer1: nat, size2: nat, pointer2: nat) {
    |file| == 560 && forall i :: 0 <= i < 560 ==> file[i] == FileByte(i, size1, pointer1, size2, pointer2)
  }

  lemma TwoBytes(n: nat)
    requires n < 0x1_0000
    ensures n % 256 + 256 * (n / 256 % 256) == n
  {
  }

  lemma HeaderFields(file: seq<Byte>, size1: nat, pointer1: nat, size2: nat, pointer2: nat)
    requires IsFile(file, size1, pointer1, size2, pointer2)
    ensures Field(file, 70, 2) == 2 && Field(file, 84, 2) == 240 && Field(file, 148, 4) == 416
    ensures Field(file, 232, 4) == 552 && Field(file, 236, 4) == 8
  {
    hide Field;
    SmallField(file, 70, 2);
    SmallField(file, 84, 2);
    SmallField(file, 148, 4);
    SmallField(file, 232, 4);
    SmallField(file, 236, 4);
  }

  lemma SectionFields(file: seq<Byte>, size1: nat, pointer1: nat, size2: nat, pointer2: nat)
    requires IsFile(file, size1, pointer1, size2, pointer2)
    requires size1 < 0x1_0000 && pointer1 < 0x1_0000 && size2 < 0x1_0000 && pointer2 < 0x1_0000
    ensures Field(file, 344, 4) == size1 && Field(file, 348, 4) == pointer1
    ensures Field(file, 384, 4) == size2 && Field(file, 388, 4) == pointer2
  {
    hide Field;
    SmallField(file, 344, 4);
    SmallField(file, 348, 4);
    SmallField(file, 384, 4);
    SmallField(file, 388, 4);
    TwoBytes(size1);
    TwoBytes(pointer1);
    TwoBytes(size2);
    TwoBytes(pointer2);
  }

  lemma SectionsOfFile(image: Image, size1: nat, pointer1: nat, size2: nat, pointer2: nat)
    requires image == Image(image.memory, 560, 64) && IsFile(image.memory, size1, pointer1, size2, pointer2)
    requires size1 < 0x1_0000 && pointer1 < 0x1_0000 && size2 < 0x1_0000 && pointer2 < 0x1_0000
    ensures image.Readable() && image.SizeOfHeaders() == 416 && image.CertAddress() == 552 && image.CertSize() == 8
    ensures image.Sections() == [Section(size1, pointer1), Section(size2, pointer2)]
    ensures image.TableAt() == 328 && image.Count() == 2
  {
    HeaderFields(image.memory, size1, pointer1, size2, pointer2);
    SectionFields(image.memory, size1, pointer1, size2, pointer2);
    hide IsFile, Field;
  }

  lemma SumOfTwo(a: Section, b: Section)
    ensures Sum([a, b]) == a.size + b.size
  {
    assert [a, b][..1] == [a] && [a][..0] == [];
    assert Sum([]) == 0 && Sum([a]) == a.size;
  }

  lemma SortedTwo(a: Section, b: Section)
    ensures Sorted([a, b]) == if b.pointer < a.pointer then [b, a] else [a, b]
  {
    assert [a, b][..1] == [a] && [a][..0] == [];
    assert Sorted([a]) == [a];
    assert Insert([], b) == [b];
  }

  lemma RangesOfTwo(a: Section, b: Section)
    requires a.size != 0 && b.size != 0
    ensures Ranges([a, b]) == [Range(a.pointer, a.size), Range(b.pointer, b.size)]
  {
    assert [a, b][..1] == [a] && [a][..0] == [];
    assert Ranges([a]) == [Range(a.pointer, a.size)];
  }

  lemma FileResult(image: Image)
    requires image == Image(image.memory, 560, 64) && IsFile(image.memory, 48, 480, 64, 416)
    ensures image.Readable()
    ensures Result(image) == Hashed([Range(0, 152), Range(156, 76), Range(240, 176), Range(416, 64), Range(480, 48),
                                     Range(528, 24)])
    ensures Sorted(image.Sections()) == [Section(64, 416), Section(48, 480)]
  {
    SectionsOfFile(image, 48, 480, 64, 416);
    hide IsFile, Field, Sum, Sorted, Ranges;
    SumOfTwo(Section(48, 480), Section(64, 416));
    SortedTwo(Section(48, 480), Section(64, 416));
    RangesOfTwo(Section(64, 416), Section(48, 480));
  }

  /** 48 bytes at 480 and 64 bytes at 416: the headers around CheckSum and directory entry, the
      sections by file offset, and what is left before the certificate table. */
  method SectionsInFileOrder(file: seq<Byte>) returns (outcome: Outcome)
    requires IsFile(file, 48, 480, 64, 416)
    ensures outcome == Hashed([Range(0, 152), Range(156, 76), Range(240, 176), Range(416, 64), Range(480, 48),
                               Range(528, 24)])
  {
    FileResult(Image(file, 560, 64));
    hide IsFile, Result;
    outcome := GenerateHash(Image(file, 560, 64));
  }

  /** A section that starts after the end of the file. */
  method SectionOutside(file: seq<Byte>) returns (outcome: Outcome)
    requires IsFile(file, 48, 561, 64, 416)
    ensures outcome == InvalidParameter
  {
    var image := Image(file, 560, 64);
    SectionsOfFile(image, 48, 561, 64, 416);
    hide IsFile, Field, Sum, Sorted, Ranges;
    SortedTwo(Section(48, 561), Section(64, 416));
    outcome := GenerateHash(image);
    assert Sorted(image.Sections())[1] == Section(48, 561);
  }

  /** Sizes that add up to the size of the file. */
  method SectionsTooLong(file: seq<Byte>) returns (outcome: Outcome)
    requires IsFile(file, 496, 480, 64, 416)
    ensures outcome == InvalidParameter
  {
    var image := Image(file, 560, 64);
    SectionsOfFile(image, 496, 480, 64, 416);
    hide IsFile, Field, Sum, Sorted, Ranges;
    SumOfTwo(Section(496, 480), Section(64, 416));
    outcome := GenerateHash(image);
  }

  /** read_header accepts such a file. */
  lemma FileIsAccepted(file: seq<Byte>, size1: nat, pointer1: nat, size2: nat, pointer2: nat)
    requires IsFile(file, size1, pointer1, size2, pointer2)
    ensures Accepted(Image(file, 560, 64))
  {
    HeaderFields(file, size1, pointer1, size2, pointer2);
    MarkFields(file, size1, pointer1, size2, pointer2);
    assert HeadersBetween(328, 416) == 2 && HeadersBetween(328, 4096) == 94;
    hide IsFile, Field, HeadersBetween;
  }

  lemma MarkFields(file: seq<Byte>, size1: nat, pointer1: nat, size2: nat, pointer2: nat)
    requires IsFile(file, size1, pointer1, size2, pointer2)
    ensures Field(file, 0, 2) == 0x5A4D && Field(file, 60, 4) == 64 && Field(file, 64, 4) == 0x4550
    ensures Field(file, 86, 2) == 2 && Field(file, 88, 2) == 0x20B
    ensures Field(file, 144, 4) == 0x1000 && Field(file, 196, 4) == 16
  {
    hide Field;
    SmallField(file, 0, 2);
    SmallField(file, 60, 4);
    SmallField(file, 64, 4);
    SmallField(file, 86, 2);
    SmallField(file, 88, 2);
    SmallField(file, 144, 4);
    SmallField(file, 196, 4);
  }

  lemma TwoAreTiled()
    ensures Tiled([Section(64, 416), Section(48, 480)], 416)
  {
    var a, b := Section(64, 416), Section(48, 480);
    assert [a, b][..1] == [a] && [a][..0] == [];
    assert Sum([]) == 0 && Sum([a]) == 64;
    assert Tiled([a], 416);
  }

  /** One range more, which goes on where the last one ended. */
  lemma GoesOn(r: seq<Range>, s: seq<nat>, from: nat, last: Range)
    requires from <= last.start && Positions(r) == s + Span(from, last.start)
    ensures Positions(r + [last]) == s + Span(from, last.start + last.length)
  {
    hide Positions, Span;
    PositionsOfMore(r, last);
    SpanJoin(from, last.start, last.start + last.length);
  }

  lemma FilePositions()
    ensures Positions([Range(0, 152), Range(156, 76), Range(240, 176), Range(416, 64), Range(480, 48), Range(528, 24)])
         == Span(0, 152) + Span(156, 232) + Span(240, 552)
  {
    hide Positions, Span;
    var a, b, c, d, e, f := Range(0, 152), Range(156, 76), Range(240, 176), Range(416, 64), Range(480, 48),
                            Range(528, 24);
    assert Positions([]) == [] by { NoPositions(); }
    PositionsOfMore([], a);
    assert [] + [a] == [a] && [] + Span(0, 152) == Span(0, 152);
    PositionsOfMore([a], b);
    assert [a] + [b] == [a, b];
    PositionsOfMore([a, b], c);
    assert [a, b] + [c] == [a, b, c];
    var s := Span(0, 152) + Span(156, 232);
    GoesOn([a, b, c], s, 240, d);
    assert [a, b, c] + [d] == [a, b, c, d];
    GoesOn([a, b, c, d], s, 240, e);
    assert [a, b, c, d] + [e] == [a, b, c, d, e];
    GoesOn([a, b, c, d, e], s, 240, f);
    assert [a, b, c, d, e] + [f] == [a, b, c, d, e, f];
  }

  lemma NoPositions()
    ensures Positions([]) == []
  {
  }

  /** The bytes of this file that belong in the digest, and that they are what is hashed. */
  lemma SectionsHashUnsignedPart(image: Image)
    requires image == Image(image.memory, 560, 64) && IsFile(image.memory, 48, 480, 64, 416)
    ensures WellFormed(image) && CertificateLast(image)
    ensures Result(image).Hashed? && Kept(image, 560) == Span(0, 152) + Span(156, 232) + Span(240, 552)
    ensures Positions(Result(image).ranges) == Span(0, 152) + Span(156, 232) + Span(240, 552)
  {
    FileIsWellFormed(image);
    FileResult(image);
    hide *;
    FilePositions();
    HashesUnsignedPart(image);
  }

  lemma FileIsWellFormed(image: Image)
    requires image == Image(image.memory, 560, 64) && IsFile(image.memory, 48, 480, 64, 416)
    ensures WellFormed(image) && CertificateLast(image)
  {
    SectionsOfFile(image, 48, 480, 64, 416);
    FileResult(image);
    hide IsFile, Field, Sum, Sorted, Result, Tiled;
    SumOfTwo(Section(48, 480), Section(64, 416));
    TwoAreTiled();
  }

  // Refusals, by the fields of the section headers.

  /** The sum of the first n sizes in the section table. */
  ghost function Sizes(memory: seq<Byte>, table: nat, n: nat): nat
    requires table + 40 * n <= |memory|
  {
    if n == 0 then 0 else Sizes(memory, table, n - 1) + Field(memory, table + 40 * (n - 1) + 16, 4)
  }

  lemma {:induction false} SizesAre(image: Image, n: nat)
    requires image.Readable() && n <= image.Count()
    ensures Sum(image.Sections()[..n]) == Sizes(image.memory, image.TableAt(), n)
  {
    hide Field;
    if n == 0 {
      assert image.Sections()[..0] == [];
    } else {
      SizesAre(image, n - 1);
      assert image.Sections()[..n][..n - 1] == image.Sections()[..n - 1];
    }
  }

  lemma SameMembers(s: seq<Section>, t: seq<Section>, size: nat)
    requires multiset(s) == multiset(t) && Located(s, size)
    ensures Located(t, size)
  {
    forall i | 0 <= i < |t| && t[i].size != 0
      ensures t[i].pointer <= size
    {
      assert t[i] in multiset(t);
      assert t[i] in s;
    }
  }

  lemma LocatedByFields(image: Image)
    requires image.Readable()
    ensures
      var m, table := image.memory, image.TableAt();
      !Located(image.Sections(), image.size)
      <==> exists i :: 0 <= i < image.Count() && Field(m, table + 40 * i + 16, 4) != 0
                       && Field(m, table + 40 * i + 20, 4) > image.size
  {
    hide Field;
    var s, m, table := image.Sections(), image.memory, image.TableAt();
    if !Located(s, image.size) {
      var i :| 0 <= i < |s| && s[i].size != 0 && s[i].pointer > image.size;
      assert Field(m, table + 40 * i + 20, 4) == s[i].pointer && Field(m, table + 40 * i + 16, 4) == s[i].size;
    } else {
      forall i | 0 <= i < image.Count()
        ensures Field(m, table + 40 * i + 16, 4) == 0 || Field(m, table + 40 * i + 20, 4) <= image.size
      {
        assert s[i] == Section(Field(m, table + 40 * i + 16, 4), Field(m, table + 40 * i + 20, 4));
      }
    }
  }

  /** The file is refused iff the sizes, as a 32-bit sum, reach its size, or a section that is not
      empty starts after its end. */
  lemma RefusedIff(image: Image)
    requires image.Readable()
    ensures
      var m, table, count := image.memory, image.pe + 24 + Field(image.memory, image.pe + 20, 2),
                             Field(image.memory, image.pe + 6, 2);
      Result(image) == InvalidParameter
      <==> || Sizes(m, table, count) % 0x1_0000_0000 >= image.size
           || exists i :: 0 <= i < count && Field(m, table + 40 * i + 16, 4) != 0
                          && Field(m, table + 40 * i + 20, 4) > image.size
  {
    hide Field, Sum, Sorted, Ranges;
    var s := image.Sections();
    SizesAre(image, image.Count());
    assert s[..image.Count()] == s;
    SortedIsOrdered(s);
    if Located(s, image.size) {
      SameMembers(s, Sorted(s), image.size);
    }
    if Located(Sorted(s), image.size) {
      SameMembers(Sorted(s), s, image.size);
    }
    LocatedByFields(image);
  }
}
