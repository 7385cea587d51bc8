/** The part of a PE32+ file that `generate_hash` feeds to the digests. */
module PeHash {
  import opened LittleEndian

  /** The two fields of a section header that the hash depends on. */
  datatype Section = Section(size: nat, pointer: nat)

  /** One call to the digest's update function: `length` bytes from offset `start`. */
  datatype Range = Range(start: nat, length: nat)

  datatype Outcome = InvalidParameter | Hashed(ranges: seq<Range>)

  const CHECKSUM := 88
  const SECURITY := 168
  const AFTER_SECURITY := 176
  const HEADER_SIZE := 40

  /** A file of the given size, with what follows it in memory, and the offset of its PE header. */
  datatype Image = Image(memory: seq<Byte>, size: nat, pe: nat) {

    /** The size is a C int, and read_header has found the PE header in the file.  The section table
        is read wherever it is. */
    ghost predicate Readable() {
      && pe + AFTER_SECURITY <= size <= |memory| && size < 0x8000_0000
      && TableAt() + HEADER_SIZE * Count() <= |memory|
    }

    function Count(): nat
      requires pe + AFTER_SECURITY <= |memory|
    {
      Field(memory, pe + 6, 2)
    }

    function TableAt(): nat
      requires pe + AFTER_SECURITY <= |memory|
    {
      pe + 24 + Field(memory, pe + 20, 2)
    }

    function SizeOfHeaders(): nat
      requires pe + AFTER_SECURITY <= |memory|
    {
      Field(memory, pe + 84, 4)
    }

    function CertAddress(): nat
      requires pe + AFTER_SECURITY <= |memory|
    {
      Field(memory, pe + SECURITY, 4)
    }

    function CertSize(): nat
      requires pe + AFTER_SECURITY <= |memory|
    {
      Field(memory, pe + SECURITY + 4, 4)
    }

    function SectionAt(i: nat): Section
      requires Readable() && i < Count()
    {
      var at := TableAt() + HEADER_SIZE * i;
      Section(Field(memory, at + 16, 4), Field(memory, at + 20, 4))
    }

    ghost function Sections(): seq<Section>
      requires Readable()
    {
      seq(Count(), i requires 0 <= i < Count() => SectionAt(i))
    }
  }

  // Sorting the section headers.

  ghost function Insert(s: seq<Section>, x: Section): (r: seq<Section>)
    ensures |r| == |s| + 1
    decreases |s|
  {
    if s != [] && x.pointer < s[|s| - 1].pointer
    then Insert(s[..|s| - 1], x) + [s[|s| - 1]]
    else s + [x]
  }

  ghost function Sorted(s: seq<Section>): (r: seq<Section>)
    ensures |r| == |s|
    decreases |s|
  {
    if s == [] then [] else Insert(Sorted(s[..|s| - 1]), s[|s| - 1])
  }

  ghost predicate Ordered(s: seq<Section>) {
    forall i, j :: 0 <= i < j < |s| ==> s[i].pointer <= s[j].pointer
  }

  ghost function Sum(s: seq<Section>): nat
    decreases |s|
  {
    if s == [] then 0 else Sum(s[..|s| - 1]) + s[|s| - 1].size
  }

  /** The sections at one file offset, in their order. */
  ghost function At(s: seq<Section>, pointer: nat): seq<Section>
    decreases |s|
  {
    if s == [] then []
    else At(s[..|s| - 1], pointer) + if s[|s| - 1].pointer == pointer then [s[|s| - 1]] else []
  }

  lemma {:induction false} InsertIsPermutation(s: seq<Section>, x: Section)
    ensures multiset(Insert(s, x)) == multiset(s) + multiset{x}
    ensures Sum(Insert(s, x)) == Sum(s) + x.size
    decreases |s|
  {
    if s != [] && x.pointer < s[|s| - 1].pointer {
      var init, last := s[..|s| - 1], s[|s| - 1];
      InsertIsPermutation(init, x);
      assert s == init + [last];
      assert (Insert(init, x) + [last])[..|s|] == Insert(init, x);
    } else {
      assert (s + [x])[..|s|] == s;
    }
  }

  /** The last of the inserted-into elements, or `x` if it is larger, stays last. */
  lemma {:induction false} InsertIsOrdered(s: seq<Section>, x: Section)
    requires Ordered(s)
    ensures Ordered(Insert(s, x))
    ensures Insert(s, x)[|s|] == if s != [] && x.pointer < s[|s| - 1].pointer then s[|s| - 1] else x
    decreases |s|
  {
    if s != [] && x.pointer < s[|s| - 1].pointer {
      InsertIsOrdered(s[..|s| - 1], x);
    }
  }

  lemma {:induction false} InsertKeepsPlaces(s: seq<Section>, x: Section, pointer: nat)
    requires Ordered(s)
    ensures At(Insert(s, x), pointer) == At(s + [x], pointer)
    decreases |s|
  {
    assert (s + [x])[..|s|] == s;
    if s != [] && x.pointer < s[|s| - 1].pointer {
      var init, last := s[..|s| - 1], s[|s| - 1];
      InsertKeepsPlaces(init, x, pointer);
      var r := Insert(init, x);
      assert (r + [last])[..|r|] == r;
      assert (init + [x])[..|init|] == init;
      if x.pointer != pointer && last.pointer == pointer {
        assert At(Insert(s, x), pointer) == At(init, pointer) + [] + [last];
      }
    }
  }

  /** The sort gives an ordered permutation of the headers. */
  lemma {:induction false} SortedIsOrdered(s: seq<Section>)
    ensures Ordered(Sorted(s))
    ensures multiset(Sorted(s)) == multiset(s)
    ensures Sum(Sorted(s)) == Sum(s)
    decreases |s|
  {
    hide Insert;
    if s == [] {
    } else {
      var init, last := s[..|s| - 1], s[|s| - 1];
      SortedIsOrdered(init);
      InsertIsOrdered(Sorted(init), last);
      InsertIsPermutation(Sorted(init), last);
      assert s == init + [last];
    }
  }

  /** The sort keeps headers with the same file offset in their order. */
  lemma {:induction false} SortIsStable(s: seq<Section>, pointer: nat)
    ensures At(Sorted(s), pointer) == At(s, pointer)
    decreases |s|
  {
    hide Insert;
    if s == [] {
    } else {
      var init, last := s[..|s| - 1], s[|s| - 1];
      SortIsStable(init, pointer);
      SortedIsOrdered(init);
      InsertKeepsPlaces(Sorted(init), last, pointer);
      assert (Sorted(init) + [last])[..|init|] == Sorted(init);
    }
  }

  lemma {:induction false} InsertBefore(s: seq<Section>, x: Section, pos: nat)
    requires pos <= |s|
    requires forall i :: pos <= i < |s| ==> x.pointer < s[i].pointer
    ensures Insert(s, x) == Insert(s[..pos], x) + s[pos..]
    decreases |s|
  {
    if pos < |s| {
      InsertBefore(s[..|s| - 1], x, pos);
      assert s[..|s| - 1][..pos] == s[..pos];
      assert s[..|s| - 1][pos..] + [s[|s| - 1]] == s[pos..];
    } else {
      assert s[..pos] == s;
    }
  }

  lemma InsertLast(s: seq<Section>, x: Section)
    requires s == [] || s[|s| - 1].pointer <= x.pointer
    ensures Insert(s, x) == s + [x]
  {
  }

  lemma InsertedAt(r: seq<Section>, s: seq<Section>, x: Section, pos: nat)
    requires pos <= |s| && |r| == |s| + 1
    requires pos == 0 || s[pos - 1].pointer <= x.pointer
    requires forall i :: pos <= i < |s| ==> x.pointer < s[i].pointer
    requires forall i :: 0 <= i < pos ==> r[i] == s[i]
    requires r[pos] == x
    requires forall i :: pos < i < |r| ==> r[i] == s[i - 1]
    ensures r == Insert(s, x)
  {
    hide Insert;
    InsertBefore(s, x, pos);
    InsertLast(s[..pos], x);
    assert r == s[..pos] + [x] + s[pos..];
  }

  /** Shifts the larger headers up one place and puts `x` before them. */
  method InsertInPlace(header: array<Section>, index: nat, x: Section)
    requires index < header.Length
    modifies header
    ensures header[..index + 1] == Insert(old(header[..index]), x)
  {
    hide Insert;
    ghost var s := header[..index];
    var pos := index;
    while pos > 0 && x.pointer < header[pos - 1].pointer
      invariant 0 <= pos <= index
      invariant forall i :: 0 <= i < pos ==> header[i] == s[i]
      invariant forall i :: pos <= i < index ==> x.pointer < s[i].pointer
      invariant forall i :: pos < i <= index ==> header[i] == s[i - 1]
    {
      header[pos] := header[pos - 1];
      pos := pos - 1;
    }
    header[pos] := x;
    InsertedAt(header[..index + 1], s, x, pos);
  }

  method SortHeaders(image: Image) returns (header: array<Section>)
    requires image.Readable()
    ensures fresh(header) && header[..] == Sorted(image.Sections())
  {
    header := new Section[image.Count()](_ => Section(0, 0));
    var index := 0;
    while index < image.Count()
      invariant 0 <= index <= image.Count() == header.Length
      invariant fresh(header)
      invariant header[..index] == Sorted(image.Sections()[..index])
    {
      InsertInPlace(header, index, image.SectionAt(index));
      Next(image.Sections(), index);
      index := index + 1;
    }
    assert image.Sections()[..index] == image.Sections();
    assert header[..index] == header[..];
  }

  // The ranges that are hashed.

  ghost function Front(image: Image): seq<Range>
    requires image.Readable()
  {
    var p := image.pe;
    [Range(0, p + CHECKSUM),
     Range(p + CHECKSUM + 4, SECURITY - CHECKSUM - 4),
     Range(p + AFTER_SECURITY, Wrap(image.SizeOfHeaders() - (p + AFTER_SECURITY)))]
  }

  ghost function Ranges(s: seq<Section>): seq<Range>
    decreases |s|
  {
    if s == [] then []
    else Ranges(s[..|s| - 1]) + if s[|s| - 1].size == 0 then [] else [Range(s[|s| - 1].pointer, s[|s| - 1].size)]
  }

  ghost function Rest(image: Image, hashed: nat): seq<Range>
    requires image.Readable()
  {
    if image.size > hashed
    then [Range(hashed, Wrap(image.size - image.CertSize() - hashed))]
    else []
  }

  ghost predicate Located(s: seq<Section>, size: nat) {
    forall i :: 0 <= i < |s| && s[i].size != 0 ==> s[i].pointer <= size
  }

  ghost function Result(image: Image): Outcome
    requires image.Readable()
  {
    var sections := image.Sections();
    var sum := Sum(sections);
    if Wrap(sum) >= image.size || !Located(Sorted(sections), image.size) then InvalidParameter
    else Hashed(Front(image) + Ranges(Sorted(sections)) + Rest(image, Wrap(image.SizeOfHeaders() + sum)))
  }

  lemma Next(s: seq<Section>, i: nat)
    requires i < |s|
    ensures Sum(s[..i + 1]) == Sum(s[..i]) + s[i].size
    ensures Sorted(s[..i + 1]) == Insert(Sorted(s[..i]), s[i])
    ensures Ranges(s[..i + 1]) == Ranges(s[..i]) + if s[i].size == 0 then [] else [Range(s[i].pointer, s[i].size)]
  {
    assert s[..i + 1][..i] == s[..i];
  }

  lemma NothingYet()
    ensures Sum([]) == 0 && Ranges([]) == []
  {
  }

  method SumSections(image: Image) returns (sum: nat)
    requires image.Readable()
    ensures sum == Wrap(Sum(image.Sections()))
  {
    hide Wrap, Sum, Image.SectionAt;
    sum := 0;
    var index := 0;
    assert image.Sections()[..index] == [];
    assert Sum([]) == 0 by { NothingYet(); }
    while index < image.Count()
      invariant 0 <= index <= image.Count()
      invariant sum == Wrap(Sum(image.Sections()[..index]))
    {
      Next(image.Sections(), index);
      WrapSum(Sum(image.Sections()[..index]), image.SectionAt(index).size);
      sum := Wrap(sum + image.SectionAt(index).size);
      index := index + 1;
    }
    assert image.Sections()[..index] == image.Sections();
  }

  method HashSections(header: array<Section>, size: nat, start: nat)
    returns (ok: bool, fed: seq<Range>, hashed: nat)
    ensures ok <==> Located(header[..], size)
    ensures ok ==> fed == Ranges(header[..]) && hashed == Wrap(start + Sum(header[..]))
  {
    hide Wrap, Sum, Ranges;
    ghost var s := header[..];
    assert Sum([]) == 0 && Ranges([]) == [] by { NothingYet(); }
    ok, fed, hashed := true, [], Wrap(start);
    var index := 0;
    assert s[..index] == [];
    while index < header.Length
      invariant 0 <= index <= |s| == header.Length && header[..] == s
      invariant forall i :: 0 <= i < index && s[i].size != 0 ==> s[i].pointer <= size
      invariant fed == Ranges(s[..index]) && hashed == Wrap(start + Sum(s[..index]))
    {
      var section := header[index];
      assert section == s[index];
      Next(s, index);
      index := index + 1;
      if section.size == 0 {
        continue;
      }
      if section.pointer > size {
        return false, fed, hashed;
      }
      fed := fed + [Range(section.pointer, section.size)];
      WrapSum(start + Sum(s[..index - 1]), section.size);
      hashed := Wrap(hashed + section.size);
    }
    assert s[..index] == s;
  }

  method GenerateHash(image: Image) returns (outcome: Outcome)
    requires image.Readable()
    ensures outcome == Result(image)
  {
    hide Sorted, Sum, Ranges, Located, Image.SectionAt, Image.Sections, Field, Wrap;
    var size := image.size;
    var headers := image.SizeOfHeaders();
    var afterChecksum := image.pe + CHECKSUM + 4;
    var afterSecurity := image.pe + AFTER_SECURITY;
    var fed := [Range(0, image.pe + CHECKSUM)];
    fed := fed + [Range(afterChecksum, image.pe + SECURITY - afterChecksum)];
    fed := fed + [Range(afterSecurity, Wrap(headers - afterSecurity))];
    assert fed == Front(image);
    hide Front;
    var sum := SumSections(image);
    if sum >= size {
      return InvalidParameter;
    }
    var header := SortHeaders(image);
    var ok, sections, hashed := HashSections(header, size, headers);
    if !ok {
      return InvalidParameter;
    }
    SortedIsOrdered(image.Sections());
    fed := fed + sections;
    if size > hashed {
      fed := fed + [Range(hashed, Wrap(size - image.CertSize() - hashed))];
    }
    return Hashed(fed);
  }

  // Which bytes of the file these are.

  ghost function Span(a: nat, b: nat): (s: seq<nat>)
    ensures |s| == if a <= b then b - a else 0
    ensures forall i :: 0 <= i < |s| ==> s[i] == a + i
  {
    if b <= a then [] else Span(a, b - 1) + [b - 1]
  }

  ghost function Positions(r: seq<Range>): seq<nat>
    decreases |r|
  {
    if r == [] then []
    else var last := r[|r| - 1]; Positions(r[..|r| - 1]) + Span(last.start, last.start + last.length)
  }

  /** The CheckSum field, the security directory entry or the certificate table. */
  ghost predicate Excluded(image: Image, p: nat)
    requires image.Readable()
  {
    || image.pe + CHECKSUM <= p < image.pe + CHECKSUM + 4
    || image.pe + SECURITY <= p < image.pe + AFTER_SECURITY
    || image.CertAddress() <= p < image.CertAddress() + image.CertSize()
  }

  /** The offsets below `n` that belong in the digest, in order. */
  ghost function Kept(image: Image, n: nat): seq<nat>
    requires image.Readable()
  {
    if n == 0 then [] else Kept(image, n - 1) + if Excluded(image, n - 1) then [] else [n - 1]
  }

  /** The non-empty sections follow one another from `start` on. */
  ghost predicate Tiled(s: seq<Section>, start: nat)
    decreases |s|
  {
    s == [] ||
    (Tiled(s[..|s| - 1], start) && (s[|s| - 1].size == 0 || s[|s| - 1].pointer == start + Sum(s[..|s| - 1])))
  }

  /** Where the last section ends. */
  ghost function End(image: Image): nat
    requires image.Readable()
  {
    image.SizeOfHeaders() + Sum(image.Sections())
  }

  ghost predicate WellFormed(image: Image) {
    && image.Readable()
    && image.pe + AFTER_SECURITY <= image.TableAt()
    && image.TableAt() + HEADER_SIZE * image.Count() <= image.SizeOfHeaders()
    && Tiled(Sorted(image.Sections()), image.SizeOfHeaders())
    && End(image) <= image.size
    && (image.CertSize() == 0 ||
        End(image) <= image.CertAddress() <= image.CertAddress() + image.CertSize() <= image.size)
  }

  ghost predicate CertificateLast(image: Image)
    requires image.Readable()
  {
    image.CertSize() == 0 || image.CertAddress() + image.CertSize() == image.size
  }

  lemma {:induction false} SpanJoin(a: nat, b: nat, c: nat)
    requires a <= b <= c
    ensures Span(a, b) + Span(b, c) == Span(a, c)
  {
  }

  lemma PositionsOfMore(r: seq<Range>, last: Range)
    ensures Positions(r + [last]) == Positions(r) + Span(last.start, last.start + last.length)
  {
    hide Span;
    assert (r + [last])[..|r|] == r;
  }

  lemma {:induction false} TiledIsLocated(s: seq<Section>, start: nat, size: nat)
    requires Tiled(s, start) && start + Sum(s) <= size
    ensures Located(s, size)
    decreases |s|
  {
    if s == [] {
    } else {
      var init := s[..|s| - 1];
      TiledIsLocated(init, start, size);
      assert forall i :: 0 <= i < |init| ==> s[i] == init[i];
    }
  }

  lemma {:induction false} TiledPositions(s: seq<Section>, start: nat)
    requires Tiled(s, start)
    ensures Positions(Ranges(s)) == Span(start, start + Sum(s))
    decreases |s|
  {
    hide Positions, Span, Ranges, Sum, Tiled;
    if s == [] {
      NoTile(start);
    } else {
      TileLast(s, start);
      TiledPositions(s[..|s| - 1], start);
      OneMoreTile(Ranges(s[..|s| - 1]), start, start + Sum(s[..|s| - 1]), s[|s| - 1]);
    }
  }

  lemma NoTile(start: nat)
    ensures Positions(Ranges([])) == [] == Span(start, start + Sum([]))
  {
  }

  lemma TileLast(s: seq<Section>, start: nat)
    requires s != [] && Tiled(s, start)
    ensures
      var init, last := s[..|s| - 1], s[|s| - 1];
      && Tiled(init, start) && Sum(s) == Sum(init) + last.size
      && (last.size == 0 || last.pointer == start + Sum(init))
      && Ranges(s) == Ranges(init) + if last.size == 0 then [] else [Range(last.pointer, last.size)]
  {
  }

  lemma OneMoreTile(r: seq<Range>, start: nat, end: nat, last: Section)
    requires start <= end && Positions(r) == Span(start, end)
    requires last.size == 0 || last.pointer == end
    ensures Positions(r + if last.size == 0 then [] else [Range(last.pointer, last.size)])
            == Span(start, end + last.size)
  {
    hide Positions, Span;
    if last.size == 0 {
      assert r + [] == r;
    } else {
      PositionsOfMore(r, Range(end, last.size));
      SpanJoin(start, end, end + last.size);
    }
  }

  lemma {:induction false} PositionsJoin(a: seq<Range>, b: seq<Range>)
    ensures Positions(a + b) == Positions(a) + Positions(b)
    decreases |b|
  {
    if b == [] {
      assert a + b == a;
    } else {
      hide Positions, Span;
      var init, last := b[..|b| - 1], b[|b| - 1];
      assert b == init + [last];
      assert a + b == a + init + [last];
      PositionsJoin(a, init);
      PositionsOfMore(init, last);
      PositionsOfMore(a + init, last);
    }
  }

  lemma {:induction false} KeptOver(image: Image, a: nat, b: nat)
    requires image.Readable() && a <= b
    requires forall p :: a <= p < b ==> !Excluded(image, p)
    ensures Kept(image, b) == Kept(image, a) + Span(a, b)
  {
    if a == b {
    } else {
      KeptOver(image, a, b - 1);
    }
  }

  lemma {:induction false} SkippedOver(image: Image, a: nat, b: nat)
    requires image.Readable() && a <= b
    requires forall p :: a <= p < b ==> Excluded(image, p)
    ensures Kept(image, b) == Kept(image, a)
  {
    if a == b {
    } else {
      SkippedOver(image, a, b - 1);
    }
  }

  ghost function Head(image: Image): seq<nat> {
    Span(0, image.pe + CHECKSUM) + Span(image.pe + CHECKSUM + 4, image.pe + SECURITY)
  }

  lemma KeptHead(image: Image)
    requires WellFormed(image)
    ensures Kept(image, image.pe + AFTER_SECURITY) == Head(image)
  {
    hide Tiled, Sorted, Sum, Image.Sections, Image.SizeOfHeaders, Image.TableAt, Image.Count, Span, Field;
    var p := image.pe;
    KeptOver(image, 0, p + CHECKSUM);
    SkippedOver(image, p + CHECKSUM, p + CHECKSUM + 4);
    KeptOver(image, p + CHECKSUM + 4, p + SECURITY);
    SkippedOver(image, p + SECURITY, p + AFTER_SECURITY);
  }

  lemma OnePosition(r: Range)
    ensures Positions([r]) == Span(r.start, r.start + r.length)
  {
    hide Span;
    assert [r][..0] == [];
    assert Positions([r][..0]) == [];
  }

  lemma ThreePositions(a: Range, b: Range, c: Range)
    ensures Positions([a, b, c])
         == Span(a.start, a.start + a.length) + Span(b.start, b.start + b.length) + Span(c.start, c.start + c.length)
  {
    hide Span, Positions;
    assert [a, b, c] == [a, b] + [c] && [a, b] == [a] + [b];
    PositionsJoin([a, b], [c]);
    PositionsJoin([a], [b]);
    OnePosition(a);
    OnePosition(b);
    OnePosition(c);
  }

  lemma FrontPositions(image: Image)
    requires WellFormed(image)
    ensures Positions(Front(image)) == Head(image) + Span(image.pe + AFTER_SECURITY, image.SizeOfHeaders())
  {
    hide Field, Tiled, Sorted, Sum, Image.Sections, Image.TableAt, Image.Count, Positions, Span;
    var f, p := Front(image), image.pe;
    HeadersFit(image);
    ThreePositions(f[0], f[1], f[2]);
    assert f == [f[0], f[1], f[2]];
  }

  lemma HeadersFit(image: Image)
    requires WellFormed(image)
    ensures var n := image.SizeOfHeaders() - (image.pe + AFTER_SECURITY);
            0 <= n && Wrap(n) == n
  {
    hide Field, Tiled, Sorted, Image.Sections, Image.CertSize, Image.CertAddress;
  }

  lemma ResultWhenTiled(image: Image)
    requires WellFormed(image)
    ensures Result(image)
            == Hashed(Front(image) + Ranges(Sorted(image.Sections())) + Rest(image, End(image)))
  {
    hide Tiled, Sorted, Sum, Image.Sections, Image.SizeOfHeaders, Front, Ranges, Rest;
    SortedIsOrdered(image.Sections());
    TiledIsLocated(Sorted(image.Sections()), image.SizeOfHeaders(), image.size);
  }

  lemma RestPositions(image: Image, end: nat)
    requires image.Readable() && end + image.CertSize() <= image.size
    ensures Positions(Rest(image, end)) == Span(end, image.size - image.CertSize())
  {
    hide Field;
    var rest := Rest(image, end);
    if image.size > end {
      assert rest[..0] == [];
      assert Positions(rest[..0]) == [];
    }
  }

  /** What is hashed of a well-formed file. */
  lemma HashedPositions(image: Image)
    requires WellFormed(image)
    ensures Result(image).Hashed?
    ensures var to := image.size - image.CertSize();
            && End(image) <= to
            && Positions(Result(image).ranges) == Head(image) + Span(image.pe + AFTER_SECURITY, to)
  {
    hide Tiled, Sorted, Sum, Image.Sections, Image.SizeOfHeaders, Front, Ranges, Rest, Positions, Span, Head, Result;
    hide Image.CertSize, Image.CertAddress, Image.TableAt, Image.Count, Field;
    var p, to := image.pe + AFTER_SECURITY, image.size - image.CertSize();
    hide Image.Readable;
    var sections, headers, end := image.Sections(), image.SizeOfHeaders(), End(image);
    ResultWhenTiled(image);
    SortedIsOrdered(sections);
    TiledPositions(Sorted(sections), headers);
    FrontPositions(image);
    RestPositions(image, end);
    JoinAll(image, Front(image), Ranges(Sorted(sections)), Rest(image, end), p, headers, end, to);
  }

  lemma JoinAll(image: Image, a: seq<Range>, b: seq<Range>, c: seq<Range>, p: nat, q: nat, r: nat, t: nat)
    requires p <= q <= r <= t
    requires Positions(a) == Head(image) + Span(p, q)
    requires Positions(b) == Span(q, r) && Positions(c) == Span(r, t)
    ensures Positions(a + b + c) == Head(image) + Span(p, t)
  {
    hide Span, Positions, Head;
    PositionsJoin(a + b, c);
    PositionsJoin(a, b);
    SpanJoin(p, q, r);
    SpanJoin(p, r, t);
    assert Head(image) + Span(p, q) + Span(q, r) + Span(r, t) == Head(image) + (Span(p, q) + Span(q, r) + Span(r, t));
  }

  lemma KeptTail(image: Image)
    requires WellFormed(image) && CertificateLast(image)
    ensures var to := image.size - image.CertSize();
            Kept(image, image.size) == Head(image) + Span(image.pe + AFTER_SECURITY, to)
  {
    hide Tiled, Sorted, Sum, Image.Sections, Span, Field, Head;
    var p, size := image.pe + AFTER_SECURITY, image.size;
    var to := size - image.CertSize();
    KeptHead(image);
    KeptOver(image, p, to);
    SkippedOver(image, to, size);
  }

  /**
   * The digest sees exactly the file without CheckSum, directory entry and
   * certificate table, in order, if and only if the table is the file's tail.
   */
  lemma HashesUnsignedPart(image: Image)
    requires WellFormed(image)
    ensures Result(image).Hashed?
    ensures Positions(Result(image).ranges) == Kept(image, image.size) <==> CertificateLast(image)
  {
    hide Tiled, Sorted, Sum, Image.Sections, Field, Head, Result, Positions;
    HashedPositions(image);
    var p, size := image.pe + AFTER_SECURITY, image.size;
    if CertificateLast(image) {
      KeptTail(image);
    } else {
      var hashed := Head(image) + Span(p, size - image.CertSize());
      var kept := Kept(image, size);
      assert kept[|kept| - 1] == size - 1;
      assert hashed[|hashed| - 1] == size - image.CertSize() - 1;
    }
  }

  // Signing.

  ghost function Bytes(data: seq<Byte>, positions: seq<nat>): (r: seq<Byte>)
    requires forall i :: 0 <= i < |positions| ==> positions[i] < |data|
    ensures |r| == |positions|
    ensures forall i :: 0 <= i < |r| ==> r[i] == data[positions[i]]
  {
    seq(|positions|, i requires 0 <= i < |positions| => data[positions[i]])
  }

  ghost predicate InFile(image: Image)
    requires image.Readable() && Result(image).Hashed?
  {
    var positions := Positions(Result(image).ranges);
    forall i :: 0 <= i < |positions| ==> positions[i] < image.size
  }

  /** All bytes fed to the digest, one after the other. */
  ghost function DigestInput(image: Image): seq<Byte>
    requires image.Readable() && Result(image).Hashed? && InFile(image)
  {
    Bytes(image.memory, Positions(Result(image).ranges))
  }

  lemma DigestInputIs(image: Image)
    requires WellFormed(image)
    ensures Result(image).Hashed? && InFile(image)
    ensures var d, p := image.memory, image.pe;
            DigestInput(image)
            == d[..p + CHECKSUM] + d[p + CHECKSUM + 4..p + SECURITY]
               + d[p + AFTER_SECURITY..image.size - image.CertSize()]
  {
    hide Tiled, Sorted, Sum, Image.Sections, Image.SizeOfHeaders, Positions, Span, Result, Field;
    hide Image.CertSize, Image.CertAddress, Image.TableAt, Image.Count;
    HashedPositions(image);
    hide WellFormed, Bytes;
    var d, p, to := image.memory, image.pe, image.size - image.CertSize();
    BytesOfSpans(d, p + CHECKSUM, p + CHECKSUM + 4, p + SECURITY, p + AFTER_SECURITY, to);
  }

  lemma BytesOfSpans(d: seq<Byte>, a: nat, b: nat, c: nat, e: nat, to: nat)
    requires a <= b <= c <= e <= to <= |d|
    ensures var positions := Span(0, a) + Span(b, c) + Span(e, to);
            && (forall i :: 0 <= i < |positions| ==> positions[i] < to)
            && Bytes(d, positions) == d[..a] + d[b..c] + d[e..to]
  {
    hide Span, Bytes;
    BytesJoin(d, Span(0, a) + Span(b, c), Span(e, to));
    BytesJoin(d, Span(0, a), Span(b, c));
    BytesOfSpan(d, 0, a);
    BytesOfSpan(d, b, c);
    BytesOfSpan(d, e, to);
    assert d[0..a] == d[..a];
  }

  lemma BytesJoin(d: seq<Byte>, p: seq<nat>, q: seq<nat>)
    requires forall i :: 0 <= i < |p| ==> p[i] < |d|
    requires forall i :: 0 <= i < |q| ==> q[i] < |d|
    ensures forall i :: 0 <= i < |p + q| ==> (p + q)[i] < |d|
    ensures Bytes(d, p + q) == Bytes(d, p) + Bytes(d, q)
  {
    hide Bytes;
  }

  lemma BytesOfSpan(d: seq<Byte>, a: nat, b: nat)
    requires a <= b <= |d|
    ensures forall i :: 0 <= i < |Span(a, b)| ==> Span(a, b)[i] < |d|
    ensures Bytes(d, Span(a, b)) == d[a..b]
  {
    hide Bytes, Span;
  }

  /** The file without its certificate table, with a new signature at its end. */
  ghost function Sign(image: Image, checksum: seq<Byte>, signature: seq<Byte>): Image
    requires WellFormed(image)
  {
    var d, p := image.memory, image.pe;
    var to := image.size - image.CertSize();
    var file := d[..p + CHECKSUM] + checksum + d[p + CHECKSUM + 4..p + SECURITY]
                + Digits(to, 4) + Digits(|signature|, 4) + d[p + AFTER_SECURITY..to] + signature;
    Image(file, |file|, p)
  }

  ghost predicate SameBut(image: Image, other: Image) {
    var d, e, p := image.memory, other.memory, image.pe;
    && other.pe == p
    && p + AFTER_SECURITY <= |d|
    && p + AFTER_SECURITY <= |e|
    && d[..p + CHECKSUM] == e[..p + CHECKSUM]
    && d[p + CHECKSUM + 4..p + SECURITY] == e[p + CHECKSUM + 4..p + SECURITY]
  }

  lemma SameFields(image: Image, other: Image)
    requires SameBut(image, other)
    ensures other.Count() == image.Count() && other.TableAt() == image.TableAt()
    ensures other.SizeOfHeaders() == image.SizeOfHeaders()
  {
    hide Field;
    var d, e, p := image.memory, other.memory, image.pe;
    assert d[0..p + CHECKSUM] == d[..p + CHECKSUM] && e[0..p + CHECKSUM] == e[..p + CHECKSUM];
    SameSlice(d, e, 0, p + CHECKSUM, p + 6, 2);
    SameSlice(d, e, 0, p + CHECKSUM, p + 20, 2);
    SameSlice(d, e, 0, p + CHECKSUM, p + 84, 4);
  }

  lemma SameSections(image: Image, other: Image, to: nat)
    requires image.Readable() && other.Readable() && SameBut(image, other)
    requires image.pe + AFTER_SECURITY <= image.TableAt()
    requires image.TableAt() + HEADER_SIZE * image.Count() <= to <= image.size && to <= |other.memory|
    requires image.memory[image.pe + AFTER_SECURITY..to] == other.memory[image.pe + AFTER_SECURITY..to]
    ensures other.Sections() == image.Sections()
  {
    SameFields(image, other);
    hide Image.Count, Image.TableAt, Field;
    forall i | 0 <= i < image.Count()
      ensures image.SectionAt(i) == other.SectionAt(i)
    {
      var p, at := image.pe + AFTER_SECURITY, image.TableAt() + HEADER_SIZE * i;
      SameSlice(image.memory, other.memory, p, to, at + 16, 4);
      SameSlice(image.memory, other.memory, p, to, at + 20, 4);
    }
    hide Image.SectionAt;
    assert image.Sections() == other.Sections();
  }

  lemma SameSlice(d: seq<Byte>, e: seq<Byte>, a: nat, b: nat, at: nat, width: nat)
    requires a <= at && at + width <= b <= |d| && b <= |e| && d[a..b] == e[a..b]
    ensures Field(d, at, width) == Field(e, at, width)
  {
    forall i | at <= i < at + width
      ensures d[i] == e[i]
    {
      assert d[i] == d[a..b][i - a] && e[i] == e[a..b][i - a];
    }
    assert d[at..at + width] == e[at..at + width];
  }

  lemma SignedParts(image: Image, checksum: seq<Byte>, signature: seq<Byte>)
    requires WellFormed(image) && CertificateLast(image)
    requires |checksum| == 4 && image.size - image.CertSize() + |signature| < 0x8000_0000
    ensures var signed := Sign(image, checksum, signature);
            var p, to := image.pe, image.size - image.CertSize();
            && SameBut(image, signed)
            && |signed.memory| == signed.size == to + |signature|
            && signed.CertAddress() == to && signed.CertSize() == |signature|
            && signed.memory[p + AFTER_SECURITY..to] == image.memory[p + AFTER_SECURITY..to]
  {
    hide Tiled, Sorted, Sum, Image.Sections, Image.SizeOfHeaders, Number, Digits, Power;
    var d, p, to := image.memory, image.pe, image.size - image.CertSize();
    Layout(d[..p + CHECKSUM], checksum, d[p + CHECKSUM + 4..p + SECURITY], Digits(to, 4), Digits(|signature|, 4),
           d[p + AFTER_SECURITY..to], signature);
    NumberOfDigits(to, 4);
    NumberOfDigits(|signature|, 4);
    WidthsOfInterest();
  }

  lemma Layout(a: seq<Byte>, sum: seq<Byte>, b: seq<Byte>, x: seq<Byte>, y: seq<Byte>, c: seq<Byte>, z: seq<Byte>)
    requires |sum| == |x| == |y| == 4
    ensures var e := a + sum + b + x + y + c + z;
            var n := |a| + 4 + |b|;
            && e[..|a|] == a && e[|a| + 4..n] == b && e[n..n + 4] == x && e[n + 4..n + 8] == y
            && e[n + 8..n + 8 + |c|] == c
  {
    var e, n := a + sum + b + x + y + c + z, |a| + 4 + |b|;
    forall i | 0 <= i < |a|
      ensures e[..|a|][i] == a[i]
    {
    }
    forall i | 0 <= i < |b|
      ensures e[|a| + 4..n][i] == b[i]
    {
    }
    forall i | 0 <= i < 4
      ensures e[n..n + 4][i] == x[i] && e[n + 4..n + 8][i] == y[i]
    {
    }
    forall i | 0 <= i < |c|
      ensures e[n + 8..n + 8 + |c|][i] == c[i]
    {
    }
  }

  lemma SignedIsWellFormed(image: Image, checksum: seq<Byte>, signature: seq<Byte>)
    requires WellFormed(image) && CertificateLast(image)
    requires |checksum| == 4 && image.size - image.CertSize() + |signature| < 0x8000_0000
    ensures WellFormed(Sign(image, checksum, signature)) && CertificateLast(Sign(image, checksum, signature))
  {
    hide Tiled, Sorted, Sum, Sign, Image.SizeOfHeaders, Image.Sections, Image.TableAt, Image.Count, Result;
    hide Image.CertSize, Image.CertAddress;
    var to := image.size - image.CertSize();
    var signed := Sign(image, checksum, signature);
    SignedParts(image, checksum, signature);
    SameFields(image, signed);
    HashedPositions(image);
    SameSections(image, signed, to);
  }

  /** Signing or signing again keeps the file well-formed and its digest input. */
  lemma SigningKeepsDigestInput(image: Image, checksum: seq<Byte>, signature: seq<Byte>)
    requires WellFormed(image) && CertificateLast(image)
    requires |checksum| == 4 && image.size - image.CertSize() + |signature| < 0x8000_0000
    ensures var signed := Sign(image, checksum, signature);
            && WellFormed(signed) && CertificateLast(signed)
            && signed.CertSize() == |signature|
            && Result(signed).Hashed? && InFile(signed)
            && Result(image).Hashed? && InFile(image)
            && DigestInput(signed) == DigestInput(image)
  {
    hide WellFormed, CertificateLast, Sign, DigestInput, Result, InFile;
    hide Image.CertSize, Image.CertAddress, Image.Readable;
    SignedIsWellFormed(image, checksum, signature);
    SignedParts(image, checksum, signature);
    DigestInputIs(image);
    DigestInputIs(Sign(image, checksum, signature));
  }

  // A file whose certificate table is not its tail.

  /** The size of the largest PE header, with sixteen directory entries. */
  const HEADERS := 264

  const U64 := 0x1_0000_0000_0000_0000

  /** The section headers that fit between two offsets, if the difference is an unsigned 64-bit
      number. */
  function HeadersBetween(table: nat, end: nat): nat {
    (end - table) % U64 / HEADER_SIZE
  }

  /** The tests of read_header. */
  ghost predicate Accepted(image: Image) {
    var d, p := image.memory, image.pe;
    && 64 <= image.size <= |d| && p + HEADERS <= image.size
    && p == (if Field(d, 0, 2) == 0x5A4D then Field(d, 60, 4) else 0)
    && var entries, optional := Field(d, p + 132, 4), Field(d, p + 20, 2);
    && var sizeOfImage, table := Field(d, p + 80, 4), Field(d, 60, 4) + 24 + optional;
    && entries <= 16 && optional == 112 + 8 * entries
    && image.Count() < HeadersBetween(table, sizeOfImage)
    && image.Count() <= HeadersBetween(table, image.SizeOfHeaders())
    && Field(d, p, 4) == 0x4550
    && Field(d, p + 22, 2) % 2 == 0
    && Field(d, p + 24, 2) == 0x20B
    && image.SizeOfHeaders() <= sizeOfImage
    && image.CertAddress() < image.size
  }

  /** The bytes of a DOS header and a PE32+ header without sections, with a certificate table of
      eight bytes after them. */
  function HeaderByte(i: nat): Byte {
    match i
    case 0 => 0x4D
    case 1 => 0x5A
    case 60 => 64
    case 64 => 0x50
    case 65 => 0x45
    case 84 => 240
    case 86 => 2
    case 88 => 0x0B
    case 89 => 0x02
    case 144 => 0x90
    case 145 => 1
    case 148 => 0x48
    case 149 => 1
    case 196 => 16
    case 232 => 0x48
    case 233 => 1
    case 236 => 8
    case _ => 0
  }

  /** The file has one byte more. */
  ghost function TrailingFile(): seq<Byte> {
    seq(337, i requires 0 <= i => HeaderByte(i))
  }

  ghost function Trailing(): Image {
    Image(TrailingFile(), 337, 64)
  }

  lemma TrailingFields(d: seq<Byte>)
    requires d == TrailingFile()
    ensures |d| == 337 && Field(d, 70, 2) == 0 && Field(d, 84, 2) == 240
            && Field(d, 148, 4) == 328 && Field(d, 232, 4) == 328 && Field(d, 236, 4) == 8
  {
    hide Field;
    SmallField(d, 70, 2);
    SmallField(d, 84, 2);
    SmallField(d, 148, 4);
    SmallField(d, 232, 4);
    SmallField(d, 236, 4);
  }

  lemma TrailingMarks(d: seq<Byte>)
    requires d == TrailingFile()
    ensures |d| == 337 && Field(d, 0, 2) == 0x5A4D && Field(d, 60, 4) == 64 && Field(d, 64, 4) == 0x4550
            && Field(d, 86, 2) == 2 && Field(d, 88, 2) == 0x20B
            && Field(d, 144, 4) == 400 && Field(d, 196, 4) == 16
  {
    hide Field;
    SmallField(d, 0, 2);
    SmallField(d, 60, 4);
    SmallField(d, 64, 4);
    SmallField(d, 86, 2);
    SmallField(d, 88, 2);
    SmallField(d, 144, 4);
    SmallField(d, 196, 4);
  }

  lemma RoomForOne()
    ensures HeadersBetween(328, 400) == 1
  {
  }

  lemma TrailingIsAccepted(image: Image)
    requires image == Trailing()
    ensures Accepted(image)
  {
    hide TrailingFile, Field, HeadersBetween;
    TrailingFields(image.memory);
    TrailingMarks(image.memory);
    RoomForOne();
  }

  lemma TrailingIsWellFormed(image: Image)
    requires image == Trailing()
    ensures WellFormed(image) && !CertificateLast(image)
  {
    hide TrailingFile, Field;
    TrailingFields(image.memory);
    assert image.Sections() == [];
  }

  /** The file is accepted and well-formed.  Its last byte belongs in the digest, and the first byte
      of the certificate table is fed instead. */
  lemma TrailingIsHashedWrong()
    ensures Accepted(Trailing()) && WellFormed(Trailing()) && !CertificateLast(Trailing())
    ensures Result(Trailing()).Hashed? && Positions(Result(Trailing()).ranges) != Kept(Trailing(), 337)
  {
    var image := Trailing();
    hide TrailingFile, Accepted, WellFormed, CertificateLast, Result, Kept, Positions;
    TrailingIsAccepted(image);
    TrailingIsWellFormed(image);
    HashesUnsignedPart(image);
  }
}
