/** The base-64 codec of crypt_blowfish.c: no padding, and an alphabet of its own. */
module Radix64 {
  import opened Wrappers

  type Byte = bv8

  /** The table BF_itoa64: "./", the letters, upper case first, and the digits. */
  function Itoa(x: Byte): Byte
    requires x < 64
  {
    if x == 0 then 0x2E
    else if x == 1 then 0x2F
    else if x < 28 then x - 2 + 0x41
    else if x < 54 then x - 28 + 0x61
    else x - 54 + 0x30
  }

  /** The macro BF_safe_atoi64 with its table BF_atoi64. */
  function Atoi(c: Byte): (r: Option<Byte>)
    ensures r.Some? ==> r.value < 64
  {
    if c == 0x2E then Some(0)
    else if c == 0x2F then Some(1)
    else if 0x41 <= c <= 0x5A then Some(c - 0x41 + 2)
    else if 0x61 <= c <= 0x7A then Some(c - 0x61 + 28)
    else if 0x30 <= c <= 0x39 then Some(c - 0x30 + 54)
    else None
  }

  lemma AtoiItoa(x: Byte)
    requires x < 64
    ensures Atoi(Itoa(x)) == Some(x)
    ensures Itoa(x) != 0
  {
  }

  lemma ItoaAtoi(c: Byte)
    requires Atoi(c).Some?
    ensures Itoa(Atoi(c).value) == c
  {
  }

  /** A C string read at an index: the terminating NUL stands at and after its end. */
  function At(s: seq<Byte>, i: nat): Byte {
    if i < |s| then s[i] else 0
  }

  /** The number of characters that encode n bytes. */
  function Chars(n: nat): nat {
    (4 * n + 2) / 3
  }

  /** The four sextets of three bytes, and the three bytes of four sextets. */
  function Sextet1(a: Byte): Byte { a >> 2 }
  function Sextet2(a: Byte, b: Byte): Byte { ((a & 0x03) << 4) | (b >> 4) }
  function Sextet3(b: Byte, c: Byte): Byte { ((b & 0x0F) << 2) | (c >> 6) }
  function Sextet4(c: Byte): Byte { c & 0x3F }

  function Byte1(w: Byte, x: Byte): Byte { (w << 2) | ((x & 0x30) >> 4) }
  function Byte2(x: Byte, y: Byte): Byte { ((x & 0x0F) << 4) | ((y & 0x3C) >> 2) }
  function Byte3(y: Byte, z: Byte): Byte { ((y & 0x03) << 6) | z }

  lemma SextetRange(a: Byte, b: Byte)
    ensures Sextet1(a) < 64 && Sextet2(a, b) < 64 && Sextet3(a, b) < 64 && Sextet4(a) < 64
  {
  }

  function Digit1(a: Byte): Byte { Itoa(Sextet1(a)) }
  function Digit2(a: Byte, b: Byte): Byte { SextetRange(a, b); Itoa(Sextet2(a, b)) }
  function Digit3(b: Byte, c: Byte): Byte { SextetRange(b, c); Itoa(Sextet3(b, c)) }
  function Digit4(c: Byte): Byte { Itoa(Sextet4(c)) }

  /** The digits of a group of one to three bytes.  A short group is filled up with zero bits to
      the next digit. */
  function Group(b: seq<Byte>): (s: seq<Byte>)
    requires 1 <= |b| <= 3
    ensures |s| == |b| + 1
  {
    if |b| == 1 then [Digit1(b[0]), Digit2(b[0], 0)]
    else if |b| == 2 then [Digit1(b[0]), Digit2(b[0], b[1]), Digit3(b[1], 0)]
    else [Digit1(b[0]), Digit2(b[0], b[1]), Digit3(b[1], b[2]), Digit4(b[2])]
  }

  function Encoded(b: seq<Byte>): (s: seq<Byte>)
    ensures |s| == Chars(|b|)
  {
    if |b| == 0 then []
    else
      var g := GroupSize(|b|);
      Group(b[..g]) + Encoded(b[g..])
  }

  function GroupSize(n: nat): nat {
    if n < 3 then n else 3
  }

  /** The one to three bytes that the digits of s encode, from index i on. */
  function Ungroup(s: seq<Byte>, i: nat, n: nat): (r: Option<seq<Byte>>)
    requires 1 <= n <= 3
    ensures r.Some? ==> |r.value| == n
  {
    var w, x, y, z := Atoi(At(s, i)), Atoi(At(s, i + 1)), Atoi(At(s, i + 2)), Atoi(At(s, i + 3));
    if w == None || x == None || (n > 1 && y == None) || (n > 2 && z == None) then None
    else if n == 1 then Some([Byte1(w.value, x.value)])
    else if n == 2 then Some([Byte1(w.value, x.value), Byte2(x.value, y.value)])
    else Some([Byte1(w.value, x.value), Byte2(x.value, y.value), Byte3(y.value, z.value)])
  }

  /** The n bytes that the digits of s encode, from index i on. */
  function Decoded(s: seq<Byte>, i: nat, n: nat): (r: Option<seq<Byte>>)
    ensures r.Some? ==> |r.value| == n
    decreases n
  {
    if n == 0 then Some([])
    else
      var g := GroupSize(n);
      match (Ungroup(s, i, g), Decoded(s, i + g + 1, n - g))
      case (Some(b), Some(rest)) => Some(b + rest)
      case _ => None
  }

  /** The bits that the C code has gathered when it writes a digit. */
  lemma Gathered(a: Byte, b: Byte)
    ensures a >> 2 == Sextet1(a) < 64 && a & 0x3F == Sextet4(a) < 64
    ensures (a & 0x03) << 4 == Sextet2(a, 0) < 64 && ((a & 0x03) << 4) | (b >> 4) == Sextet2(a, b) < 64
    ensures (a & 0x0F) << 2 == Sextet3(a, 0) < 64 && ((a & 0x0F) << 2) | (b >> 6) == Sextet3(a, b) < 64
  {
  }

  lemma GroupIs(dst: seq<Byte>, a: Byte, b: Byte, c: Byte)
    ensures dst + [Digit1(a)] + [Digit2(a, 0)] == dst + Group([a])
    ensures dst + [Digit1(a)] + [Digit2(a, b)] + [Digit3(b, 0)] == dst + Group([a, b])
    ensures dst + [Digit1(a)] + [Digit2(a, b)] + [Digit3(b, c)] + [Digit4(c)] == dst + Group([a, b, c])
  {
    hide Digit1, Digit2, Digit3, Digit4;
  }

  lemma SliceIs(s: seq<Byte>, i: nat)
    requires i < |s|
    ensures s[i..i + 1] == [s[i]]
    ensures i + 1 < |s| ==> s[i..i + 2] == [s[i], s[i + 1]]
    ensures i + 2 < |s| ==> s[i..i + 3] == [s[i], s[i + 1], s[i + 2]]
  {
  }

  /** One round of the loop of BF_encode; what it writes through its pointer is appended to dst. */
  method EncodeGroup(dst: seq<Byte>, src: seq<Byte>, sptr: nat)
    returns (dst': seq<Byte>, sptr': nat)
    requires sptr < |src|
    ensures sptr' == sptr + GroupSize(|src| - sptr)
    ensures dst' == dst + Group(src[sptr..sptr'])
  {
    hide Itoa, Sextet1, Sextet2, Sextet3, Sextet4, Group;
    SliceIs(src, sptr);
    dst', sptr' := dst, sptr;
    var c1 := src[sptr'];
    ghost var a := c1;
    Gathered(a, 0);
    sptr' := sptr' + 1;
    dst' := dst' + [Itoa(c1 >> 2)];
    c1 := (c1 & 0x03) << 4;
    if sptr' >= |src| {
      dst' := dst' + [Itoa(c1)];
      GroupIs(dst, a, 0, 0);
      return;
    }

    var c2 := src[sptr'];
    ghost var b := c2;
    Gathered(a, b);
    Gathered(b, 0);
    sptr' := sptr' + 1;
    c1 := c1 | (c2 >> 4);
    dst' := dst' + [Itoa(c1)];
    c1 := (c2 & 0x0F) << 2;
    if sptr' >= |src| {
      dst' := dst' + [Itoa(c1)];
      GroupIs(dst, a, b, 0);
      return;
    }

    c2 := src[sptr'];
    Gathered(b, c2);
    Gathered(c2, 0);
    sptr' := sptr' + 1;
    c1 := c1 | (c2 >> 6);
    dst' := dst' + [Itoa(c1)];
    dst' := dst' + [Itoa(c2 & 0x3F)];
    GroupIs(dst, a, b, c2);
  }

  lemma EncodedNext(src: seq<Byte>, i: nat)
    requires i < |src|
    ensures var n := i + GroupSize(|src| - i);
            i < n <= |src| && n - i <= 3 && Encoded(src[i..]) == Group(src[i..n]) + Encoded(src[n..])
  {
    hide Group;
    var g := GroupSize(|src| - i);
    assert src[i..][..g] == src[i..i + g] && src[i..][g..] == src[i + g..];
  }

  lemma EncodedNothing()
    ensures Encoded([]) == []
  {
  }

  lemma Regroup(a: seq<Byte>, b: seq<Byte>, c: seq<Byte>)
    ensures a + (b + c) == a + b + c
  {
  }

  /** BF_encode. */
  method Encode(src: seq<Byte>) returns (dst: seq<Byte>)
    requires 0 < |src|
    ensures dst == Encoded(src)
  {
    hide Group, Encoded, GroupSize;
    dst := [];
    var sptr := 0;
    assert src[0..] == src;
    while sptr < |src|
      invariant sptr <= |src|
      invariant dst + Encoded(src[sptr..]) == Encoded(src)
    {
      EncodedNext(src, sptr);
      ghost var next := sptr + GroupSize(|src| - sptr);
      Regroup(dst, Group(src[sptr..next]), Encoded(src[next..]));
      dst, sptr := EncodeGroup(dst, src, sptr);
    }
    EncodedNothing();
    assert src[sptr..] == [];
  }

  /** What a group is, digit by digit. */
  lemma UngroupIs(s: seq<Byte>, i: nat)
    ensures
      var w, x, y, z := Atoi(At(s, i)), Atoi(At(s, i + 1)), Atoi(At(s, i + 2)), Atoi(At(s, i + 3));
      && (w.None? || x.None? ==> Ungroup(s, i, 1) == Ungroup(s, i, 2) == Ungroup(s, i, 3) == None)
      && (y.None? ==> Ungroup(s, i, 2) == Ungroup(s, i, 3) == None)
      && (z.None? ==> Ungroup(s, i, 3) == None)
      && (w.Some? && x.Some? ==> Ungroup(s, i, 1) == Some([Byte1(w.value, x.value)]))
      && (w.Some? && x.Some? && y.Some? ==>
          Ungroup(s, i, 2) == Some([Byte1(w.value, x.value), Byte2(x.value, y.value)]))
      && (w.Some? && x.Some? && y.Some? && z.Some? ==>
          Ungroup(s, i, 3) == Some([Byte1(w.value, x.value), Byte2(x.value, y.value), Byte3(y.value, z.value)]))
  {
    hide Atoi, At, Byte1, Byte2, Byte3;
  }

  /** One round of the loop of BF_decode. */
  method DecodeGroup(dst: array<Byte>, dptr: nat, src: seq<Byte>, sptr: nat)
    returns (ok: bool, dptr': nat, sptr': nat)
    requires dptr < dst.Length
    modifies dst
    ensures
      var g := GroupSize(dst.Length - dptr);
      ok == Ungroup(src, sptr, g).Some?
      && (ok ==> dptr' == dptr + g && sptr' == sptr + g + 1
                 && dst[dptr..dptr'] == Ungroup(src, sptr, g).value)
    ensures dst[..dptr] == old(dst[..dptr])
  {
    hide Atoi, At, Ungroup, Byte1, Byte2, Byte3;
    UngroupIs(src, sptr);
    ok, dptr', sptr' := false, dptr, sptr;
    var c1 := Atoi(At(src, sptr'));
    if c1 == None { return; }
    sptr' := sptr' + 1;
    var c2 := Atoi(At(src, sptr'));
    if c2 == None { return; }
    sptr' := sptr' + 1;
    dst[dptr'] := Byte1(c1.value, c2.value);
    dptr' := dptr' + 1;
    if dptr' >= dst.Length {
      SliceIs(dst[..], dptr);
      return true, dptr', sptr';
    }

    var c3 := Atoi(At(src, sptr'));
    if c3 == None { return; }
    sptr' := sptr' + 1;
    dst[dptr'] := Byte2(c2.value, c3.value);
    dptr' := dptr' + 1;
    if dptr' >= dst.Length {
      SliceIs(dst[..], dptr);
      return true, dptr', sptr';
    }

    var c4 := Atoi(At(src, sptr'));
    if c4 == None { return; }
    sptr' := sptr' + 1;
    dst[dptr'] := Byte3(c3.value, c4.value);
    dptr' := dptr' + 1;
    SliceIs(dst[..], dptr);
    ok := true;
  }

  ghost function Joined(b: Option<seq<Byte>>, rest: Option<seq<Byte>>): Option<seq<Byte>> {
    if b.None? || rest.None? then None else Some(b.value + rest.value)
  }

  lemma DecodedNext(s: seq<Byte>, i: nat, n: nat)
    requires 0 < n
    ensures var g := GroupSize(n);
            1 <= g <= 3 && g <= n && Decoded(s, i, n) == Joined(Ungroup(s, i, g), Decoded(s, i + g + 1, n - g))
  {
    hide Ungroup;
  }

  lemma DecodedNothing(s: seq<Byte>, i: nat)
    ensures Decoded(s, i, 0) == Some([])
  {
  }

  lemma JoinedTwice(done: seq<Byte>, b: Option<seq<Byte>>, rest: Option<seq<Byte>>)
    ensures b.None? ==> Joined(Some(done), Joined(b, rest)) == None
    ensures b.Some? ==> Joined(Some(done), Joined(b, rest)) == Joined(Some(done + b.value), rest)
  {
    assert b.Some? && rest.Some? ==> done + (b.value + rest.value) == done + b.value + rest.value;
  }

  /** BF_decode: fill dst from the digits of src from index start on, unless a character is none
      of the alphabet. */
  method Decode(dst: array<Byte>, src: seq<Byte>, start: nat) returns (ok: bool)
    requires 0 < dst.Length
    modifies dst
    ensures ok == Decoded(src, start, dst.Length).Some?
    ensures ok ==> dst[..] == Decoded(src, start, dst.Length).value
  {
    hide Ungroup, Decoded, Joined, GroupSize;
    ghost var all := Decoded(src, start, dst.Length);
    var dptr, sptr := 0, start;
    JoinedNothing(all);
    while dptr < dst.Length
      invariant dptr <= dst.Length
      invariant all == Joined(Some(dst[..dptr]), Decoded(src, sptr, dst.Length - dptr))
    {
      DecodedNext(src, sptr, dst.Length - dptr);
      ghost var done, d, s, g := dst[..dptr], dptr, sptr, GroupSize(dst.Length - dptr);
      JoinedTwice(done, Ungroup(src, s, g), Decoded(src, s + g + 1, dst.Length - dptr - g));
      ok, dptr, sptr := DecodeGroup(dst, dptr, src, sptr);
      if !ok { return; }
      assert dst[..dptr] == done + dst[d..dptr];
    }
    DecodedNothing(src, sptr);
    JoinedLast(dst[..]);
    assert dst[..dptr] == dst[..];
    ok := true;
  }

  lemma JoinedNothing(rest: Option<seq<Byte>>)
    ensures Joined(Some([]), rest) == rest
  {
    assert rest.Some? ==> [] + rest.value == rest.value;
  }

  lemma JoinedLast(done: seq<Byte>)
    ensures Joined(Some(done), Some([])) == Some(done)
  {
    assert done + [] == done;
  }

  lemma UngroupGroup(s: seq<Byte>, i: nat, b: seq<Byte>)
    requires 1 <= |b| <= 3 && i + |b| + 1 <= |s| && s[i..i + |b| + 1] == Group(b)
    ensures Ungroup(s, i, |b|) == Some(b)
  {
    hide Itoa, Atoi, Sextet1, Sextet2, Sextet3, Sextet4, Byte1, Byte2, Byte3;
    var d := Group(b);
    assert At(s, i) == s[i..i + |b| + 1][0] == d[0];
    assert At(s, i + 1) == s[i..i + |b| + 1][1] == d[1];
    assert |b| > 1 ==> At(s, i + 2) == s[i..i + |b| + 1][2] == d[2];
    assert |b| > 2 ==> At(s, i + 3) == s[i..i + |b| + 1][3] == d[3];
    var c1, c2, c3 := b[0], if |b| > 1 then b[1] else 0, if |b| > 2 then b[2] else 0;
    SextetRange(c1, c2);
    SextetRange(c2, c3);
    SextetRange(c3, c3);
    AtoiItoa(Sextet1(c1));
    AtoiItoa(Sextet2(c1, c2));
    AtoiItoa(Sextet3(c2, c3));
    AtoiItoa(Sextet4(c3));
    SextetsHoldBytes(c1, c2, c3);
    assert Ungroup(s, i, |b|).value == b;
  }

  lemma SextetsHoldBytes(a: Byte, b: Byte, c: Byte)
    ensures Byte1(Sextet1(a), Sextet2(a, b)) == a
    ensures Byte2(Sextet2(a, b), Sextet3(b, c)) == b
    ensures Byte3(Sextet3(b, c), Sextet4(c)) == c
  {
  }

  /** BF_decode undoes BF_encode, wherever in a string the digits stand. */
  lemma {:induction false} DecodeUndoesEncode(p: seq<Byte>, b: seq<Byte>, t: seq<Byte>)
    ensures Decoded(p + Encoded(b) + t, |p|, |b|) == Some(b)
    decreases |b|
  {
    hide Group, Ungroup, Encoded, Decoded, GroupSize;
    var s := p + Encoded(b) + t;
    if |b| == 0 {
      DecodedNothing(s, |p|);
    } else {
      EncodedNext(b, 0);
      DecodedNext(s, |p|, |b|);
      var g := GroupSize(|b|);
      var head, tail := b[..g], b[g..];
      assert b[0..] == b && b[0..g] == head && head + tail == b;
      var p' := p + Group(head);
      assert s == p' + Encoded(tail) + t;
      assert s[|p|..|p'|] == Group(head);
      DecodeUndoesEncode(p', tail, t);
      UngroupGroup(s, |p|, head);
    }
  }

  /** BF_decode reads exactly the characters that encode n bytes. */
  lemma {:induction false} DecodeReadsItsDigits(s: seq<Byte>, t: seq<Byte>, i: nat, n: nat)
    requires forall k :: i <= k < i + Chars(n) ==> At(s, k) == At(t, k)
    ensures Decoded(s, i, n) == Decoded(t, i, n)
    decreases n
  {
    hide Atoi;
    if n == 0 {
    } else {
      var g := GroupSize(n);
      DecodeReadsItsDigits(s, t, i + g + 1, n - g);
    }
  }

  /** The bits of the last of the digits of n bytes that carry data. */
  function LastMask(n: nat): Byte {
    if n % 3 == 1 then 0x30 else if n % 3 == 2 then 0x3C else 0x3F
  }

  function Cleared(c: Byte, mask: Byte): Byte
    requires Atoi(c).Some?
  {
    ClearedRange(Atoi(c).value, mask);
    Itoa(Atoi(c).value & mask)
  }

  lemma ClearedRange(x: Byte, mask: Byte)
    requires x < 64
    ensures x & mask < 64
  {
  }

  lemma BytesHoldSextets(w: Byte, x: Byte, y: Byte, z: Byte)
    requires w < 64 && x < 64 && y < 64 && z < 64
    ensures Sextet1(Byte1(w, x)) == w && Sextet2(Byte1(w, x), 0) == x & 0x30
    ensures Sextet2(Byte1(w, x), Byte2(x, y)) == x && Sextet3(Byte2(x, y), 0) == y & 0x3C
    ensures Sextet3(Byte2(x, y), Byte3(y, z)) == y && Sextet4(Byte3(y, z)) == z
    ensures z & 0x3F == z
  {
  }

  /** The value of the digit at an index of s, or 0. */
  function Digit(s: seq<Byte>, i: nat): (x: Byte)
    ensures x < 64
  {
    match Atoi(At(s, i))
    case Some(x) => x
    case None => 0
  }

  lemma DigitBack(s: seq<Byte>, i: nat)
    ensures Atoi(At(s, i)).Some? ==> Atoi(At(s, i)).value == Digit(s, i) && Itoa(Digit(s, i)) == At(s, i)
  {
    if Atoi(At(s, i)).Some? { ItoaAtoi(At(s, i)); }
  }

  lemma GroupUngroup(s: seq<Byte>, i: nat, n: nat)
    requires 1 <= n <= 3 && Ungroup(s, i, n).Some?
    ensures Atoi(At(s, i + n)).Some?
    ensures
      var d := Group(Ungroup(s, i, n).value);
      d[0] == At(s, i) && (n > 1 ==> d[1] == At(s, i + 1)) && (n > 2 ==> d[2] == At(s, i + 2))
      && d[n] == Cleared(At(s, i + n), LastMask(n))
  {
    hide Itoa, Atoi, Sextet1, Sextet2, Sextet3, Sextet4, Byte1, Byte2, Byte3;
    var w, x, y, z := Digit(s, i), Digit(s, i + 1), Digit(s, i + 2), Digit(s, i + 3);
    BytesHoldSextets(w, x, y, z);
    DigitBack(s, i);
    DigitBack(s, i + 1);
    DigitBack(s, i + 2);
    DigitBack(s, i + 3);
  }

  /** d holds the digits of n bytes that s holds from index i on, but for the unused bits of the
      last one, which are cleared. */
  predicate Canonical(d: seq<Byte>, s: seq<Byte>, i: nat, n: nat)
    requires 0 < n
  {
    var last := Chars(n) - 1;
    && |d| == last + 1
    && (forall k :: 0 <= k < last ==> d[k] == At(s, i + k))
    && Atoi(At(s, i + last)).Some?
    && d[last] == Cleared(At(s, i + last), LastMask(n))
  }

  /** Encoding what was decoded returns the digits, with the unused bits of the last one cleared. */
  lemma {:induction false} EncodeCanonicalises(s: seq<Byte>, i: nat, n: nat)
    requires 0 < n && Decoded(s, i, n).Some?
    ensures Canonical(Encoded(Decoded(s, i, n).value), s, i, n)
    decreases n
  {
    hide Itoa, Atoi, Group, Ungroup, Canonical;
    var g := GroupSize(n);
    var head := Ungroup(s, i, g).value;
    var b := Decoded(s, i, n).value;
    CanonicalGroup(s, i, g);
    if n <= 3 {
      assert b == head && b[..g] == b;
      assert Encoded(b) == Group(head);
    } else {
      var tail := Decoded(s, i + 4, n - 3).value;
      assert b == head + tail && b[..g] == head && b[g..] == tail;
      EncodeCanonicalises(s, i + 4, n - 3);
      CanonicalAppend(s, i, n, Group(head), Encoded(tail));
      assert Encoded(b) == Group(head) + Encoded(tail);
    }
  }

  lemma CanonicalGroup(s: seq<Byte>, i: nat, n: nat)
    requires 1 <= n <= 3 && Ungroup(s, i, n).Some?
    ensures Canonical(Group(Ungroup(s, i, n).value), s, i, n)
  {
    hide Itoa, Atoi, Group, Ungroup, Cleared, LastMask;
    GroupUngroup(s, i, n);
  }

  lemma CanonicalAppend(s: seq<Byte>, i: nat, n: nat, d: seq<Byte>, rest: seq<Byte>)
    requires n > 3 && Canonical(d, s, i, 3) && Canonical(rest, s, i + 4, n - 3)
    ensures Canonical(d + rest, s, i, n)
  {
    hide Itoa, Atoi, Cleared, LastMask, At;
    MaskRepeats(n);
    FullDigit(At(s, i + 3));
    CanonicalTail(s, i, n, d, rest);
  }

  lemma MaskRepeats(n: nat)
    ensures n > 3 ==> LastMask(n) == LastMask(n - 3) && Chars(n) == Chars(n - 3) + 4
    ensures LastMask(3) == 0x3F
  {
  }

  lemma CanonicalTail(s: seq<Byte>, i: nat, n: nat, d: seq<Byte>, rest: seq<Byte>)
    requires n > 3 && |d| == 4 && |rest| == Chars(n - 3)
    requires d[0] == At(s, i) && d[1] == At(s, i + 1) && d[2] == At(s, i + 2) && d[3] == At(s, i + 3)
    requires forall k :: 0 <= k < Chars(n - 3) - 1 ==> rest[k] == At(s, i + 4 + k)
    ensures forall k :: 0 <= k < Chars(n) - 1 ==> (d + rest)[k] == At(s, i + k)
  {
    forall k | 0 <= k < Chars(n) - 1
      ensures (d + rest)[k] == At(s, i + k)
    {
      if k >= 4 {
        assert rest[k - 4] == At(s, i + 4 + (k - 4));
      }
    }
  }

  lemma FullDigit(c: Byte)
    requires Atoi(c).Some?
    ensures Cleared(c, 0x3F) == c
  {
    ItoaAtoi(c);
    FullMask(Atoi(c).value);
  }

  lemma FullMask(x: Byte)
    requires x < 64
    ensures x & 0x3F == x
  {
  }
}
