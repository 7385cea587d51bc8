/** The key expansion of crypt_blowfish.c, with its sign extension bug and its collision guard. */
module KeyExpansion {
  import opened Arithmetic
  import opened Feistel
  import opened Radix64

  /** The bytes of a C string and its NUL, over and over. */
  function KeyByte(key: seq<Byte>, t: nat): Byte {
    At(key, t % (|key| + 1))
  }

  /** One byte shifted into a word: as it should be, and with the byte taken as signed. */
  function Shift(w: Word, c: Byte): Word {
    Append(w, c as Word)
  }

  function Append(w: Word, x: Word): Word {
    (w << 8) | x
  }

  function SignExtend(c: Byte): Word {
    if c >= 0x80 then (c as Word) | 0xFFFF_FF00 else c as Word
  }

  function ShiftSigned(w: Word, c: Byte): Word {
    Append(w, SignExtend(c))
  }

  /** Four bytes as one big-endian word. */
  function BigEndian(a: Byte, b: Byte, c: Byte, d: Byte): Word {
    ((a as Word) << 24) | ((b as Word) << 16) | ((c as Word) << 8) | (d as Word)
  }

  function Signed(a: Byte, b: Byte, c: Byte, d: Byte): Word {
    Append(Append(Append(SignExtend(a), SignExtend(b)), SignExtend(c)), SignExtend(d))
  }

  lemma SignedShifts(a: Byte, b: Byte, c: Byte, d: Byte)
    ensures ShiftSigned(ShiftSigned(ShiftSigned(ShiftSigned(0, a), b), c), d) == Signed(a, b, c, d)
  {
    AppendToNothing(SignExtend(a));
    hide SignExtend, Append;
  }

  lemma AppendToNothing(x: Word)
    ensures Append(0, x) == x
  {
  }

  lemma ShiftsAreBigEndian(a: Byte, b: Byte, c: Byte, d: Byte)
    ensures Shift(Shift(Shift(Shift(0, a), b), c), d) == BigEndian(a, b, c, d)
  {
  }

  /** The words being built for word i, after j bytes. */
  function Partial(key: seq<Byte>, i: nat, j: nat): Word {
    if j == 0 then 0 else Shift(Partial(key, i, j - 1), KeyByte(key, 4 * i + j - 1))
  }

  function PartialSigned(key: seq<Byte>, i: nat, j: nat): Word {
    if j == 0 then 0 else ShiftSigned(PartialSigned(key, i, j - 1), KeyByte(key, 4 * i + j - 1))
  }

  lemma FourBytesMakeAWord(key: seq<Byte>, i: nat)
    ensures Partial(key, i, 4) == CorrectWord(key, i)
    ensures PartialSigned(key, i, 4) == BuggyWord(key, i)
  {
    hide Shift, ShiftSigned, BigEndian, Signed;
    var a, b, c, d := KeyByte(key, 4 * i), KeyByte(key, 4 * i + 1),
                      KeyByte(key, 4 * i + 2), KeyByte(key, 4 * i + 3);
    assert Partial(key, i, 0) == 0 && PartialSigned(key, i, 0) == 0;
    assert Partial(key, i, 1) == Shift(0, a) && PartialSigned(key, i, 1) == ShiftSigned(0, a);
    assert Partial(key, i, 2) == Shift(Shift(0, a), b);
    assert Partial(key, i, 4) == Shift(Shift(Partial(key, i, 2), c), d);
    assert PartialSigned(key, i, 2) == ShiftSigned(ShiftSigned(0, a), b);
    assert PartialSigned(key, i, 4) == ShiftSigned(ShiftSigned(PartialSigned(key, i, 2), c), d);
    ShiftsAreBigEndian(a, b, c, d);
    SignedShifts(a, b, c, d);
  }

  function CorrectWord(key: seq<Byte>, i: nat): Word {
    BigEndian(KeyByte(key, 4 * i), KeyByte(key, 4 * i + 1),
              KeyByte(key, 4 * i + 2), KeyByte(key, 4 * i + 3))
  }

  function BuggyWord(key: seq<Byte>, i: nat): Word {
    Signed(KeyByte(key, 4 * i), KeyByte(key, 4 * i + 1),
           KeyByte(key, 4 * i + 2), KeyByte(key, 4 * i + 3))
  }

  function KeyWord(key: seq<Byte>, i: nat, bug: bool): Word {
    if bug then BuggyWord(key, i) else CorrectWord(key, i)
  }

  function Expanded(key: seq<Byte>, bug: bool): seq<Word> {
    seq(SUBKEYS, i requires 0 <= i < SUBKEYS => KeyWord(key, i, bug))
  }

  /** Both expansions agree on the first n words. */
  predicate Agree(key: seq<Byte>, n: nat) {
    forall i :: 0 <= i < n ==> CorrectWord(key, i) == BuggyWord(key, i)
  }

  /** Among the first n bytes one that is not the first of its word has its top bit set. */
  predicate Extended(key: seq<Byte>, n: nat) {
    exists t :: 0 <= t < n && t % 4 != 0 && KeyByte(key, t) >= 0x80
  }

  predicate Guarded(key: seq<Byte>, safety: bool) {
    safety && Agree(key, SUBKEYS) && Extended(key, 4 * SUBKEYS)
  }

  function Initial(init: seq<Word>, key: seq<Byte>, bug: bool, safety: bool): seq<Word>
    requires |init| == SUBKEYS
  {
    seq(SUBKEYS, i requires 0 <= i < SUBKEYS =>
      var w := Xor(init[i], KeyWord(key, i, bug));
      if i == 0 && Guarded(key, safety) then Xor(w, 0x1_0000) else w)
  }

  /** Where ptr stands after t steps through the string and its NUL. */
  lemma NextByte(n: nat, t: nat)
    ensures (t + 1) % (n + 1) == if t % (n + 1) == n then 0 else t % (n + 1) + 1
  {
    var m, q, r := n + 1, t / (n + 1), t % (n + 1);
    if r == n {
      assert t + 1 == (q + 1) * m;
      QuotientIs(t + 1, m, q + 1, 0);
    } else {
      QuotientIs(t + 1, m, q, r + 1);
    }
  }

  /** The branch-free guard.  diff is zero iff the expansions agree, bit 7 of sign tells of a sign
      extension, and bit 16 of safety asks for the guard. */
  lemma GuardBit(diff: Word, sign: Word, safety: Word)
    requires sign == 0 || sign == 0x80
    requires safety == 0 || safety == 0x1_0000
    ensures
      ((sign << 9) & (!(((diff | (diff >> 16)) & 0xFFFF) + 0xFFFF) & safety))
      == if diff == 0 && sign == 0x80 && safety == 0x1_0000 then 0x1_0000 else 0
  {
  }

  lemma Differences(diff: Word, a: Word, b: Word)
    ensures diff | (a ^ b) == 0 <==> diff == 0 && a == b
  {
  }

  lemma SignBit(w: Word, c: Byte, sign: Word)
    requires sign == 0 || sign == 0x80
    ensures
      sign | (ShiftSigned(w, c) & 0x80) == if sign == 0x80 || c >= 0x80 then 0x80 else 0
  {
  }

  lemma Flags(flags: Byte)
    ensures ((flags as Word) & 2) << 15 == if flags & 2 != 0 then 0x1_0000 else 0
  {
  }

  /** One round of the inner loop of BF_set_key, for byte j of word i. */
  method NextKeyByte(key: seq<Byte>, ptr: nat, i: nat, j: nat, tmp0: Word, tmp1: Word, sign: Word)
    returns (ptr': nat, tmp0': Word, tmp1': Word, sign': Word)
    requires j < 4 && ptr == (4 * i + j) % (|key| + 1)
    requires forall k :: 0 <= k < |key| ==> key[k] != 0
    requires sign == if Extended(key, 4 * i + j) then 0x80 else 0
    ensures ptr' == (4 * i + j + 1) % (|key| + 1)
    ensures tmp0' == Shift(tmp0, KeyByte(key, 4 * i + j))
    ensures tmp1' == ShiftSigned(tmp1, KeyByte(key, 4 * i + j))
    ensures sign' == if Extended(key, 4 * i + j + 1) then 0x80 else 0
  {
    hide Shift, ShiftSigned;
    var c := At(key, ptr);
    assert c == KeyByte(key, 4 * i + j);
    tmp0' := Shift(tmp0, c);
    tmp1' := ShiftSigned(tmp1, c);
    sign' := sign;
    SignBit(tmp1, c, sign);
    if j != 0 {
      sign' := sign | (tmp1' & 0x80);
    }
    NextByte(|key|, 4 * i + j);
    ptr' := if c == 0 then 0 else ptr + 1;
  }

  /** The inner loop of BF_set_key: four bytes make word i of both expansions. */
  method NextWords(key: seq<Byte>, start: nat, i: nat, signSoFar: Word)
    returns (ptr: nat, correct: Word, buggy: Word, sign: Word)
    requires start == 4 * i % (|key| + 1)
    requires forall k :: 0 <= k < |key| ==> key[k] != 0
    requires signSoFar == if Extended(key, 4 * i) then 0x80 else 0
    ensures ptr == (4 * i + 4) % (|key| + 1)
    ensures correct == CorrectWord(key, i) && buggy == BuggyWord(key, i)
    ensures sign == if Extended(key, 4 * i + 4) then 0x80 else 0
  {
    hide Shift, ShiftSigned, CorrectWord, BuggyWord;
    ptr, sign := start, signSoFar;
    correct, buggy := 0, 0;
    var j := 0;
    while j < 4
      invariant j <= 4 && ptr == (4 * i + j) % (|key| + 1)
      invariant correct == Partial(key, i, j) && buggy == PartialSigned(key, i, j)
      invariant sign == if Extended(key, 4 * i + j) then 0x80 else 0
    {
      ptr, correct, buggy, sign := NextKeyByte(key, ptr, i, j, correct, buggy, sign);
      j := j + 1;
    }
    FourBytesMakeAWord(key, i);
  }

  /** The bit to flip, or 0. */
  method Guard(diff: Word, sign: Word, safety: Word) returns (bit: Word)
    requires sign == 0 || sign == 0x80
    requires safety == 0 || safety == 0x1_0000
    ensures bit == if diff == 0 && sign == 0x80 && safety == 0x1_0000 then 0x1_0000 else 0
  {
    GuardBit(diff, sign, safety);
    var d := diff | (diff >> 16);
    d := d & 0xFFFF;
    d := d + 0xFFFF;
    bit := sign << 9;
    bit := bit & (!d & safety);
  }

  /** BF_set_key, for the initial subkeys init.  The guard flips a bit in initial[0] only. */
  method SetKey(key: seq<Byte>, init: seq<Word>, expanded: array<Word>, initial: array<Word>, flags: Byte)
    requires |init| == expanded.Length == initial.Length == SUBKEYS && expanded != initial
    requires forall k :: 0 <= k < |key| ==> key[k] != 0
    modifies expanded, initial
    ensures expanded[..] == Expanded(key, flags & 1 != 0)
    ensures initial[..] == Initial(init, key, flags & 1 != 0, flags & 2 != 0)
  {
    hide Xor, CorrectWord, BuggyWord;
    var bug := flags & 1;
    var safety := ((flags as Word) & 2) << 15;
    Flags(flags);
    var ptr := 0;
    var sign, diff: Word := 0, 0;
    var i := 0;
    while i < 18
      invariant 0 <= i <= 18 && ptr == 4 * i % (|key| + 1)
      invariant diff == 0 <==> Agree(key, i)
      invariant sign == if Extended(key, 4 * i) then 0x80 else 0
      invariant forall k :: 0 <= k < i ==> expanded[k] == KeyWord(key, k, bug != 0)
      invariant forall k :: 0 <= k < i ==> initial[k] == Xor(init[k], KeyWord(key, k, bug != 0))
    {
      var tmp0, tmp1;
      ptr, tmp0, tmp1, sign := NextWords(key, ptr, i, sign);
      Differences(diff, tmp0, tmp1);
      diff := diff | (tmp0 ^ tmp1);
      expanded[i] := if bug == 0 then tmp0 else tmp1;
      initial[i] := Xor(init[i], if bug == 0 then tmp0 else tmp1);
      i := i + 1;
    }
    var bit := Guard(diff, sign, safety);
    XorZero(initial[0]);
    initial[0] := Xor(initial[0], bit);
  }

  /** The two expansions give the same word iff every byte that comes before a byte with its top
      bit set is 0xff. */
  lemma WordsAgree(c: seq<Byte>)
    requires |c| == 4
    ensures
      BigEndian(c[0], c[1], c[2], c[3]) == Signed(c[0], c[1], c[2], c[3])
      <==> forall k, m :: 0 <= k < m < 4 && c[m] >= 0x80 ==> c[k] == 0xFF
  {
    FourBytesAgree(c[0], c[1], c[2], c[3]);
  }

  lemma FourBytesAgree(a: Byte, b: Byte, c: Byte, d: Byte)
    ensures
      BigEndian(a, b, c, d) == Signed(a, b, c, d)
      <==> (b >= 0x80 ==> a == 0xFF) && (c >= 0x80 ==> a == 0xFF && b == 0xFF)
           && (d >= 0x80 ==> a == 0xFF && b == 0xFF && c == 0xFF)
  {
    FourBytesOverlap(a, b, c, d, SignExtend(a), SignExtend(b), SignExtend(c), SignExtend(d));
    hide SignExtend;
  }

  lemma FourBytesOverlap(a: Byte, b: Byte, c: Byte, d: Byte, w: Word, x: Word, y: Word, z: Word)
    requires w == SignExtend(a) && x == SignExtend(b) && y == SignExtend(c) && z == SignExtend(d)
    ensures
      ((a as Word) << 24) | ((b as Word) << 16) | ((c as Word) << 8) | (d as Word)
      == (((((w << 8) | x) << 8) | y) << 8) | z
      <==> (b >= 0x80 ==> a == 0xFF) && (c >= 0x80 ==> a == 0xFF && b == 0xFF)
           && (d >= 0x80 ==> a == 0xFF && b == 0xFF && c == 0xFF)
  {
  }

  /** Bytes past the 72nd never matter. */
  lemma OnlySeventyTwoBytes(key: seq<Byte>, other: seq<Byte>, bug: bool)
    requires 72 <= |key| && 72 <= |other| && key[..72] == other[..72]
    ensures Expanded(key, bug) == Expanded(other, bug)
    ensures forall init: seq<Word>, safety :: |init| == SUBKEYS ==>
      Initial(init, key, bug, safety) == Initial(init, other, bug, safety)
  {
    forall t | 0 <= t < 72
      ensures KeyByte(key, t) == KeyByte(other, t)
    {
      QuotientIs(t, |key| + 1, 0, t);
      QuotientIs(t, |other| + 1, 0, t);
      assert key[..72][t] == other[..72][t];
    }
    SameBytesSameWords(key, other, bug);
  }

  lemma SameBytesSameWords(key: seq<Byte>, other: seq<Byte>, bug: bool)
    requires forall t :: 0 <= t < 72 ==> KeyByte(key, t) == KeyByte(other, t)
    ensures Expanded(key, bug) == Expanded(other, bug)
    ensures forall init: seq<Word>, safety :: |init| == SUBKEYS ==>
      Initial(init, key, bug, safety) == Initial(init, other, bug, safety)
  {
    hide BigEndian, Signed, Xor, KeyByte;
    forall i | 0 <= i < SUBKEYS
      ensures CorrectWord(key, i) == CorrectWord(other, i) && BuggyWord(key, i) == BuggyWord(other, i)
    {
      assert 4 * i + 3 < 72;
    }
    assert Agree(key, SUBKEYS) == Agree(other, SUBKEYS);
    assert Extended(key, 72) == Extended(other, 72);
  }

  /** What the guard is for: without it a key that has the words of another in the sign-extending
      mode has its initial subkeys as well, and with it not. */
  lemma GuardSeparates(init: seq<Word>, key: seq<Byte>, other: seq<Byte>)
    requires |init| == SUBKEYS && Guarded(key, true)
    requires Expanded(key, false) == Expanded(other, true)
    ensures Initial(init, key, false, false) == Initial(init, other, true, false)
    ensures Initial(init, key, false, true) != Initial(init, other, true, false)
  {
    hide BigEndian, Signed, Xor, Agree, Extended;
    forall i | 0 <= i < SUBKEYS
      ensures KeyWord(key, i, false) == KeyWord(other, i, true)
    {
      assert Expanded(key, false)[i] == Expanded(other, true)[i];
    }
    hide KeyWord;
    BitFlipped(Xor(init[0], KeyWord(key, 0, false)));
    assert Initial(init, key, false, true)[0] == Xor(Xor(init[0], KeyWord(key, 0, false)), 0x1_0000);
    assert Initial(init, other, true, false)[0] == Xor(init[0], KeyWord(other, 0, true));
  }

  lemma BitFlipped(w: Word)
    ensures Xor(w, 0x1_0000) != w
  {
  }

  // Which keys collide.

  /** A later byte of the same word is sign-extended over this one. */
  predicate Covered(key: seq<Byte>, t: nat) {
    exists m :: t < m < t + 4 - t % 4 && KeyByte(key, m) >= 0x80
  }

  /** What the sign-extending algorithm leaves of a byte. */
  function Effective(key: seq<Byte>, t: nat): Byte {
    if Covered(key, t) then 0xFF else KeyByte(key, t)
  }

  function Over(a: Byte, covered: bool): Byte {
    if covered then 0xFF else a
  }

  lemma SignedIsBigEndian(a: Byte, b: Byte, c: Byte, d: Byte)
    ensures Signed(a, b, c, d)
         == BigEndian(Over(a, b >= 0x80 || c >= 0x80 || d >= 0x80), Over(b, c >= 0x80 || d >= 0x80),
                      Over(c, d >= 0x80), d)
  {
    hide SignExtend, Append, BigEndian;
    AppendOne(SignExtend(a), b);
    AppendOne(Append(SignExtend(a), SignExtend(b)), c);
    AppendOne(Append(Append(SignExtend(a), SignExtend(b)), SignExtend(c)), d);
    LastBytes(a, b, c, d);
  }

  /** A sign-extended byte overwrites what it is appended to. */
  lemma AppendOne(w: Word, d: Byte)
    ensures Append(w, SignExtend(d)) == if d >= 0x80 then 0xFFFF_FF00 | (d as Word) else Append(w, d as Word)
  {
  }

  lemma LastBytes(a: Byte, b: Byte, c: Byte, d: Byte)
    ensures 0xFFFF_FF00 | (d as Word) == BigEndian(0xFF, 0xFF, 0xFF, d)
    ensures Append(0xFFFF_FF00 | (c as Word), d as Word) == BigEndian(0xFF, 0xFF, c, d)
    ensures Append(Append(0xFFFF_FF00 | (b as Word), c as Word), d as Word) == BigEndian(0xFF, b, c, d)
    ensures Append(Append(Append(SignExtend(a), b as Word), c as Word), d as Word) == BigEndian(a, b, c, d)
  {
  }

  lemma BigEndianIsInjective(a: Byte, b: Byte, c: Byte, d: Byte, a': Byte, b': Byte, c': Byte, d': Byte)
    requires BigEndian(a, b, c, d) == BigEndian(a', b', c', d')
    ensures a == a' && b == b' && c == c' && d == d'
  {
  }

  lemma CoveredInWord(key: seq<Byte>, i: nat)
    ensures Covered(key, 4 * i)
            <==> KeyByte(key, 4 * i + 1) >= 0x80 || KeyByte(key, 4 * i + 2) >= 0x80 || KeyByte(key, 4 * i + 3) >= 0x80
    ensures Covered(key, 4 * i + 1) <==> KeyByte(key, 4 * i + 2) >= 0x80 || KeyByte(key, 4 * i + 3) >= 0x80
    ensures Covered(key, 4 * i + 2) <==> KeyByte(key, 4 * i + 3) >= 0x80
    ensures !Covered(key, 4 * i + 3)
  {
    hide KeyByte;
    var t := 4 * i;
    assert t % 4 == 0 && (t + 1) % 4 == 1 && (t + 2) % 4 == 2 && (t + 3) % 4 == 3;
  }

  lemma BuggyIsEffective(key: seq<Byte>, i: nat)
    ensures BuggyWord(key, i)
         == BigEndian(Effective(key, 4 * i), Effective(key, 4 * i + 1),
                      Effective(key, 4 * i + 2), Effective(key, 4 * i + 3))
  {
    CoveredInWord(key, i);
    hide Covered, Signed, BigEndian, KeyByte;
    SignedIsBigEndian(KeyByte(key, 4 * i), KeyByte(key, 4 * i + 1), KeyByte(key, 4 * i + 2), KeyByte(key, 4 * i + 3));
  }

  /** The sign-extending algorithm gives a key the words of another iff it leaves the other's bytes. */
  lemma Collision(key: seq<Byte>, other: seq<Byte>)
    ensures Expanded(key, false) == Expanded(other, true)
            <==> forall t :: 0 <= t < 4 * SUBKEYS ==> KeyByte(key, t) == Effective(other, t)
  {
    hide Signed, BigEndian, KeyByte, Effective;
    if Expanded(key, false) == Expanded(other, true) {
      forall t | 0 <= t < 4 * SUBKEYS
        ensures KeyByte(key, t) == Effective(other, t)
      {
        SameWord(key, other, t / 4);
        assert t == 4 * (t / 4) + t % 4;
      }
    } else {
      var i :| 0 <= i < SUBKEYS && Expanded(key, false)[i] != Expanded(other, true)[i];
      BuggyIsEffective(other, i);
    }
  }

  lemma SameWord(key: seq<Byte>, other: seq<Byte>, i: nat)
    requires i < SUBKEYS && Expanded(key, false) == Expanded(other, true)
    ensures KeyByte(key, 4 * i) == Effective(other, 4 * i) && KeyByte(key, 4 * i + 1) == Effective(other, 4 * i + 1)
    ensures KeyByte(key, 4 * i + 2) == Effective(other, 4 * i + 2)
    ensures KeyByte(key, 4 * i + 3) == Effective(other, 4 * i + 3)
  {
    hide Signed, BigEndian, KeyByte, Effective;
    assert Expanded(key, false)[i] == Expanded(other, true)[i];
    BuggyIsEffective(other, i);
    BigEndianIsInjective(KeyByte(key, 4 * i), KeyByte(key, 4 * i + 1), KeyByte(key, 4 * i + 2), KeyByte(key, 4 * i + 3),
                         Effective(other, 4 * i), Effective(other, 4 * i + 1), Effective(other, 4 * i + 2),
                         Effective(other, 4 * i + 3));
  }

  lemma CoverIsExtended(key: seq<Byte>, other: seq<Byte>, t: nat)
    requires forall n :: 0 <= n < 4 * SUBKEYS ==> KeyByte(key, n) == Effective(other, n)
    requires t < 4 * SUBKEYS && Covered(other, t)
    ensures Extended(key, 4 * SUBKEYS)
  {
    hide KeyByte;
    var m :| t < m < t + 4 - t % 4 && KeyByte(other, m) >= 0x80;
    assert m % 4 != 0 && m < 4 * SUBKEYS;
    assert KeyByte(key, m) >= 0x80;
  }

  /** A key without a byte that the other algorithm extends collides with no key that differs in the
      72 bytes. */
  lemma OnlyExtendedCollide(key: seq<Byte>, other: seq<Byte>)
    requires !Extended(key, 4 * SUBKEYS) && Expanded(key, false) == Expanded(other, true)
    ensures forall t :: 0 <= t < 4 * SUBKEYS ==> KeyByte(key, t) == KeyByte(other, t)
  {
    hide KeyByte, Expanded;
    Collision(key, other);
    forall t | 0 <= t < 4 * SUBKEYS
      ensures KeyByte(key, t) == KeyByte(other, t)
    {
      assert KeyByte(key, t) == Effective(other, t);
      if Covered(other, t) {
        CoverIsExtended(key, other, t);
        assert false;
      }
    }
  }

  /** The string index that step t reads; the key's length is that of its NUL. */
  function Index(key: seq<Byte>, t: nat): nat {
    t % (|key| + 1)
  }

  /** Wherever byte p of the key comes in the 72 bytes, a later byte is extended over it. */
  predicate CoveredEverywhere(key: seq<Byte>, p: nat) {
    forall t :: 0 <= t < 4 * SUBKEYS && Index(key, t) == p ==> Covered(key, t)
  }

  lemma LastExtended(key: seq<Byte>, t: nat) returns (m: nat)
    requires Covered(key, t)
    ensures t < m < t + 4 - t % 4 && KeyByte(key, m) >= 0x80 && !Covered(key, m)
    decreases 4 - t % 4
  {
    hide KeyByte;
    m :| t < m < t + 4 - t % 4 && KeyByte(key, m) >= 0x80;
    if Covered(key, m) {
      m := LastExtended(key, m);
    }
  }

  lemma OtherBytes(key: seq<Byte>, p: nat, c: Byte, t: nat)
    requires p < |key|
    ensures KeyByte(key[p := c], t) == if Index(key, t) == p then c else KeyByte(key, t)
  {
  }

  lemma CoveredBefore(key: seq<Byte>, t: nat, m: nat)
    requires t < m < t + 4 - t % 4 && (KeyByte(key, m) >= 0x80 || Covered(key, m))
    ensures Covered(key, t)
  {
    hide KeyByte;
    if Covered(key, m) {
      var n :| m < n < m + 4 - m % 4 && KeyByte(key, n) >= 0x80;
      assert t < n < t + 4 - t % 4;
    }
  }

  /** If byte p is covered everywhere, what covers the others stays when it changes. */
  lemma CoverStays(key: seq<Byte>, p: nat, c: Byte, t: nat)
    requires p < |key| && CoveredEverywhere(key, p) && t < 4 * SUBKEYS
    ensures Covered(key[p := c], t) == Covered(key, t)
  {
    hide KeyByte, Index;
    var other := key[p := c];
    if Covered(key, t) {
      var m := LastExtended(key, t);
      OtherBytes(key, p, c, m);
    } else if Covered(other, t) {
      var m := LastExtended(other, t);
      OtherBytes(key, p, c, m);
      CoveredBefore(key, t, m);
      assert false;
    }
  }

  /** A key on which both algorithms agree collides with the one that has another byte at p iff that
      byte is covered everywhere. */
  lemma OneByteCollides(key: seq<Byte>, p: nat, c: Byte)
    requires Agree(key, SUBKEYS) && p < |key| && c != key[p]
    ensures Expanded(key, false) == Expanded(key[p := c], true) <==> CoveredEverywhere(key, p)
  {
    hide KeyByte, Expanded, Index, Covered;
    var other := key[p := c];
    Collision(key, other);
    AgreeIsEffective(key);
    if CoveredEverywhere(key, p) {
      forall t | 0 <= t < 4 * SUBKEYS
        ensures KeyByte(key, t) == Effective(other, t)
      {
        OtherBytes(key, p, c, t);
        CoverStays(key, p, c, t);
      }
    } else {
      var t :| 0 <= t < 4 * SUBKEYS && Index(key, t) == p && !Covered(key, t);
      NotCovered(key, p, c, t);
    }
  }

  lemma NotCovered(key: seq<Byte>, p: nat, c: Byte, t: nat)
    requires p < |key| && c != key[p] && t < 4 * SUBKEYS && Index(key, t) == p && !Covered(key, t)
    ensures exists m :: 0 <= m < 4 * SUBKEYS && KeyByte(key, m) != Effective(key[p := c], m)
  {
    hide KeyByte, Index, Covered;
    var other := key[p := c];
    IndexedByte(key, p, t);
    OtherBytes(key, p, c, t);
    if Covered(other, t) {
      var m := LastExtended(other, t);
      OtherBytes(key, p, c, m);
      if Index(key, m) != p {
        CoveredBefore(key, t, m);
        assert false;
      }
      IndexedByte(key, p, m);
      assert KeyByte(key, m) != Effective(other, m);
    } else {
      assert KeyByte(key, t) != Effective(other, t);
    }
  }

  lemma IndexedByte(key: seq<Byte>, p: nat, t: nat)
    requires p < |key| && Index(key, t) == p
    ensures KeyByte(key, t) == key[p]
  {
  }

  lemma AgreeIsEffective(key: seq<Byte>)
    requires Agree(key, SUBKEYS)
    ensures forall t :: 0 <= t < 4 * SUBKEYS ==> KeyByte(key, t) == Effective(key, t)
  {
    hide KeyByte, Effective;
    forall i | 0 <= i < SUBKEYS
      ensures Expanded(key, false)[i] == Expanded(key, true)[i]
    {
    }
    Collision(key, key);
  }

  /** When the guard acts, some byte of the key is covered everywhere: the key collides with each
      that has another byte there. */
  lemma GuardedKeysCollide(key: seq<Byte>, c: Byte) returns (p: nat)
    requires Guarded(key, true)
    ensures p < |key| && CoveredEverywhere(key, p)
    ensures c != key[p] ==> Expanded(key, false) == Expanded(key[p := c], true)
  {
    hide KeyByte, Expanded, Agree, Extended, Covered, Index;
    var t := SomeCovered(key);
    p := Index(key, t);
    forall n | 0 <= n < 4 * SUBKEYS && Index(key, n) == p
      ensures Covered(key, n)
    {
      if (|key| + 1) % 4 == 0 {
        NextInWord(key, t, n);
      } else {
        ComesOnce(key, t, n);
      }
    }
    if c != key[p] {
      OneByteCollides(key, p, c);
    }
  }

  /** In a key whose bytes move from word to word, no byte with its top bit set comes twice: at one
      of two places it would cover the byte before it, which were then 0xff as well, down to a NUL. */
  lemma {:induction false} NotTwice(key: seq<Byte>, t: nat)
    requires Agree(key, SUBKEYS) && (|key| + 1) % 4 != 0
    requires t + |key| + 1 < 4 * SUBKEYS
    ensures KeyByte(key, t) < 0x80
  {
    hide KeyByte, Agree, Covered;
    var len := |key| + 1;
    if KeyByte(key, t) >= 0x80 {
      OneRound(key, t);
      var u := if t % 4 != 0 then t else t + len;
      CoveredByNext(key, u - 1);
      AgreeIsEffective(key);
      assert KeyByte(key, u - 1) == Effective(key, u - 1) == 0xFF;
      if t == 0 {
        NulComesLast(key);
        assert false;
      } else {
        OneRound(key, t - 1);
        NotTwice(key, t - 1);
        assert false;
      }
    }
  }

  lemma OneRound(key: seq<Byte>, t: nat)
    ensures KeyByte(key, t + |key| + 1) == KeyByte(key, t)
  {
    var len := |key| + 1;
    QuotientIs(t + len, len, t / len + 1, t % len);
  }

  lemma NulComesLast(key: seq<Byte>)
    ensures KeyByte(key, |key|) == 0
  {
    QuotientIs(|key|, |key| + 1, 0, |key|);
  }

  lemma ComesOnce(key: seq<Byte>, t: nat, n: nat)
    requires Agree(key, SUBKEYS) && (|key| + 1) % 4 != 0
    requires t < 4 * SUBKEYS && n < 4 * SUBKEYS && Index(key, n) == Index(key, t)
    requires KeyByte(key, t) >= 0x80
    ensures n == t
  {
    hide Agree;
    assert KeyByte(key, n) == KeyByte(key, t);
    if n < t {
      RoundsApart(n, t, |key| + 1);
      NotTwice(key, n);
    } else if t < n {
      RoundsApart(t, n, |key| + 1);
      NotTwice(key, t);
    }
  }

  lemma RoundsApart(t: nat, n: nat, len: nat)
    requires t < n && 0 < len && t % len == n % len
    ensures t + len <= n
  {
    var k := n / len - t / len;
    assert n - t == k * len by {
      assert (n / len - t / len) * len == (n / len) * len - (t / len) * len;
    }
    assert k <= 0 ==> k * len <= 0;
    assert k >= 1 ==> k * len >= len;
  }

  lemma SomeCovered(key: seq<Byte>) returns (t: nat)
    requires Guarded(key, true)
    ensures t < 4 * SUBKEYS && Covered(key, t) && Index(key, t) < |key| && KeyByte(key, t) == 0xFF
  {
    hide KeyByte, Agree, Index, Covered;
    AgreeIsEffective(key);
    var m :| 0 <= m < 4 * SUBKEYS && m % 4 != 0 && KeyByte(key, m) >= 0x80;
    t := m - 1;
    CoveredByNext(key, t);
    assert KeyByte(key, t) == Effective(key, t);
    NulIsZero(key, t);
  }

  lemma CoveredByNext(key: seq<Byte>, t: nat)
    requires (t + 1) % 4 != 0 && KeyByte(key, t + 1) >= 0x80
    ensures Covered(key, t)
  {
    hide KeyByte;
    assert t < t + 1 < t + 4 - t % 4;
  }

  lemma NulIsZero(key: seq<Byte>, t: nat)
    ensures KeyByte(key, t) != 0 ==> Index(key, t) < |key|
  {
  }

  lemma NextInWord(key: seq<Byte>, t: nat, n: nat)
    requires (|key| + 1) % 4 == 0 && Index(key, n) == Index(key, t)
    requires Covered(key, t)
    ensures Covered(key, n)
  {
    var len := |key| + 1;
    var m :| t < m < t + 4 - t % 4 && KeyByte(key, m) >= 0x80;
    SameResidue(t, n, len);
    SameShift(t, n, m - t, len);
    assert KeyByte(key, n + (m - t)) == KeyByte(key, m);
  }

  lemma SameResidue(t: nat, n: nat, len: nat)
    requires 0 < len && len % 4 == 0 && t % len == n % len
    ensures t % 4 == n % 4
  {
    WholeWords(t, len);
    WholeWords(n, len);
  }

  lemma WholeWords(t: nat, len: nat)
    requires 0 < len && len % 4 == 0
    ensures t % 4 == t % len % 4
  {
    var q, k, r := t / len, len / 4, t % len;
    assert q * len == (q * k) * 4;
    QuotientIs(t, 4, q * k + r / 4, r % 4);
  }

  lemma SameShift(t: nat, n: nat, d: nat, len: nat)
    requires 0 < len && t % len == n % len
    ensures (t + d) % len == (n + d) % len
  {
    var s := t % len + d;
    assert (t / len + s / len) * len == (t / len) * len + (s / len) * len;
    assert (n / len + s / len) * len == (n / len) * len + (s / len) * len;
    QuotientIs(t + d, len, t / len + s / len, s % len);
    QuotientIs(n + d, len, n / len + s / len, s % len);
  }

  /** "a\xff\xff" in the sign-extending mode is taken for "\xff\xff\xff", which is guarded. */
  lemma CollisionExample()
    ensures Guarded([0xFF, 0xFF, 0xFF], true)
    ensures Expanded([0xFF, 0xFF, 0xFF], false) == Expanded([0x61, 0xFF, 0xFF], true)
  {
    var key: seq<Byte> := [0xFF, 0xFF, 0xFF];
    FullKey(key);
    hide Expanded, Agree, Extended, CoveredEverywhere;
    OneByteCollides(key, 0, 0x61);
    assert key[0 := 0x61] == [0x61, 0xFF, 0xFF];
  }

  lemma FullKey(key: seq<Byte>)
    requires key == [0xFF, 0xFF, 0xFF]
    ensures Agree(key, SUBKEYS) && Extended(key, 4 * SUBKEYS) && CoveredEverywhere(key, 0)
  {
    hide KeyByte, CorrectWord, BuggyWord;
    forall i | 0 <= i < SUBKEYS
      ensures CorrectWord(key, i) == BuggyWord(key, i)
    {
      FullWord(key, i);
    }
    FullWord(key, 0);
    assert KeyByte(key, 1) >= 0x80;
    forall t | 0 <= t < 4 * SUBKEYS && Index(key, t) == 0
      ensures Covered(key, t)
    {
      FullWord(key, t / 4);
      assert t == 4 * (t / 4) && KeyByte(key, t + 1) >= 0x80;
    }
  }

  lemma FullWord(key: seq<Byte>, i: nat)
    requires key == [0xFF, 0xFF, 0xFF]
    ensures KeyByte(key, 4 * i) == KeyByte(key, 4 * i + 1) == KeyByte(key, 4 * i + 2) == 0xFF
    ensures KeyByte(key, 4 * i + 3) == 0 && CorrectWord(key, i) == BuggyWord(key, i)
  {
    hide BigEndian, Signed;
    assert |key| + 1 == 4;
    QuotientIs(4 * i, 4, i, 0);
    QuotientIs(4 * i + 1, 4, i, 1);
    QuotientIs(4 * i + 2, 4, i, 2);
    QuotientIs(4 * i + 3, 4, i, 3);
    FourBytesAgree(0xFF, 0xFF, 0xFF, 0);
  }
}
