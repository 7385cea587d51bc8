/** bcrypt's constants: header letters, cost, alphabet, magic text, the 64 encryptions, and a hash
    from one end to the other. */
module BcryptData {
  import opened Feistel
  import opened Radix64
  import opened Wrappers
  import opened KeyExpansion
  import opened Bcrypt
  import Blowfish

  /** The 64 digits in the ASCII code: point, slash, the letters, capitals first, and the digits. */
  lemma FirstDigits()
    ensures Itoa(0) == 0x2E && Itoa(1) == 0x2F && Itoa(2) == 0x41 && Itoa(3) == 0x42
    ensures Itoa(4) == 0x43 && Itoa(5) == 0x44 && Itoa(6) == 0x45 && Itoa(7) == 0x46
    ensures Itoa(8) == 0x47 && Itoa(9) == 0x48 && Itoa(10) == 0x49 && Itoa(11) == 0x4A
    ensures Itoa(12) == 0x4B && Itoa(13) == 0x4C && Itoa(14) == 0x4D && Itoa(15) == 0x4E
    ensures Itoa(16) == 0x4F && Itoa(17) == 0x50 && Itoa(18) == 0x51 && Itoa(19) == 0x52
    ensures Itoa(20) == 0x53 && Itoa(21) == 0x54 && Itoa(22) == 0x55 && Itoa(23) == 0x56
    ensures Itoa(24) == 0x57 && Itoa(25) == 0x58 && Itoa(26) == 0x59 && Itoa(27) == 0x5A
    ensures Itoa(28) == 0x61 && Itoa(29) == 0x62 && Itoa(30) == 0x63 && Itoa(31) == 0x64
  {
  }

  lemma LastDigits()
    ensures Itoa(32) == 0x65 && Itoa(33) == 0x66 && Itoa(34) == 0x67 && Itoa(35) == 0x68
    ensures Itoa(36) == 0x69 && Itoa(37) == 0x6A && Itoa(38) == 0x6B && Itoa(39) == 0x6C
    ensures Itoa(40) == 0x6D && Itoa(41) == 0x6E && Itoa(42) == 0x6F && Itoa(43) == 0x70
    ensures Itoa(44) == 0x71 && Itoa(45) == 0x72 && Itoa(46) == 0x73 && Itoa(47) == 0x74
    ensures Itoa(48) == 0x75 && Itoa(49) == 0x76 && Itoa(50) == 0x77 && Itoa(51) == 0x78
    ensures Itoa(52) == 0x79 && Itoa(53) == 0x7A && Itoa(54) == 0x30 && Itoa(55) == 0x31
    ensures Itoa(56) == 0x32 && Itoa(57) == 0x33 && Itoa(58) == 0x34 && Itoa(59) == 0x35
    ensures Itoa(60) == 0x36 && Itoa(61) == 0x37 && Itoa(62) == 0x38 && Itoa(63) == 0x39
  {
  }

  /** No other character is a digit, and a digit has its place as value. */
  lemma Digits(c: Byte)
    ensures Atoi(c).Some? ==> Itoa(Atoi(c).value) == c
    ensures forall k: Byte :: k < 64 ==> Atoi(Itoa(k)) == Some(k)
  {
    hide Itoa, Atoi;
    forall k: Byte | k < 64
      ensures Atoi(Itoa(k)) == Some(k)
    {
      AtoiItoa(k);
    }
    if Atoi(c).Some? {
      ItoaAtoi(c);
    }
  }

  /** The header, by the characters '$' 2 [axy] '$' NN '$' in the ASCII code, and the cost NN. */
  lemma Headers(setting: seq<Byte>)
    requires 7 <= |setting|
    ensures HasHeader(setting) <==>
      && setting[0] == 36 && setting[1] == 50 && (setting[2] == 97 || setting[2] == 120 || setting[2] == 121)
      && setting[3] == 36 && 48 <= setting[4] <= 57 && 48 <= setting[5] <= 57 && setting[6] == 36
      && 10 * (setting[4] as int - 48) + (setting[5] as int - 48) <= 31
    ensures HasHeader(setting) ==> Cost(setting) == 10 * (setting[4] as int - 48) + (setting[5] as int - 48)
  {
    TwoFigures(setting[4], setting[5]);
  }

  lemma TwoFigures(a: Byte, b: Byte)
    ensures 48 <= a <= 57 && 48 <= b <= 57 ==>
      && (10 * (a as int - 48) + (b as int - 48) <= 31 <==> a <= 51 && (a == 51 ==> b <= 49))
      && (a - 0x30) as int == a as int - 48 && (b - 0x30) as int == b as int - 48
  {
  }

  /** "$2x$" asks for the sign extension, "$2a$" for the guard, "$2y$" for neither. */
  lemma Letters(t: Tables, key: seq<Byte>, salt: Blowfish.Salt, cost: nat, letter: Byte)
    requires t.Valid() && SubtypeFlags(letter) != 0
    ensures letter as int in {'a' as int, 'x' as int, 'y' as int}
    ensures
      var bug, guard := letter as int == 'x' as int, letter as int == 'a' as int;
      Setup(t, SubtypeFlags(letter), key, salt, cost)
      == Blowfish.Costly(Blowfish.Pass(Initial(t.p, key, bug, guard) + t.s, salt), salt, Expanded(key, bug), Pow2(cost))
  {
    assert 2 as Byte & 1 == 0 && 2 as Byte & 2 != 0 && 1 as Byte & 1 != 0 && 1 as Byte & 2 == 0;
    assert 4 as Byte & 1 == 0 && 4 as Byte & 2 == 0;
    hide Initial, Expanded, Blowfish.Pass, Blowfish.Costly;
  }

  lemma MagicBytes()
    ensures BigEndianBytes(0x4F72_7068) == [0x4F, 0x72, 0x70, 0x68]
    ensures BigEndianBytes(0x6561_6E42) == [0x65, 0x61, 0x6E, 0x42]
    ensures BigEndianBytes(0x6568_6F6C) == [0x65, 0x68, 0x6F, 0x6C]
    ensures BigEndianBytes(0x6465_7253) == [0x64, 0x65, 0x72, 0x53]
    ensures BigEndianBytes(0x6372_7944) == [0x63, 0x72, 0x79, 0x44]
    ensures BigEndianBytes(0x6F75_6274) == [0x6F, 0x75, 0x62, 0x74]
  {
  }

  lemma {:induction false} BytesOfWord(w: seq<Word>, i: nat)
    requires i < |w|
    ensures Bytes(w)[4 * i..4 * i + 4] == BigEndianBytes(w[i])
  {
    hide BigEndianBytes;
    if i > 0 {
      BytesOfWord(w[1..], i - 1);
    }
  }

  /** The words that are enciphered hold "Orph", "eanB", "ehol", "derS", "cryD" and "oubt", in the
      ASCII code. */
  lemma MagicText()
    ensures |Bytes(MAGIC)| == 24
    ensures Bytes(MAGIC)[0..4] == [0x4F, 0x72, 0x70, 0x68] && Bytes(MAGIC)[4..8] == [0x65, 0x61, 0x6E, 0x42]
    ensures Bytes(MAGIC)[8..12] == [0x65, 0x68, 0x6F, 0x6C] && Bytes(MAGIC)[12..16] == [0x64, 0x65, 0x72, 0x53]
    ensures Bytes(MAGIC)[16..20] == [0x63, 0x72, 0x79, 0x44] && Bytes(MAGIC)[20..24] == [0x6F, 0x75, 0x62, 0x74]
  {
    MagicBytes();
    hide BigEndianBytes, Bytes;
    BytesOfWord(MAGIC, 0);
    BytesOfWord(MAGIC, 1);
    BytesOfWord(MAGIC, 2);
    BytesOfWord(MAGIC, 3);
    BytesOfWord(MAGIC, 4);
    BytesOfWord(MAGIC, 5);
  }

  lemma TextGroup0()
    ensures Group([0x4F, 0x72, 0x70]) == [0x52, 0x31, 0x48, 0x75]
  {
  }

  lemma TextGroup1()
    ensures Group([0x68, 0x65, 0x61]) == [0x59, 0x45, 0x54, 0x66]
  {
  }

  lemma TextGroup2()
    ensures Group([0x6E, 0x42, 0x65]) == [0x5A, 0x69, 0x48, 0x6A]
  {
  }

  lemma TextGroup3()
    ensures Group([0x68, 0x6F, 0x6C]) == [0x59, 0x45, 0x37, 0x71]
  {
  }

  lemma TextGroup4()
    ensures Group([0x64, 0x65, 0x72]) == [0x58, 0x45, 0x54, 0x77]
  {
  }

  lemma TextGroup5()
    ensures Group([0x53, 0x63, 0x72]) == [0x53, 0x30, 0x4C, 0x77]
  {
  }

  lemma TextGroup6()
    ensures Group([0x79, 0x44, 0x6F]) == [0x63, 0x53, 0x50, 0x74]
  {
  }

  lemma TextGroup7()
    ensures Group([0x75, 0x62]) == [0x62, 0x55, 0x47]
  {
  }

  lemma {:induction false} Repeated(w: Blowfish.State, b: Block, k: nat) returns (blocks: seq<Block>)
    ensures |blocks| == k + 1 && blocks[0] == b && blocks[k] == Blowfish.EncTimes(w, b, k)
    ensures forall i :: 0 <= i < k ==> blocks[i + 1] == Blowfish.Enc(w, blocks[i])
  {
    hide Blowfish.Enc;
    if k == 0 {
      blocks := [b];
    } else {
      var front := Repeated(w, b, k - 1);
      blocks := front + [Blowfish.Enc(w, front[k - 1])];
    }
  }

  /** Each pair of magic words is enciphered 64 times: from 65 blocks the last one is kept. */
  lemma SixtyFourTimes(w: Blowfish.State) returns (x: seq<Block>, y: seq<Block>, z: seq<Block>)
    ensures |x| == |y| == |z| == 65
    ensures x[0] == Block(0x4F72_7068, 0x6561_6E42) && y[0] == Block(0x6568_6F6C, 0x6465_7253)
    ensures z[0] == Block(0x6372_7944, 0x6F75_6274)
    ensures forall i :: 0 <= i < 64 ==> x[i + 1] == Blowfish.Enc(w, x[i])
    ensures forall i :: 0 <= i < 64 ==> y[i + 1] == Blowfish.Enc(w, y[i])
    ensures forall i :: 0 <= i < 64 ==> z[i + 1] == Blowfish.Enc(w, z[i])
    ensures Ciphertext(w) == [x[64].l, x[64].r, y[64].l, y[64].r, z[64].l, z[64].r]
  {
    hide Blowfish.EncTimes, Blowfish.Enc;
    x := Repeated(w, Block(MAGIC[0], MAGIC[1]), 64);
    y := Repeated(w, Block(MAGIC[2], MAGIC[3]), 64);
    z := Repeated(w, Block(MAGIC[4], MAGIC[5]), 64);
  }

  // With tables of zeros, the empty password and a salt of zeros the state stays zero, and 64
  // encryptions give the text back.

  ghost predicate AllZero(w: seq<Word>) {
    forall i :: 0 <= i < |w| ==> w[i] == 0
  }

  lemma NothingMixed(w: Blowfish.State, x: Word)
    requires AllZero(w)
    ensures Blowfish.Mix(w, x) == 0
  {
    hide Blowfish.Byte;
    var i, j, k, l := Blowfish.Byte(x >> 24), Blowfish.Byte(x >> 16), Blowfish.Byte(x >> 8), Blowfish.Byte(x);
    assert w[18 + i] == 0 && w[274 + j] == 0 && w[530 + k] == 0 && w[786 + l] == 0;
  }

  lemma {:induction false} OnlySwaps(w: Blowfish.State, b: Block, n: nat)
    requires AllZero(w) && n <= 18
    ensures Rounds(Blowfish.Mixer(w), w[..18], b, n) == if n % 2 == 0 then b else Block(b.r, b.l)
  {
    if n == 0 {
    } else {
      OnlySwaps(w, b, n - 1);
      var c := Rounds(Blowfish.Mixer(w), w[..18], b, n - 1);
      assert w[n - 1] == 0;
      NothingMixed(w, c.l);
      XorZero(c.l);
      XorZero(c.r);
      hide Xor, Blowfish.Mix;
      assert Blowfish.Mixer(w)(c.l) == Blowfish.Mix(w, c.l);
    }
  }

  lemma Exchanged(w: Blowfish.State, b: Block)
    requires AllZero(w)
    ensures Blowfish.Enc(w, b) == Block(b.r, b.l)
  {
    hide Blowfish.Mixer, Rounds, Xor;
    OnlySwaps(w, b, 16);
    XorZero(b.l);
    XorZero(b.r);
    assert w[16] == 0 && w[17] == 0;
  }

  lemma {:induction false} ExchangedTwice(w: Blowfish.State, b: Block, k: nat)
    requires AllZero(w)
    ensures Blowfish.EncTimes(w, b, k) == if k % 2 == 0 then b else Block(b.r, b.l)
  {
    hide Blowfish.Enc;
    if k == 0 {
    } else {
      ExchangedTwice(w, b, k - 1);
      Exchanged(w, Blowfish.EncTimes(w, b, k - 1));
    }
  }

  lemma StepStaysZero(w: Blowfish.State, salt: Blowfish.Salt, k: nat)
    requires AllZero(w) && AllZero(salt) && 2 * k + 1 < 1042
    ensures Blowfish.Step(Blowfish.Chain(w, Block(0, 0)), salt, k) == Blowfish.Chain(w, Block(0, 0))
  {
    Exchanged(w, Block(0, 0));
    XorZero(0);
    hide Blowfish.Enc, Xor;
    assert salt[2 * k % 4] == 0 && salt[(2 * k + 1) % 4] == 0;
    assert w[2 * k := 0][2 * k + 1 := 0] == w;
  }

  lemma {:induction false} StepsStayZero(w: Blowfish.State, salt: Blowfish.Salt, k: nat)
    requires AllZero(w) && AllZero(salt) && 2 * k <= 1042
    ensures Blowfish.Steps(w, salt, k) == Blowfish.Chain(w, Block(0, 0))
  {
    hide Blowfish.Step;
    if k == 0 {
    } else {
      StepsStayZero(w, salt, k - 1);
      StepStaysZero(w, salt, k - 1);
    }
  }

  lemma PassStaysZero(w: Blowfish.State)
    requires AllZero(w)
    ensures Blowfish.Pass(w, [0, 0, 0, 0]) == w
  {
    hide Blowfish.Steps;
    StepsStayZero(w, [0, 0, 0, 0], 521);
  }

  lemma MixStaysZero(w: Blowfish.State, key: seq<Word>)
    requires AllZero(w) && AllZero(key) && 0 < |key|
    ensures Blowfish.MixKey(w, key) == w
  {
    XorZero(0);
    hide Xor;
  }

  lemma {:induction false} CostlyStaysZero(w: Blowfish.State, key: seq<Word>, n: nat)
    requires AllZero(w) && AllZero(key) && 0 < |key|
    ensures Blowfish.Costly(w, [0, 0, 0, 0], key, n) == w
  {
    hide Blowfish.Pass, Blowfish.MixKey;
    if n == 0 {
    } else {
      CostlyStaysZero(w, key, n - 1);
      MixStaysZero(w, key);
      MixStaysZero(w, [0, 0, 0, 0]);
      PassStaysZero(w);
    }
  }

  /** The empty password expands to zeros, and the guard does not act. */
  lemma EmptyKey(p: seq<Word>)
    requires |p| == 18 && AllZero(p)
    ensures AllZero(Expanded([], false)) && Initial(p, [], false, true) == p
  {
    ZeroWord();
    XorZero(0);
    hide Xor;
    assert forall i :: KeyByte([], i) == 0;
    hide BigEndian, KeyByte;
    assert forall i :: CorrectWord([], i) == 0;
    assert !Extended([], 72);
    hide Guarded, Agree, Extended;
    assert !Guarded([], true) by { NotGuarded(); }
  }

  lemma NotGuarded()
    ensures !Guarded([], true)
  {
    assert forall i :: KeyByte([], i) == 0;
    hide KeyByte;
  }

  lemma ZeroWord()
    ensures BigEndian(0, 0, 0, 0) == 0
  {
  }

  lemma ZeroState(t: Tables)
    requires t.Valid() && AllZero(t.p) && AllZero(t.s)
    ensures AllZero(t.p + t.s)
    ensures Setup(t, 2, [], [0, 0, 0, 0], 5) == t.p + t.s
  {
    assert 2 as Byte & 1 == 0 && 2 as Byte & 2 != 0;
    EmptyKey(t.p);
    hide Initial, Expanded, Blowfish.Pass, Blowfish.Costly;
    PassStaysZero(t.p + t.s);
    CostlyStaysZero(t.p + t.s, Expanded([], false), Pow2(5));
  }

  lemma TextStays(w: Blowfish.State)
    requires AllZero(w)
    ensures Ciphertext(w) == MAGIC
  {
    hide Blowfish.EncTimes, AllZero;
    ExchangedTwice(w, Block(MAGIC[0], MAGIC[1]), 64);
    ExchangedTwice(w, Block(MAGIC[2], MAGIC[3]), 64);
    ExchangedTwice(w, Block(MAGIC[4], MAGIC[5]), 64);
  }

  function Zeros(n: nat): seq<Byte> {
    seq(n, _ => 0)
  }

  lemma ZerosJoin(m: nat, n: nat)
    ensures Zeros(m) + Zeros(n) == Zeros(m + n)
  {
  }

  lemma {:induction false} DotsAreZeros(s: seq<Byte>, i: nat, n: nat)
    requires forall k :: i <= k < i + Chars(n) ==> At(s, k) == 0x2E
    ensures Decoded(s, i, n) == Some(Zeros(n))
    decreases n
  {
    hide Ungroup, At, Zeros;
    if n == 0 {
      assert Zeros(0) == [] by { NoZeros(); }
    } else {
      var g := GroupSize(n);
      DotsAreZeros(s, i + g + 1, n - g);
      DotGroup(s, i, g);
      ZerosJoin(g, n - g);
    }
  }

  lemma NoZeros()
    ensures Zeros(0) == []
  {
  }

  lemma DotGroup(s: seq<Byte>, i: nat, g: nat)
    requires 1 <= g <= 3 && forall k :: i <= k < i + g + 1 ==> At(s, k) == 0x2E
    ensures Ungroup(s, i, g) == Some(Zeros(g))
  {
    hide At;
    assert Atoi(0x2E) == Some(0) && Byte1(0, 0) == 0 && Byte2(0, 0) == 0 && Byte3(0, 0) == 0;
    hide Atoi, Byte1, Byte2, Byte3;
    assert At(s, i) == 0x2E && At(s, i + 1) == 0x2E;
    assert g > 1 ==> At(s, i + 2) == 0x2E;
    assert g > 2 ==> At(s, i + 3) == 0x2E;
    assert Zeros(1) == [0] && Zeros(2) == [0, 0] && Zeros(3) == [0, 0, 0];
  }

  lemma NextGroup(b: seq<Byte>, i: nat)
    requires i < |b|
    ensures var g := GroupSize(|b| - i); Encoded(b[i..]) == Group(b[i..i + g]) + Encoded(b[i + g..])
  {
    hide Group;
    var g := GroupSize(|b| - i);
    assert b[i..][..g] == b[i..i + g] && b[i..][g..] == b[i + g..];
  }

  lemma TextByThrees(b: seq<Byte>)
    requires b == Bytes(MAGIC)[..23]
    ensures b[0..3] == [0x4F, 0x72, 0x70]
    ensures b[3..6] == [0x68, 0x65, 0x61]
    ensures b[6..9] == [0x6E, 0x42, 0x65]
    ensures b[9..12] == [0x68, 0x6F, 0x6C]
    ensures b[12..15] == [0x64, 0x65, 0x72]
    ensures b[15..18] == [0x53, 0x63, 0x72]
    ensures b[18..21] == [0x79, 0x44, 0x6F]
    ensures b[21..23] == [0x75, 0x62]
  {
    MagicText();
    var c := Bytes(MAGIC);
    hide Bytes;
    assert c[0] == c[0..4][0] && c[1] == c[0..4][1] && c[2] == c[0..4][2];
    assert c[3] == c[0..4][3];
    assert c[4] == c[4..8][0] && c[5] == c[4..8][1] && c[6] == c[4..8][2];
    assert c[7] == c[4..8][3];
    assert c[8] == c[8..12][0] && c[9] == c[8..12][1] && c[10] == c[8..12][2];
    assert c[11] == c[8..12][3];
    assert c[12] == c[12..16][0] && c[13] == c[12..16][1] && c[14] == c[12..16][2];
    assert c[15] == c[12..16][3];
    assert c[16] == c[16..20][0] && c[17] == c[16..20][1] && c[18] == c[16..20][2];
    assert c[19] == c[16..20][3];
    assert c[20] == c[20..24][0] && c[21] == c[20..24][1] && c[22] == c[20..24][2];
    assert c[23] == c[20..24][3];
  }

  /** The digits of 23 bytes, "R1Hu", "YETf", "ZiHj", "YE7q", "XETw", "S0Lw", "cSPt" and "bUG" in the
      ASCII code. */
  function TextCode0(): seq<Byte> {
    [0x52, 0x31, 0x48, 0x75] + TextCode1()
  }

  function TextCode1(): seq<Byte> {
    [0x59, 0x45, 0x54, 0x66] + TextCode2()
  }

  function TextCode2(): seq<Byte> {
    [0x5A, 0x69, 0x48, 0x6A] + TextCode3()
  }

  function TextCode3(): seq<Byte> {
    [0x59, 0x45, 0x37, 0x71] + TextCode4()
  }

  function TextCode4(): seq<Byte> {
    [0x58, 0x45, 0x54, 0x77] + TextCode5()
  }

  function TextCode5(): seq<Byte> {
    [0x53, 0x30, 0x4C, 0x77] + TextCode6()
  }

  function TextCode6(): seq<Byte> {
    [0x63, 0x53, 0x50, 0x74] + TextCode7()
  }

  function TextCode7(): seq<Byte> {
    [0x62, 0x55, 0x47]
  }

  lemma Coded(b: seq<Byte>, i: nat, n: nat, digits: seq<Byte>, rest: seq<Byte>)
    requires i < |b| && n == GroupSize(|b| - i) && Group(b[i..i + n]) == digits && Encoded(b[i + n..]) == rest
    ensures Encoded(b[i..]) == digits + rest
  {
    hide Group, Encoded;
    NextGroup(b, i);
  }

  lemma TextFrom7(b: seq<Byte>)
    requires b == Bytes(MAGIC)[..23]
    ensures Encoded(b[21..]) == TextCode7()
  {
    TextByThrees(b);
    TextGroup7();
    NoDigits();
    hide Group, Encoded, Bytes;
    assert b[23..] == [];
    Coded(b, 21, 2, [0x62, 0x55, 0x47], []);
  }

  lemma TextFrom6(b: seq<Byte>)
    requires b == Bytes(MAGIC)[..23]
    ensures Encoded(b[18..]) == TextCode6()
  {
    TextByThrees(b);
    TextGroup6();
    TextFrom7(b);
    hide Group, Encoded, Bytes, TextCode7;
    Coded(b, 18, 3, [0x63, 0x53, 0x50, 0x74], TextCode7());
  }

  lemma TextFrom5(b: seq<Byte>)
    requires b == Bytes(MAGIC)[..23]
    ensures Encoded(b[15..]) == TextCode5()
  {
    TextByThrees(b);
    TextGroup5();
    TextFrom6(b);
    hide Group, Encoded, Bytes, TextCode6;
    Coded(b, 15, 3, [0x53, 0x30, 0x4C, 0x77], TextCode6());
  }

  lemma TextFrom4(b: seq<Byte>)
    requires b == Bytes(MAGIC)[..23]
    ensures Encoded(b[12..]) == TextCode4()
  {
    TextByThrees(b);
    TextGroup4();
    TextFrom5(b);
    hide Group, Encoded, Bytes, TextCode5;
    Coded(b, 12, 3, [0x58, 0x45, 0x54, 0x77], TextCode5());
  }

  lemma TextFrom3(b: seq<Byte>)
    requires b == Bytes(MAGIC)[..23]
    ensures Encoded(b[9..]) == TextCode3()
  {
    TextByThrees(b);
    TextGroup3();
    TextFrom4(b);
    hide Group, Encoded, Bytes, TextCode4;
    Coded(b, 9, 3, [0x59, 0x45, 0x37, 0x71], TextCode4());
  }

  lemma TextFrom2(b: seq<Byte>)
    requires b == Bytes(MAGIC)[..23]
    ensures Encoded(b[6..]) == TextCode2()
  {
    TextByThrees(b);
    TextGroup2();
    TextFrom3(b);
    hide Group, Encoded, Bytes, TextCode3;
    Coded(b, 6, 3, [0x5A, 0x69, 0x48, 0x6A], TextCode3());
  }

  lemma TextFrom1(b: seq<Byte>)
    requires b == Bytes(MAGIC)[..23]
    ensures Encoded(b[3..]) == TextCode1()
  {
    TextByThrees(b);
    TextGroup1();
    TextFrom2(b);
    hide Group, Encoded, Bytes, TextCode2;
    Coded(b, 3, 3, [0x59, 0x45, 0x54, 0x66], TextCode2());
  }

  lemma TextFrom0(b: seq<Byte>)
    requires b == Bytes(MAGIC)[..23]
    ensures Encoded(b[0..]) == TextCode0()
  {
    TextByThrees(b);
    TextGroup0();
    TextFrom1(b);
    hide Group, Encoded, Bytes, TextCode1;
    Coded(b, 0, 3, [0x52, 0x31, 0x48, 0x75], TextCode1());
  }

  lemma TextDigits()
    ensures Encoded(Bytes(MAGIC)[..23]) == TextCode0()
  {
    var b := Bytes(MAGIC)[..23];
    hide Bytes, Encoded, TextCode0;
    TextFrom0(b);
    assert b[0..] == b;
  }

  lemma NoDigits()
    ensures Encoded([]) == []
  {
  }

  /** "$2a$05$" and 22 points, with the empty password: the hash is the setting and the digits of 23
      bytes of the text. */
  method HashesEmptyPassword(t: Tables, setting: seq<Byte>) returns (output: Option<seq<Byte>>)
    requires t.Valid() && AllZero(t.p) && AllZero(t.s)
    requires |setting| == 29 && setting[..7] == [0x24, 0x32, 0x61, 0x24, 0x30, 0x35, 0x24]
    requires forall k :: 7 <= k < 29 ==> setting[k] == 0x2E
    ensures output == Some(setting + TextCode0())
  {
    EmptyHash(t, setting);
    hide Crypt, AllZero;
    output := BFCrypt(t, [], setting, 61, 0);
  }

  lemma EmptyHash(t: Tables, setting: seq<Byte>)
    requires t.Valid() && AllZero(t.p) && AllZero(t.s)
    requires |setting| == 29 && setting[..7] == [0x24, 0x32, 0x61, 0x24, 0x30, 0x35, 0x24]
    requires forall k :: 7 <= k < 29 ==> setting[k] == 0x2E
    ensures Crypt(t, [], setting, 61, 0) == Some(setting + TextCode0())
  {
    SettingIs(setting);
    ZeroState(t);
    TextStays(t.p + t.s);
    TextDigits();
    hide *;
    HashIs(t, [], setting, 2, Zeros(16), [0, 0, 0, 0], 5, t.p + t.s, MAGIC, TextCode0());
    PointAtEnd(setting);
  }

  lemma PointAtEnd(setting: seq<Byte>)
    requires |setting| == 29 && setting[28] == 0x2E
    ensures setting[..28] + [0x2E] == setting
  {
  }

  lemma HashIs(t: Tables, key: seq<Byte>, setting: seq<Byte>, flags: Byte, bytes: seq<Byte>, salt: Blowfish.Salt,
               cost: nat, w: Blowfish.State, c: seq<Word>, code: seq<Byte>)
    requires t.Valid() && HasHeader(setting) && SubtypeFlags(At(setting, 2)) == flags && Cost(setting) == cost
    requires Decoded(setting, 7, 16) == Some(bytes) && |bytes| == 16 && SaltOf(bytes) == salt
    requires Setup(t, flags, key, salt, cost) == w && Ciphertext(w) == c && |c| == 6 && Encoded(Bytes(c)[..23]) == code
    ensures 28 < |setting| && Atoi(setting[28]).Some?
    ensures Crypt(t, key, setting, 61, 0) == Some(setting[..28] + [Cleared(setting[28], 0x30)] + code)
  {
    hide Setup, Ciphertext, Encoded, Bytes, HasHeader, Cost, Decoded, Cleared, SaltOf, SubtypeFlags, At, Atoi, Pow2;
    LastSaltDigit(setting);
  }

  lemma HeaderIs(setting: seq<Byte>)
    requires |setting| == 29 && setting[..7] == [0x24, 0x32, 0x61, 0x24, 0x30, 0x35, 0x24]
    ensures HasHeader(setting) && SubtypeFlags(At(setting, 2)) == 2 && Cost(setting) == 5
  {
    assert setting[0] == setting[..7][0] && setting[1] == setting[..7][1] && setting[2] == setting[..7][2];
    assert setting[3] == setting[..7][3] && setting[4] == setting[..7][4] && setting[5] == setting[..7][5];
    assert setting[6] == setting[..7][6];
  }

  lemma SaltIs(setting: seq<Byte>)
    requires |setting| == 29 && forall k :: 7 <= k < 29 ==> setting[k] == 0x2E
    ensures Decoded(setting, 7, 16) == Some(Zeros(16)) && SaltOf(Zeros(16)) == [0, 0, 0, 0]
  {
    DotsAreZeros(setting, 7, 16);
    ZeroWord();
    hide Decoded, BigEndian;
  }

  lemma SettingIs(setting: seq<Byte>)
    requires |setting| == 29 && setting[..7] == [0x24, 0x32, 0x61, 0x24, 0x30, 0x35, 0x24]
    requires forall k :: 7 <= k < 29 ==> setting[k] == 0x2E
    ensures HasHeader(setting) && SubtypeFlags(At(setting, 2)) == 2 && Cost(setting) == 5
    ensures Decoded(setting, 7, 16) == Some(Zeros(16)) && |Zeros(16)| == 16 && SaltOf(Zeros(16)) == [0, 0, 0, 0]
    ensures Atoi(setting[28]).Some? && Cleared(setting[28], 0x30) == 0x2E
  {
    HeaderIs(setting);
    SaltIs(setting);
    hide Decoded, HasHeader, Cost, SubtypeFlags, SaltOf;
    assert setting[28] == 0x2E;
  }
}
