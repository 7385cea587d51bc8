/** Blowfish on numbers: the round function by the bytes of a word, and a block under tables that are
    given by a formula. */
module BlowfishTables {
  import opened Feistel
  import opened Blowfish

  lemma BytesOfWord(a: bv8, b: bv8, c: bv8, d: bv8, x: Word)
    requires x == ((a as Word) << 24) | ((b as Word) << 16) | ((c as Word) << 8) | (d as Word)
    ensures Byte(x >> 24) == a as int && Byte(x >> 16) == b as int && Byte(x >> 8) == c as int && Byte(x) == d as int
  {
  }

  /** The two operations are those of 32-bit machine words: addition modulo 2^32 and exclusive or. */
  lemma WordOperations(p: Word, q: Word)
    ensures Plus(p, q) == p + q && Xor(p, q) == p ^ q
  {
  }

  /** The round function for a word x with the bytes a, b, c and d, high byte first: box 0 at a plus box
      1 at b, exclusive-or box 2 at c, plus box 3 at d. */
  lemma MixByBytes(w: State, a: bv8, b: bv8, c: bv8, d: bv8, x: Word)
    requires x == ((a as Word) << 24) | ((b as Word) << 16) | ((c as Word) << 8) | (d as Word)
    ensures Mix(w, x) == Plus(Xor(Plus(w[18 + a as int], w[274 + b as int]), w[530 + c as int]), w[786 + d as int])
  {
    BytesOfWord(a, b, c, d, x);
    hide Byte, Xor, Plus;
  }

  /** One macro round, for a left half l with these bytes, on the arrays. */
  method RoundByBytes(ctx: Context, a: bv8, b: bv8, c: bv8, d: bv8, l: Word, r: Word, n: nat, ghost plain: Block)
    returns (r': Word)
    requires ctx.Valid() && n < 16 && BeforeRound(ctx.Words(), plain, n, l, r)
    requires l == ((a as Word) << 24) | ((b as Word) << 16) | ((c as Word) << 8) | (d as Word)
    ensures
      r' == Xor(Xor(r, ctx.P[n + 1]),
                Plus(Xor(Plus(ctx.S[a as int], ctx.S[256 + b as int]), ctx.S[512 + c as int]), ctx.S[768 + d as int]))
  {
    MixByBytes(ctx.Words(), a, b, c, d, l);
    hide Mix, BeforeRound, Xor, Plus;
    r' := ctx.HalfRound(l, r, n, plain);
  }

  // A block under tables without structure.

  function TableWord(k: nat): Word
    requires k < 1042
  {
    (k as Word) * 0x9E37_79B1 + 0x7F4A_7C15
  }

  ghost predicate IsTable(w: State) {
    forall k :: 0 <= k < 1042 ==> w[k] == TableWord(k)
  }

  lemma NextOf(w: State, b: Block, n: nat, c: Block, x: Word, v: Word)
    requires n < 16 && Rounds(Mixer(w), w[..18], b, n) == c
    requires Xor(c.l, w[n]) == x && Mix(w, x) == v
    ensures Rounds(Mixer(w), w[..18], b, n + 1) == Block(Xor(c.r, v), x)
  {
    hide Mix, Xor;
    assert Mixer(w)(x) == Mix(w, x);
  }

  lemma Round0(w: State)
    requires IsTable(w)
    ensures Xor(0x0123_4567, w[0]) == 0x7E69_3972 && Mix(w, 0x7E69_3972) == 0x2BE6_5E8E
    ensures Xor(0x89AB_CDEF, 0x2BE6_5E8E) == 0xA24D_9361
  {
    assert Byte(0x7E69_3972 >> 24) == 126 && Byte(0x7E69_3972 >> 16) == 105;
    assert Byte(0x7E69_3972 >> 8) == 57 && Byte(0x7E69_3972) == 114;
    hide Byte;
    assert w[144] == 0x7E7E_EFA5 && w[379] == 0xBB6B_A520 && w[587] == 0x487E_84F0 && w[900] == 0xBA52_4E59;
  }

  lemma Round1(w: State)
    requires IsTable(w)
    ensures Xor(0xA24D_9361, w[1]) == 0xBFCC_66A7 && Mix(w, 0xBFCC_66A7) == 0x0918_E322
    ensures Xor(0x7E69_3972, 0x0918_E322) == 0x7771_DA50
  {
    assert Byte(0xBFCC_66A7 >> 24) == 191 && Byte(0xBFCC_66A7 >> 16) == 204;
    assert Byte(0xBFCC_66A7 >> 8) == 102 && Byte(0xBFCC_66A7) == 167;
    hide Byte;
    assert w[209] == 0xAA94_D596 && w[478] == 0xEADF_B493 && w[632] == 0x183E_E90D && w[953] == 0x7BCE_7FFE;
  }

  lemma Round2(w: State)
    requires IsTable(w)
    ensures Xor(0x7771_DA50, w[2]) == 0xCCC8_B527 && Mix(w, 0xCCC8_B527) == 0x2E4C_4F4C
    ensures Xor(0xBFCC_66A7, 0x2E4C_4F4C) == 0x9180_29EB
  {
    assert Byte(0xCCC8_B527 >> 24) == 204 && Byte(0xCCC8_B527 >> 16) == 200;
    assert Byte(0xCCC8_B527 >> 8) == 181 && Byte(0xCCC8_B527) == 39;
    hide Byte;
    assert w[222] == 0xB366_0393 && w[474] == 0x7201_CDCF && w[711] == 0xEB5D_76AC && w[825] == 0x6011_A77E;
  }

  lemma Round3(w: State)
    requires IsTable(w)
    ensures Xor(0x9180_29EB, w[3]) == 0xC870_C0C3 && Mix(w, 0xC870_C0C3) == 0xC8A7_73DB
    ensures Xor(0xCCC8_B527, 0xC8A7_73DB) == 0x046F_C6FC
  {
    assert Byte(0xC870_C0C3 >> 24) == 200 && Byte(0xC870_C0C3 >> 16) == 112;
    assert Byte(0xC870_C0C3 >> 8) == 192 && Byte(0xC870_C0C3) == 195;
    hide Byte;
    assert w[218] == 0x3A88_1CCF && w[386] == 0x0EEF_F8F7 && w[722] == 0xB7BF_B147 && w[981] == 0xC9DF_CF5A;
  }

  lemma Round4(w: State)
    requires IsTable(w)
    ensures Xor(0x046F_C6FC, w[4]) == 0xFC47_A425 && Mix(w, 0xFC47_A425) == 0xA016_E5A6
    ensures Xor(0xC870_C0C3, 0xA016_E5A6) == 0x6866_2565
  {
    assert Byte(0xFC47_A425 >> 24) == 252 && Byte(0xFC47_A425 >> 16) == 71;
    assert Byte(0xFC47_A425 >> 8) == 164 && Byte(0xFC47_A425) == 37;
    hide Byte;
    assert w[270] == 0x5DCC_D4C3 && w[345] == 0xB80D_7B9E && w[694] == 0x69AE_61EB && w[823] == 0x23A2_B41C;
  }

  lemma Round5(w: State)
    requires IsTable(w)
    ensures Xor(0x6866_2565, w[5]) == 0xFE39_F9EF && Mix(w, 0xFE39_F9EF) == 0x54C2_0F6B
    ensures Xor(0xFC47_A425, 0x54C2_0F6B) == 0xA885_AB4E
  {
    assert Byte(0xFE39_F9EF >> 24) == 254 && Byte(0xFE39_F9EF >> 16) == 57;
    assert Byte(0xFE39_F9EF >> 8) == 249 && Byte(0xFE39_F9EF) == 239;
    hide Byte;
    assert w[272] == 0x9A3B_C825 && w[331] == 0x1104_D3F0 && w[779] == 0xF219_C9B0 && w[1025] == 0xFB68_B9C6;
  }

  lemma Round6(w: State)
    requires IsTable(w)
    ensures Xor(0xA885_AB4E, w[6]) == 0x9C12_FD75 && Mix(w, 0x9C12_FD75) == 0x2A60_8794
    ensures Xor(0xFE39_F9EF, 0x2A60_8794) == 0xD459_7E7B
  {
    assert Byte(0x9C12_FD75 >> 24) == 156 && Byte(0x9C12_FD75 >> 16) == 18;
    assert Byte(0x9C12_FD75 >> 8) == 253 && Byte(0x9C12_FD75) == 117;
    hide Byte;
    assert w[174] == 0x08FF_3263 && w[292] == 0xF691_49F9 && w[783] == 0x6AF7_B074 && w[903] == 0x94F8_BB6C;
  }

  lemma Round7(w: State)
    requires IsTable(w)
    ensures Xor(0xD459_7E7B, w[7]) == 0x0697_B197 && Mix(w, 0x0697_B197) == 0xA7F5_CD61
    ensures Xor(0x9C12_FD75, 0xA7F5_CD61) == 0x3BE7_3014
  {
    assert Byte(0x0697_B197 >> 24) == 6 && Byte(0x0697_B197 >> 16) == 151;
    assert Byte(0x0697_B197 >> 8) == 177 && Byte(0x0697_B197) == 151;
    hide Byte;
    assert w[24] == 0x547D_E4AD && w[425] == 0x2963_82EE && w[707] == 0x727F_8FE8 && w[937] == 0x9856_E4EE;
  }

  lemma Round8(w: State)
    requires IsTable(w)
    ensures Xor(0x3BE7_3014, w[8]) == 0x4AE1_7989 && Mix(w, 0x4AE1_7989) == 0x8848_5439
    ensures Xor(0x0697_B197, 0x8848_5439) == 0x8EDF_E5AE
  {
    assert Byte(0x4AE1_7989 >> 24) == 74 && Byte(0x4AE1_7989 >> 16) == 225;
    assert Byte(0x4AE1_7989 >> 8) == 121 && Byte(0x4AE1_7989) == 137;
    hide Byte;
    assert w[92] == 0x5B3A_37B1 && w[499] == 0xE56C_B018 && w[651] == 0xD65C_F130 && w[923] == 0xF14E_3D40;
  }

  lemma Round9(w: State)
    requires IsTable(w)
    ensures Xor(0x8EDF_E5AE, w[9]) == 0x81E2_26E0 && Mix(w, 0x81E2_26E0) == 0x0CD2_92B3
    ensures Xor(0x4AE1_7989, 0x0CD2_92B3) == 0x4633_EB3A
  {
    assert Byte(0x81E2_26E0 >> 24) == 129 && Byte(0x81E2_26E0 >> 16) == 226;
    assert Byte(0x81E2_26E0 >> 8) == 38 && Byte(0x81E2_26E0) == 224;
    hide Byte;
    assert w[147] == 0x5925_5CB8 && w[500] == 0x83A4_29C9 && w[568] == 0x8A60_7CCD && w[1010] == 0xB628_9867;
  }

  lemma Round10(w: State)
    requires IsTable(w)
    ensures Xor(0x4633_EB3A, w[10]) == 0xEB46_D7C5 && Mix(w, 0xEB46_D7C5) == 0x2197_247D
    ensures Xor(0x81E2_26E0, 0x2197_247D) == 0xA075_029D
  {
    assert Byte(0xEB46_D7C5 >> 24) == 235 && Byte(0xEB46_D7C5 >> 16) == 70;
    assert Byte(0xEB46_D7C5 >> 8) == 215 && Byte(0xEB46_D7C5) == 197;
    hide Byte;
    assert w[253] == 0xDC1D_C002 && w[344] == 0x19D6_01ED && w[745] == 0xEEBB_A02E && w[983] == 0x064E_C2BC;
  }

  lemma Round11(w: State)
    requires IsTable(w)
    ensures Xor(0xA075_029D, w[11]) == 0xEBD9_B42D && Mix(w, 0xEBD9_B42D) == 0x9849_E00D
    ensures Xor(0xEB46_D7C5, 0x9849_E00D) == 0x730F_37C8
  {
    assert Byte(0xEBD9_B42D >> 24) == 235 && Byte(0xEBD9_B42D >> 16) == 217;
    assert Byte(0xEBD9_B42D >> 8) == 180 && Byte(0xEBD9_B42D) == 45;
    hide Byte;
    assert w[253] == 0xDC1D_C002 && w[491] == 0xF3B0_E290 && w[710] == 0x4D25_FCFB && w[831] == 0x155E_81A4;
  }

  lemma Round12(w: State)
    requires IsTable(w)
    ensures Xor(0x730F_37C8, w[12]) == 0x9AEB_07A9 && Mix(w, 0x9AEB_07A9) == 0x39CC_E3BD
    ensures Xor(0xEBD9_B42D, 0x39CC_E3BD) == 0xD215_5790
  {
    assert Byte(0x9AEB_07A9 >> 24) == 154 && Byte(0x9AEB_07A9 >> 16) == 235;
    assert Byte(0x9AEB_07A9 >> 8) == 7 && Byte(0x9AEB_07A9) == 169;
    hide Byte;
    assert w[172] == 0xCC90_3F01 && w[509] == 0x1397_7102 && w[537] == 0x61A8_C05E && w[955] == 0xB83D_7360;
  }

  lemma Round13(w: State)
    requires IsTable(w)
    ensures Xor(0xD215_5790, w[13]) == 0x5A0E_FD82 && Mix(w, 0x5A0E_FD82) == 0x745C_6EEB
    ensures Xor(0x9AEB_07A9, 0x745C_6EEB) == 0xEEB7_6942
  {
    assert Byte(0x5A0E_FD82 >> 24) == 90 && Byte(0x5A0E_FD82 >> 16) == 14;
    assert Byte(0x5A0E_FD82 >> 8) == 253 && Byte(0x5A0E_FD82) == 130;
    hide Byte;
    assert w[108] == 0x3EB1_D2C1 && w[288] == 0x7DB3_6335 && w[783] == 0x6AF7_B074 && w[916] == 0x9DC9_E969;
  }

  lemma Round14(w: State)
    requires IsTable(w)
    ensures Xor(0xEEB7_6942, w[14]) == 0xC8E4_4A81 && Mix(w, 0xC8E4_4A81) == 0x3049_1003
    ensures Xor(0x5A0E_FD82, 0x3049_1003) == 0x6A47_ED81
  {
    assert Byte(0xC8E4_4A81 >> 24) == 200 && Byte(0xC8E4_4A81 >> 16) == 228;
    assert Byte(0xC8E4_4A81 >> 8) == 74 && Byte(0xC8E4_4A81) == 129;
    hide Byte;
    assert w[218] == 0x3A88_1CCF && w[502] == 0xC013_1D2B && w[604] == 0xCA2D_99B1 && w[915] == 0xFF92_6FB8;
  }

  lemma Round15(w: State)
    requires IsTable(w)
    ensures Xor(0x6A47_ED81, w[15]) == 0xAECD_70F5 && Mix(w, 0xAECD_70F5) == 0xA84A_DADA
    ensures Xor(0xC8E4_4A81, 0xA84A_DADA) == 0x60AE_905B
  {
    assert Byte(0xAECD_70F5 >> 24) == 174 && Byte(0xAECD_70F5 >> 16) == 205;
    assert Byte(0xAECD_70F5 >> 8) == 112 && Byte(0xAECD_70F5) == 245;
    hide Byte;
    assert w[192] == 0x28E5_C0D5 && w[479] == 0x8917_2E44 && w[642] == 0x4669_A9F7 && w[1031] == 0xB0B5_93EC;
  }

  lemma TableBlock(w: State)
    requires IsTable(w)
    ensures Enc(w, Block(0x0123_4567, 0x89AB_CDEF)) == Block(0xAE34_E023, 0x026C_877E)
  {
    hide IsTable, Mix, Rounds, Xor;
    var b := Block(0x0123_4567, 0x89AB_CDEF);
    NoRounds(w, b);
    Round0(w);
    NextOf(w, b, 0, Block(0x0123_4567, 0x89AB_CDEF), 0x7E69_3972, 0x2BE6_5E8E);
    Round1(w);
    NextOf(w, b, 1, Block(0xA24D_9361, 0x7E69_3972), 0xBFCC_66A7, 0x0918_E322);
    Round2(w);
    NextOf(w, b, 2, Block(0x7771_DA50, 0xBFCC_66A7), 0xCCC8_B527, 0x2E4C_4F4C);
    Round3(w);
    NextOf(w, b, 3, Block(0x9180_29EB, 0xCCC8_B527), 0xC870_C0C3, 0xC8A7_73DB);
    Round4(w);
    NextOf(w, b, 4, Block(0x046F_C6FC, 0xC870_C0C3), 0xFC47_A425, 0xA016_E5A6);
    Round5(w);
    NextOf(w, b, 5, Block(0x6866_2565, 0xFC47_A425), 0xFE39_F9EF, 0x54C2_0F6B);
    Round6(w);
    NextOf(w, b, 6, Block(0xA885_AB4E, 0xFE39_F9EF), 0x9C12_FD75, 0x2A60_8794);
    Round7(w);
    NextOf(w, b, 7, Block(0xD459_7E7B, 0x9C12_FD75), 0x0697_B197, 0xA7F5_CD61);
    Round8(w);
    NextOf(w, b, 8, Block(0x3BE7_3014, 0x0697_B197), 0x4AE1_7989, 0x8848_5439);
    Round9(w);
    NextOf(w, b, 9, Block(0x8EDF_E5AE, 0x4AE1_7989), 0x81E2_26E0, 0x0CD2_92B3);
    Round10(w);
    NextOf(w, b, 10, Block(0x4633_EB3A, 0x81E2_26E0), 0xEB46_D7C5, 0x2197_247D);
    Round11(w);
    NextOf(w, b, 11, Block(0xA075_029D, 0xEB46_D7C5), 0xEBD9_B42D, 0x9849_E00D);
    Round12(w);
    NextOf(w, b, 12, Block(0x730F_37C8, 0xEBD9_B42D), 0x9AEB_07A9, 0x39CC_E3BD);
    Round13(w);
    NextOf(w, b, 13, Block(0xD215_5790, 0x9AEB_07A9), 0x5A0E_FD82, 0x745C_6EEB);
    Round14(w);
    NextOf(w, b, 14, Block(0xEEB7_6942, 0x5A0E_FD82), 0xC8E4_4A81, 0x3049_1003);
    Round15(w);
    NextOf(w, b, 15, Block(0x6A47_ED81, 0xC8E4_4A81), 0xAECD_70F5, 0xA84A_DADA);
    LastKeys(w);
  }

  lemma LastKeys(w: State)
    requires IsTable(w)
    ensures Xor(0x60AE_905B, w[16]) == 0x026C_877E && Xor(0xAECD_70F5, w[17]) == 0xAE34_E023
  {
  }

  /** Word k of the tables is 0x9E3779B1 k + 0x7F4A7C15, subkeys first. */
  method EnciphersBlock(ctx: Context) returns (l: Word, r: Word)
    requires ctx.Valid()
    requires forall k :: 0 <= k < 18 ==> ctx.P[k] == (k as Word) * 0x9E37_79B1 + 0x7F4A_7C15
    requires forall k :: 0 <= k < 1024 ==> ctx.S[k] == ((18 + k) as Word) * 0x9E37_79B1 + 0x7F4A_7C15
    ensures l == 0xAE34_E023 && r == 0x026C_877E
  {
    assert IsTable(ctx.Words());
    hide IsTable, Enc;
    TableBlock(ctx.Words());
    l, r := ctx.Encrypt(0x0123_4567, 0x89AB_CDEF);
  }
}
