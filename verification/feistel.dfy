/** Blowfish's Feistel network (Provos and Mazieres, "A Future-Adaptable Password Scheme"),
    for any round function and any number of rounds. */
module Feistel {

  type Word = bv32

  datatype Block = Block(l: Word, r: Word)

  /** The number of subkeys that Blowfish has. */
  const SUBKEYS := 18

  function Xor(a: Word, b: Word): Word {
    a ^ b
  }

  lemma XorCommutes(a: Word, b: Word)
    ensures Xor(a, b) == Xor(b, a)
  {
  }

  lemma XorAssociates(a: Word, b: Word, c: Word)
    ensures Xor(Xor(a, b), c) == Xor(a, Xor(b, c))
  {
  }

  lemma XorCancels(a: Word, b: Word)
    ensures Xor(Xor(a, b), b) == a
  {
  }

  lemma XorZero(a: Word)
    ensures Xor(a, 0) == a
  {
  }

  lemma XorSwap(a: Word, b: Word, c: Word)
    ensures Xor(Xor(a, b), c) == Xor(Xor(a, c), b)
  {
    hide Xor;
    XorAssociates(a, b, c);
    XorCommutes(b, c);
    XorAssociates(a, c, b);
  }

  lemma XorUndo(r: Word, x: Word, k: Word)
    ensures Xor(Xor(Xor(r, x), k), x) == Xor(r, k)
  {
    hide Xor;
    XorAssociates(Xor(r, x), k, x);
    XorCommutes(k, x);
    XorAssociates(Xor(r, x), x, k);
    XorCancels(r, x);
  }

  /** One round mixes a subkey into the left half, feeds it to the round function, and swaps the
      halves. */
  function Round(f: Word -> Word, k: Word, b: Block): Block {
    Block(Xor(b.r, f(Xor(b.l, k))), Xor(b.l, k))
  }

  function Rounds(f: Word -> Word, p: seq<Word>, b: Block, n: nat): Block
    requires n <= |p|
  {
    if n == 0 then b else Round(f, p[n - 1], Rounds(f, p, b, n - 1))
  }

  /** The whole cipher: |p| - 2 rounds, the last swap undone, and the last two subkeys mixed in. */
  function Encipher(f: Word -> Word, p: seq<Word>, b: Block): Block
    requires 2 <= |p|
  {
    var n := |p| - 2;
    var c := Rounds(f, p, b, n);
    Block(Xor(c.r, p[n + 1]), Xor(c.l, p[n]))
  }

  function Reversed(p: seq<Word>): (q: seq<Word>)
    ensures |q| == |p|
    ensures forall i :: 0 <= i < |p| ==> q[i] == p[|p| - 1 - i]
  {
    seq(|p|, i requires 0 <= i < |p| => p[|p| - 1 - i])
  }

  /** A round with the same subkey undoes a round, once the halves are crossed over; k and m are
      the subkeys of the two rounds after it. */
  lemma RoundUndone(f: Word -> Word, j: Word, k: Word, m: Word, b: Block)
    ensures
      var c := Round(f, j, b);
      Round(f, m, Block(Xor(c.r, m), Xor(c.l, k))) == Block(Xor(b.r, k), Xor(b.l, j))
  {
    hide Xor;
    XorCancels(Xor(b.l, j), m);
    XorUndo(b.r, f(Xor(b.l, j)), k);
  }

  /** j rounds of the reversed network on the ciphertext reach the state of the forward network
      j rounds before its end. */
  lemma {:induction false} Unwind(f: Word -> Word, p: seq<Word>, b: Block, j: nat)
    requires 2 <= |p| && j <= |p| - 2
    ensures
      var n := |p| - 2;
      var c := Rounds(f, p, b, n - j);
      Rounds(f, Reversed(p), Encipher(f, p, b), j)
      == Block(Xor(c.r, p[n + 1 - j]), Xor(c.l, p[n - j]))
  {
    hide Xor;
    if j == 0 {
    } else {
      Unwind(f, p, b, j - 1);
      var n := |p| - 2;
      RoundUndone(f, p[n - j], p[n + 1 - j], p[n + 2 - j], Rounds(f, p, b, n - j));
    }
  }

  /** Running the network with the subkeys reversed inverts it. */
  lemma ReversedKeysDecipher(f: Word -> Word, p: seq<Word>, b: Block)
    requires 2 <= |p|
    ensures Encipher(f, Reversed(p), Encipher(f, p, b)) == b
  {
    hide Xor;
    Unwind(f, p, b, |p| - 2);
    XorCancels(b.l, p[0]);
    XorCancels(b.r, p[1]);
  }

  /** The cipher is a bijection on blocks: equal ciphertexts come from equal plaintexts, and every
      block is the ciphertext of its deciphering. */
  lemma EncipherIsBijective(f: Word -> Word, p: seq<Word>)
    requires 2 <= |p|
    ensures forall b, c :: Encipher(f, p, b) == Encipher(f, p, c) ==> b == c
    ensures forall c :: Encipher(f, p, Encipher(f, Reversed(p), c)) == c
  {
    forall b, c | Encipher(f, p, b) == Encipher(f, p, c)
      ensures b == c
    {
      ReversedKeysDecipher(f, p, b);
      ReversedKeysDecipher(f, p, c);
    }
    forall c
      ensures Encipher(f, p, Encipher(f, Reversed(p), c)) == c
    {
      ReversedKeysDecipher(f, Reversed(p), c);
      assert Reversed(Reversed(p)) == p;
    }
  }
}
