/** The 32-bit string hash (map_get_hash): MurmurHash3_x86_32 with seed 0.

    Every stage is a bijection on 32-bit words, so inputs of one length that differ in one block, or
    only behind the last block, never collide. */
module Murmur {

  const N: bv32 := 0xe6546b64

  // ----- the operations on words, each with its inverse

  function TimesC1(x: bv32): bv32 { x * 0xcc9e2d51 }

  function OverC1(x: bv32): bv32 { x * 0xdee13bb1 }

  function TimesC2(x: bv32): bv32 { x * 0x1b873593 }

  function OverC2(x: bv32): bv32 { x * 0x56ed309b }

  function TimesF1(x: bv32): bv32 { x * 0x85ebca6b }

  function OverF1(x: bv32): bv32 { x * 0xa5cb9243 }

  function TimesF2(x: bv32): bv32 { x * 0xc2b2ae35 }

  function OverF2(x: bv32): bv32 { x * 0x7ed1b41d }

  function Xor(x: bv32, y: bv32): bv32 { x ^ y }

  function Rotl15(x: bv32): bv32 { (x << 15) | (x >> 17) }

  function Rotr15(x: bv32): bv32 { (x >> 15) | (x << 17) }

  function Rotl13(x: bv32): bv32 { (x << 13) | (x >> 19) }

  function Rotr13(x: bv32): bv32 { (x >> 13) | (x << 19) }

  function Fold16(x: bv32): bv32 { x ^ (x >> 16) }

  function Fold13(x: bv32): bv32 { x ^ (x >> 13) }

  function Unfold13(x: bv32): bv32 { x ^ (x >> 13) ^ (x >> 26) }

  function TimesFivePlus(x: bv32): bv32 { x * 5 + N }

  function MinusOverFive(x: bv32): bv32 { (x - N) * 0xcccccccd }

  lemma InverseC1(x: bv32)
    ensures OverC1(x * 0xcc9e2d51) == x
    ensures TimesC1(x * 0xdee13bb1) == x
  {
  }

  lemma UndoC1(x: bv32)
    ensures OverC1(TimesC1(x)) == x
  {
    hide OverC1;
    InverseC1(x);
  }

  lemma RedoC1(x: bv32)
    ensures TimesC1(OverC1(x)) == x
  {
    hide TimesC1;
    InverseC1(x);
  }

  lemma InverseC2(x: bv32)
    ensures OverC2(x * 0x1b873593) == x
    ensures TimesC2(x * 0x56ed309b) == x
  {
  }

  lemma UndoC2(x: bv32)
    ensures OverC2(TimesC2(x)) == x
  {
    hide OverC2;
    InverseC2(x);
  }

  lemma RedoC2(x: bv32)
    ensures TimesC2(OverC2(x)) == x
  {
    hide TimesC2;
    InverseC2(x);
  }

  lemma InverseF1(x: bv32)
    ensures OverF1(x * 0x85ebca6b) == x
    ensures TimesF1(x * 0xa5cb9243) == x
  {
  }

  lemma UndoF1(x: bv32)
    ensures OverF1(TimesF1(x)) == x
  {
    hide OverF1;
    InverseF1(x);
  }

  lemma RedoF1(x: bv32)
    ensures TimesF1(OverF1(x)) == x
  {
    hide TimesF1;
    InverseF1(x);
  }

  lemma InverseF2(x: bv32)
    ensures OverF2(x * 0xc2b2ae35) == x
    ensures TimesF2(x * 0x7ed1b41d) == x
  {
  }

  lemma UndoF2(x: bv32)
    ensures OverF2(TimesF2(x)) == x
  {
    hide OverF2;
    InverseF2(x);
  }

  lemma RedoF2(x: bv32)
    ensures TimesF2(OverF2(x)) == x
  {
    hide TimesF2;
    InverseF2(x);
  }

  lemma UndoFive(x: bv32)
    ensures MinusOverFive(TimesFivePlus(x)) == x == TimesFivePlus(MinusOverFive(x))
  {
    assert x * 5 * 0xcccccccd == x;
    assert (x - N) * 0xcccccccd * 5 == x - N;
  }

  lemma UndoRotations(x: bv32)
    ensures Rotr15(Rotl15(x)) == x == Rotl15(Rotr15(x))
    ensures Rotr13(Rotl13(x)) == x == Rotl13(Rotr13(x))
  {
  }

  lemma InverseFolds(x: bv32)
    ensures Fold16(x ^ (x >> 16)) == x
    ensures Unfold13(x ^ (x >> 13)) == x
    ensures Fold13(x ^ (x >> 13) ^ (x >> 26)) == x
  {
  }

  lemma Folded16(x: bv32)
    ensures Fold16(x) == x ^ (x >> 16)
  {
  }

  lemma UndoFold16(x: bv32)
    ensures Fold16(Fold16(x)) == x
  {
    hide Fold16;
    Folded16(x);
    InverseFolds(x);
  }

  lemma UndoFold13(x: bv32)
    ensures Unfold13(Fold13(x)) == x
  {
    hide Unfold13;
    InverseFolds(x);
  }

  lemma RedoFold13(x: bv32)
    ensures Fold13(Unfold13(x)) == x
  {
    hide Fold13;
    InverseFolds(x);
  }

  lemma UndoXor(x: bv32, y: bv32)
    ensures Xor(Xor(x, y), y) == x && Xor(Xor(y, x), y) == x
  {
  }

  // ----- the hash on values

  function MixBlock(k: bv32): bv32 { TimesC2(Rotl15(TimesC1(k))) }

  function Round(h: bv32, k: bv32): bv32 { TimesFivePlus(Rotl13(Xor(h, MixBlock(k)))) }

  function Finish(h: bv32): bv32 { Fold16(TimesF2(Fold13(TimesF1(Fold16(h))))) }

  /** Four bytes read as a little-endian word. */
  function Word(b0: bv8, b1: bv8, b2: bv8, b3: bv8): bv32 {
    (b0 as bv32) | ((b1 as bv32) << 8) | ((b2 as bv32) << 16) | ((b3 as bv32) << 24)
  }

  function Block(data: seq<bv8>, i: nat): bv32
    requires 4 * i + 4 <= |data|
  {
    Word(data[4 * i], data[4 * i + 1], data[4 * i + 2], data[4 * i + 3])
  }

  /** The state after the first `n` blocks. */
  function Body(data: seq<bv8>, n: nat): bv32
    requires 4 * n <= |data|
  {
    if n == 0 then 0 else Round(Body(data, n - 1), Block(data, n - 1))
  }

  function Tail(data: seq<bv8>): seq<bv8> { data[|data| / 4 * 4..] }

  /** The bytes behind the last block, read as a little-endian word. */
  function TailWord(tail: seq<bv8>): bv32
    requires 1 <= |tail| <= 3
  {
    Word(tail[0], if |tail| >= 2 then tail[1] else 0, if |tail| >= 3 then tail[2] else 0, 0)
  }

  function AddTail(h: bv32, tail: seq<bv8>): bv32
    requires |tail| <= 3
  {
    if tail == [] then h else Xor(h, MixBlock(TailWord(tail)))
  }

  function Hash(data: seq<bv8>): bv32
    requires |data| < 0x1_0000_0000
  {
    if data == [] then 0
    else Finish(Xor(AddTail(Body(data, |data| / 4), Tail(data)), |data| as bv32))
  }

  // ----- the program's loop

  /** The program's switch falls through from the third byte to the first. */
  method ReadTail(tail: seq<bv8>) returns (k: bv32)
    requires 1 <= |tail| <= 3
    ensures k == TailWord(tail)
  {
    k := 0;
    if |tail| >= 3 { k := k ^ ((tail[2] as bv32) << 16); }
    if |tail| >= 2 { k := k ^ ((tail[1] as bv32) << 8); }
    k := k ^ (tail[0] as bv32);
  }

  method MapGetHash(data: seq<bv8>) returns (h: bv32)
    requires |data| < 0x1_0000_0000
    ensures h == Hash(data)
  {
    hide TimesC1, TimesC2, TimesF1, TimesF2, Xor, Rotl15, Rotl13, Fold16, Fold13, TimesFivePlus, Block, TailWord;
    if |data| == 0 {
      return 0;
    }
    var nblocks := |data| / 4;
    h := 0;
    var i := 0;
    while i < nblocks
      invariant 0 <= i <= nblocks && h == Body(data, i)
    {
      var k := Block(data, i);
      k := TimesC1(k);
      k := Rotl15(k);
      k := TimesC2(k);
      h := Xor(h, k);
      h := Rotl13(h);
      h := TimesFivePlus(h);
      i := i + 1;
    }
    var tail := data[nblocks * 4..];
    if |tail| > 0 {
      var k := ReadTail(tail);
      k := TimesC1(k);
      k := Rotl15(k);
      k := TimesC2(k);
      h := Xor(h, k);
    }
    h := Xor(h, |data| as bv32);
    h := Fold16(h);
    h := TimesF1(h);
    h := Fold13(h);
    h := TimesF2(h);
    h := Fold16(h);
  }

  // ----- bijections

  function UnmixBlock(m: bv32): bv32 { OverC1(Rotr15(OverC2(m))) }

  lemma MixBlockIsBijective(k: bv32)
    ensures UnmixBlock(MixBlock(k)) == k == MixBlock(UnmixBlock(k))
  {
    hide TimesC1, TimesC2, OverC1, OverC2, Rotl15, Rotr15;
    UndoC1(k);
    UndoRotations(TimesC1(k));
    UndoC2(Rotl15(TimesC1(k)));
    RedoC2(k);
    UndoRotations(OverC2(k));
    RedoC1(Rotr15(OverC2(k)));
  }

  /** The state before a round, from the state after it and its block. */
  function StateBefore(after: bv32, k: bv32): bv32 { Xor(Rotr13(MinusOverFive(after)), MixBlock(k)) }

  /** The block of a round, from the states before and after it. */
  function BlockBetween(before: bv32, after: bv32): bv32 { UnmixBlock(Xor(Rotr13(MinusOverFive(after)), before)) }

  /** A round is a bijection in the state for each block, and in the block for each state. */
  lemma RoundIsBijective(h: bv32, k: bv32, after: bv32)
    ensures StateBefore(Round(h, k), k) == h && Round(StateBefore(after, k), k) == after
    ensures BlockBetween(h, Round(h, k)) == k && Round(h, BlockBetween(h, after)) == after
  {
    hide Xor, Rotl13, Rotr13, TimesFivePlus, MinusOverFive, MixBlock, UnmixBlock;
    var x, y := Xor(h, MixBlock(k)), Rotr13(MinusOverFive(after));
    UndoRotations(x);
    UndoFive(Rotl13(x));
    UndoXor(h, MixBlock(k));
    UndoXor(MixBlock(k), h);
    MixBlockIsBijective(k);
    UndoXor(y, MixBlock(k));
    UndoXor(y, h);
    MixBlockIsBijective(Xor(y, h));
    XorSwap(h, Xor(y, h));
    UndoRotations(MinusOverFive(after));
    UndoFive(after);
  }

  lemma XorSwap(x: bv32, y: bv32)
    ensures Xor(x, y) == Xor(y, x)
  {
  }

  function Unfinish(h: bv32): bv32 { Fold16(OverF1(Unfold13(OverF2(Fold16(h))))) }

  lemma FinishIsBijective(h: bv32)
    ensures Unfinish(Finish(h)) == h == Finish(Unfinish(h))
  {
    hide TimesF1, TimesF2, OverF1, OverF2, Fold16, Fold13, Unfold13;
    var a := Fold16(h);
    var b := TimesF1(a);
    var c := TimesF2(Fold13(b));
    UndoFold16(c);
    UndoF2(Fold13(b));
    UndoFold13(b);
    UndoF1(a);
    UndoFold16(h);
    var d := OverF2(a);
    var e := OverF1(Unfold13(d));
    UndoFold16(e);
    RedoF1(Unfold13(d));
    RedoFold13(d);
    RedoF2(a);
  }

  // ----- no collisions

  lemma WordIsInjective(a0: bv8, a1: bv8, a2: bv8, a3: bv8, b0: bv8, b1: bv8, b2: bv8, b3: bv8)
    requires Word(a0, a1, a2, a3) == Word(b0, b1, b2, b3)
    ensures a0 == b0 && a1 == b1 && a2 == b2 && a3 == b3
  {
  }

  /** The inputs agree except within the bytes `from` to `to`. */
  ghost predicate DifferOnlyIn(a: seq<bv8>, b: seq<bv8>, from: nat, to: nat) {
    && |a| == |b|
    && forall i :: 0 <= i < |a| && (i < from || to <= i) ==> a[i] == b[i]
  }

  lemma {:induction false} SameBody(a: seq<bv8>, b: seq<bv8>, n: nat)
    requires |a| == |b| && 4 * n <= |a| && forall i :: 0 <= i < 4 * n ==> a[i] == b[i]
    ensures Body(a, n) == Body(b, n)
  {
    hide Round, Word;
    if n > 0 { SameBody(a, b, n - 1); }
  }

  /** A difference in one block stays a difference through the rounds behind it. */
  lemma {:induction false} BodiesDiffer(a: seq<bv8>, b: seq<bv8>, block: nat, n: nat)
    requires block < n && 4 * n <= |a| == |b| && DifferOnlyIn(a, b, 4 * block, 4 * block + 4) && a != b
    ensures Body(a, n) != Body(b, n)
  {
    hide Round, Word, StateBefore, BlockBetween;
    if n == block + 1 {
      SameBody(a, b, block);
      BlocksDiffer(a, b, block);
      RoundIsBijective(Body(a, block), Block(a, block), 0);
      RoundIsBijective(Body(b, block), Block(b, block), 0);
    } else {
      BodiesDiffer(a, b, block, n - 1);
      assert Block(a, n - 1) == Block(b, n - 1);
      RoundIsBijective(Body(a, n - 1), Block(a, n - 1), 0);
      RoundIsBijective(Body(b, n - 1), Block(b, n - 1), 0);
    }
  }

  lemma BlocksDiffer(a: seq<bv8>, b: seq<bv8>, i: nat)
    requires 4 * i + 4 <= |a| && DifferOnlyIn(a, b, 4 * i, 4 * i + 4) && a != b
    ensures Block(a, i) != Block(b, i)
  {
    hide Word;
    if Block(a, i) == Block(b, i) {
      WordIsInjective(a[4 * i], a[4 * i + 1], a[4 * i + 2], a[4 * i + 3],
                      b[4 * i], b[4 * i + 1], b[4 * i + 2], b[4 * i + 3]);
    }
    assert Block(a, i) == Block(b, i) ==> a == b;
  }

  lemma TailsDiffer(a: seq<bv8>, b: seq<bv8>, h: bv32)
    requires |a| == |b| <= 3 && a != b
    ensures AddTail(h, a) != AddTail(h, b)
  {
    hide Word, MixBlock, UnmixBlock, Xor;
    if TailWord(a) == TailWord(b) {
      WordIsInjective(a[0], if |a| >= 2 then a[1] else 0, if |a| >= 3 then a[2] else 0, 0,
                      b[0], if |b| >= 2 then b[1] else 0, if |b| >= 3 then b[2] else 0, 0);
    }
    assert TailWord(a) == TailWord(b) ==> a == b;
    MixBlockIsBijective(TailWord(a));
    MixBlockIsBijective(TailWord(b));
    XorSwap(h, MixBlock(TailWord(a)));
    XorSwap(h, MixBlock(TailWord(b)));
    UndoXor(MixBlock(TailWord(a)), h);
    UndoXor(MixBlock(TailWord(b)), h);
  }

  lemma FinishedStatesDiffer(x: bv32, y: bv32, n: bv32)
    requires x != y
    ensures Finish(Xor(x, n)) != Finish(Xor(y, n))
  {
    hide Finish, Unfinish, Xor;
    FinishIsBijective(Xor(x, n));
    FinishIsBijective(Xor(y, n));
    UndoXor(x, n);
    UndoXor(y, n);
  }

  lemma AddTailKeepsDifference(x: bv32, y: bv32, tail: seq<bv8>)
    requires x != y && |tail| <= 3
    ensures AddTail(x, tail) != AddTail(y, tail)
  {
    hide Xor, MixBlock, TailWord;
    if tail != [] {
      UndoXor(x, MixBlock(TailWord(tail)));
      UndoXor(y, MixBlock(TailWord(tail)));
    }
  }

  /** Inputs of one length that differ within one 4-byte block have different hashes. */
  lemma OneBlockNeverCollides(a: seq<bv8>, b: seq<bv8>, block: nat)
    requires |a| < 0x1_0000_0000 && 4 * block + 4 <= |a|
    requires DifferOnlyIn(a, b, 4 * block, 4 * block + 4) && a != b
    ensures Hash(a) != Hash(b)
  {
    hide Body, AddTail, Finish, Xor;
    var n := |a| / 4;
    BodiesDiffer(a, b, block, n);
    assert Tail(a) == Tail(b);
    AddTailKeepsDifference(Body(a, n), Body(b, n), Tail(a));
    FinishedStatesDiffer(AddTail(Body(a, n), Tail(a)), AddTail(Body(b, n), Tail(a)), |a| as bv32);
  }

  /** Inputs of one length that differ only behind the last whole block have different hashes. */
  lemma TailNeverCollides(a: seq<bv8>, b: seq<bv8>)
    requires |a| < 0x1_0000_0000
    requires DifferOnlyIn(a, b, |a| / 4 * 4, |a|) && a != b
    ensures Hash(a) != Hash(b)
  {
    hide Body, AddTail, Finish, Xor;
    var n := |a| / 4;
    SameBody(a, b, n);
    assert Tail(a) != Tail(b) by {
      assert a == a[..4 * n] + Tail(a) && b == b[..4 * n] + Tail(b) && a[..4 * n] == b[..4 * n];
    }
    TailsDiffer(Tail(a), Tail(b), Body(a, n));
    FinishedStatesDiffer(AddTail(Body(a, n), Tail(a)), AddTail(Body(a, n), Tail(b)), |a| as bv32);
  }

  // ----- known answers

  lemma BlockLiterals()
    ensures TimesC1(0x6c6c6568) == 0xd24f5de8 && Rotl15(0xd24f5de8) == 0xaef46927 && TimesC2(0xaef46927) == 0xa0ae7465
    ensures Xor(0, 0xa0ae7465) == 0xa0ae7465 && Rotl13(0xa0ae7465) == 0xce8cb415
    ensures TimesFivePlus(0xce8cb415) == 0xef13efcd
  {
  }

  lemma TailLiterals()
    ensures TimesC1(0x6f) == 0xb895a61f && Rotl15(0xb895a61f) == 0xd30fdc4a && TimesC2(0xd30fdc4a) == 0x73bcd07e
    ensures Xor(0xef13efcd, 0x73bcd07e) == 0x9caf3fb3
  {
  }

  lemma FinishLiterals()
    ensures Xor(0x9caf3fb3, 5) == 0x9caf3fb6 && Fold16(0x9caf3fb6) == 0x9cafa319 && TimesF1(0x9cafa319) == 0xc90de573
    ensures Fold13(0xc90de573) == 0xc90bad1c && TimesF2(0xc90bad1c) == 0x248bdecc && Fold16(0x248bdecc) == 0x248bfa47
  {
  }

  lemma WordLiterals()
    ensures Word(0x68, 0x65, 0x6c, 0x6c) == 0x6c6c6568 && Word(0x6f, 0, 0, 0) == 0x6f
  {
  }

  /** The bytes of "hello", a block and a tail of one byte, hash to 0x248bfa47. */
  lemma HashOfHello()
    ensures Hash([0x68, 0x65, 0x6c, 0x6c, 0x6f]) == 0x248bfa47
  {
    hide TimesC1, TimesC2, TimesF1, TimesF2, Xor, Rotl15, Rotl13, Fold16, Fold13, TimesFivePlus, Word;
    BlockLiterals();
    TailLiterals();
    FinishLiterals();
    WordLiterals();
    var data: seq<bv8> := [0x68, 0x65, 0x6c, 0x6c, 0x6f];
    assert Body(data, 0) == 0 && Block(data, 0) == 0x6c6c6568;
    assert Body(data, 1) == 0xef13efcd;
    assert Tail(data) == [0x6f];
  }

  lemma ThreeByteLiterals()
    ensures Word(0x61, 0x62, 0x63, 0) == 0x636261
    ensures TimesC1(0x636261) == 0x9b9b2db1 && Rotl15(0x9b9b2db1) == 0x96d8cdcd && TimesC2(0x96d8cdcd) == 0xa7349db7
    ensures Xor(0, 0xa7349db7) == 0xa7349db7 && Xor(0xa7349db7, 3) == 0xa7349db4
  {
  }

  lemma ThreeByteTail()
    ensures AddTail(0, [0x61, 0x62, 0x63]) == 0xa7349db7
  {
    hide TimesC1, TimesC2, Xor, Rotl15, Word;
    ThreeByteLiterals();
  }

  lemma LengthThree(n: nat)
    requires n == 3
    ensures n as bv32 == 3
  {
  }

  lemma ThreeByteFinish()
    ensures Fold16(0xa7349db4) == 0xa7343a80 && TimesF1(0xa7343a80) == 0x4c7d7380 && Fold13(0x4c7d7380) == 0x4c7f106b
    ensures TimesF2(0x4c7f106b) == 0xb3dd2027 && Fold16(0xb3dd2027) == 0xb3dd93fa
  {
  }

  /** The bytes of "abc", a tail of three bytes and no block, hash to 0xb3dd93fa; no bytes hash to 0. */
  lemma HashOfAbc()
    ensures Hash([0x61, 0x62, 0x63]) == 0xb3dd93fa && Hash([]) == 0
  {
    hide TimesC1, TimesC2, TimesF1, TimesF2, Xor, Rotl15, Fold16, Fold13, Word, AddTail;
    ThreeByteTail();
    ThreeByteLiterals();
    ThreeByteFinish();
    var data: seq<bv8> := [0x61, 0x62, 0x63];
    assert Body(data, 0) == 0 && Tail(data) == data;
    LengthThree(|data|);
  }

  // ----- the formula

  lemma C1Formula(x: bv32)
    ensures TimesC1(x) == x * 0xcc9e2d51
  {
  }

  lemma C2Formula(x: bv32)
    ensures TimesC2(x) == x * 0x1b873593
  {
  }

  lemma F1Formula(x: bv32)
    ensures TimesF1(x) == x * 0x85ebca6b
  {
  }

  lemma F2Formula(x: bv32)
    ensures TimesF2(x) == x * 0xc2b2ae35
  {
  }

  lemma RotationFormulas(x: bv32)
    ensures Rotl15(x) == (x << 15) | (x >> 17) && Rotl13(x) == (x << 13) | (x >> 19)
  {
  }

  lemma FoldFormulas(x: bv32)
    ensures Fold16(x) == x ^ (x >> 16) && Fold13(x) == x ^ (x >> 13)
  {
  }

  lemma FiveFormula(x: bv32)
    ensures TimesFivePlus(x) == x * 5 + 0xe6546b64
  {
  }

  lemma XorFormulas(x: bv32)
    ensures Xor(0, x) == x && Xor(x, 4) == x ^ 4
  {
  }

  /** How a block or a tail is scrambled, step by step. */
  ghost predicate Scrambles(k: bv32, k1: bv32, k2: bv32, k3: bv32) {
    && k1 == k * 0xcc9e2d51
    && k2 == (k1 << 15) | (k1 >> 17)
    && k3 == k2 * 0x1b873593
  }

  /** How the state takes in a scrambled block, from 0. */
  ghost predicate TakesIn(k3: bv32, h1: bv32, h2: bv32) {
    && h1 == (k3 << 13) | (k3 >> 19)
    && h2 == h1 * 5 + 0xe6546b64
  }

  /** How the state is finished. */
  ghost predicate Finishes(h3: bv32, h4: bv32, h5: bv32, h6: bv32, h7: bv32, h8: bv32) {
    && h4 == h3 ^ (h3 >> 16)
    && h5 == h4 * 0x85ebca6b
    && h6 == h5 ^ (h5 >> 13)
    && h7 == h6 * 0xc2b2ae35
    && h8 == h7 ^ (h7 >> 16)
  }

  lemma MixFormula(k: bv32, k1: bv32, k2: bv32, k3: bv32)
    requires Scrambles(k, k1, k2, k3)
    ensures MixBlock(k) == k3
  {
    hide TimesC1, TimesC2, Rotl15;
    C1Formula(k);
    RotationFormulas(k1);
    C2Formula(k2);
  }

  lemma RoundFormula(k: bv32, k3: bv32, h1: bv32, h2: bv32)
    requires MixBlock(k) == k3 && TakesIn(k3, h1, h2)
    ensures Round(0, k) == h2
  {
    hide MixBlock, Xor, Rotl13, TimesFivePlus;
    XorFormulas(k3);
    RotationFormulas(k3);
    FiveFormula(h1);
  }

  lemma FinishFormula(h3: bv32, h4: bv32, h5: bv32, h6: bv32, h7: bv32, h8: bv32)
    requires Finishes(h3, h4, h5, h6, h7, h8)
    ensures Finish(h3) == h8
  {
    hide TimesF1, TimesF2, Fold16, Fold13;
    FoldFormulas(h3);
    F1Formula(h4);
    FoldFormulas(h5);
    F2Formula(h6);
    FoldFormulas(h7);
  }

  /** The hash of a single block, written out in these steps. */
  lemma OneBlockFormula(data: seq<bv8>, k1: bv32, k2: bv32, k3: bv32, h1: bv32, h2: bv32, h4: bv32, h5: bv32, h6: bv32,
                        h7: bv32, h8: bv32)
    requires |data| == 4 && Scrambles(Word(data[0], data[1], data[2], data[3]), k1, k2, k3)
    requires TakesIn(k3, h1, h2) && Finishes(h2 ^ 4, h4, h5, h6, h7, h8)
    ensures Hash(data) == h8
  {
    hide Scrambles, TakesIn, Finishes, MixBlock, Round, Xor, Finish, Word;
    var k := Word(data[0], data[1], data[2], data[3]);
    MixFormula(k, k1, k2, k3);
    RoundFormula(k, k3, h1, h2);
    XorFormulas(h2);
    FinishFormula(h2 ^ 4, h4, h5, h6, h7, h8);
    assert Tail(data) == [];
    assert Body(data, 0) == 0 && Block(data, 0) == k;
    assert Body(data, 1) == h2;
  }
}
