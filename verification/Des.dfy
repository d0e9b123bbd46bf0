/**
 DES (des.c), for any S-box table and any key schedule.  Encryption and decryption undo each
 other because FP is IP backwards and the rounds are run with the subkeys reversed.
 */
module Des {
  import opened Bytes
  import opened MachineWords

  /** The key schedule, and the combined S-box and P tables des_SPtrans. */
  datatype DesTables = DesTables(keySchedule: seq<word32>, spTrans: seq<seq<word32>>)

  type DesContext = ks: DesTables |
      && |ks.keySchedule| == 32 && |ks.spTrans| == 8
      && (forall i :: 0 <= i < 8 ==> |ks.spTrans[i]| == 64)
    witness DesTables(seq(32, _ => 0), seq(8, _ => seq(64, _ => 0)))

  // ---------- IP and FP ----------

  /** PERM_OP(l, r, t, n, m): the bits of m in r are exchanged with those n places higher in l. */
  function PermOp(x: Block, n: word32, m: word32): Block
    requires n <= 32
  {
    var t := ((x.l >> n) ^ x.r) & m;
    Block(x.l ^ (t << n), x.r ^ t)
  }

  /** PERM_OP(r, l, t, n, m). */
  function PermOpSwapped(x: Block, n: word32, m: word32): Block
    requires n <= 32
  {
    Swap(PermOp(Swap(x), n, m))
  }

  function IP(x: Block): Block {
    var x := PermOpSwapped(x, 4, 0x0f0f0f0f);
    var x := PermOp(x, 16, 0x0000ffff);
    var x := PermOpSwapped(x, 2, 0x33333333);
    var x := PermOp(x, 8, 0x00ff00ff);
    PermOpSwapped(x, 1, 0x55555555)
  }

  function FP(x: Block): Block {
    var x := PermOp(x, 1, 0x55555555);
    var x := PermOpSwapped(x, 8, 0x00ff00ff);
    var x := PermOp(x, 2, 0x33333333);
    var x := PermOpSwapped(x, 16, 0x0000ffff);
    PermOp(x, 4, 0x0f0f0f0f)
  }

  lemma MoveBack4(x: Block)
    ensures PermOp(PermOp(x, 4, 0x0f0f0f0f), 4, 0x0f0f0f0f) == x
  {
  }

  lemma MoveBack16(x: Block)
    ensures PermOp(PermOp(x, 16, 0x0000ffff), 16, 0x0000ffff) == x
  {
  }

  lemma MoveBack2(x: Block)
    ensures PermOp(PermOp(x, 2, 0x33333333), 2, 0x33333333) == x
  {
  }

  lemma MoveBack8(x: Block)
    ensures PermOp(PermOp(x, 8, 0x00ff00ff), 8, 0x00ff00ff) == x
  {
  }

  lemma MoveBack1(x: Block)
    ensures PermOp(PermOp(x, 1, 0x55555555), 1, 0x55555555) == x
  {
  }

  /** The moves of IP and FP undo themselves. */
  lemma PermOpInverse(x: Block)
    ensures PermOp(PermOp(x, 4, 0x0f0f0f0f), 4, 0x0f0f0f0f) == x
    ensures PermOpSwapped(PermOpSwapped(x, 4, 0x0f0f0f0f), 4, 0x0f0f0f0f) == x
    ensures PermOp(PermOp(x, 16, 0x0000ffff), 16, 0x0000ffff) == x
    ensures PermOpSwapped(PermOpSwapped(x, 16, 0x0000ffff), 16, 0x0000ffff) == x
    ensures PermOp(PermOp(x, 2, 0x33333333), 2, 0x33333333) == x
    ensures PermOpSwapped(PermOpSwapped(x, 2, 0x33333333), 2, 0x33333333) == x
    ensures PermOp(PermOp(x, 8, 0x00ff00ff), 8, 0x00ff00ff) == x
    ensures PermOpSwapped(PermOpSwapped(x, 8, 0x00ff00ff), 8, 0x00ff00ff) == x
    ensures PermOp(PermOp(x, 1, 0x55555555), 1, 0x55555555) == x
    ensures PermOpSwapped(PermOpSwapped(x, 1, 0x55555555), 1, 0x55555555) == x
  {
    hide PermOp;
    MoveBack4(x);
    MoveBack4(Swap(x));
    MoveBack16(x);
    MoveBack16(Swap(x));
    MoveBack2(x);
    MoveBack2(Swap(x));
    MoveBack8(x);
    MoveBack8(Swap(x));
    MoveBack1(x);
    MoveBack1(Swap(x));
  }

  lemma ExchangedMove(x: Block, n: word32, m: word32)
    requires n <= 32
    ensures PermOp(Swap(x), n, m) == Swap(PermOpSwapped(x, n, m))
    ensures PermOpSwapped(Swap(x), n, m) == Swap(PermOp(x, n, m))
  {
    hide PermOp;
  }

  /** FP on exchanged words is IP with its moves in reverse order. */
  lemma ExchangedFP(z: Block)
    ensures var z1 := PermOpSwapped(z, 1, 0x55555555);
            var z2 := PermOp(z1, 8, 0x00ff00ff);
            var z3 := PermOpSwapped(z2, 2, 0x33333333);
            var z4 := PermOp(z3, 16, 0x0000ffff);
            Swap(FP(Swap(z))) == PermOpSwapped(z4, 4, 0x0f0f0f0f)
  {
    hide PermOp, PermOpSwapped;
    var z1 := PermOpSwapped(z, 1, 0x55555555);
    var z2 := PermOp(z1, 8, 0x00ff00ff);
    var z3 := PermOpSwapped(z2, 2, 0x33333333);
    var z4 := PermOp(z3, 16, 0x0000ffff);
    ExchangedMove(z, 1, 0x55555555);
    ExchangedMove(z1, 8, 0x00ff00ff);
    ExchangedMove(z2, 2, 0x33333333);
    ExchangedMove(z3, 16, 0x0000ffff);
    ExchangedMove(z4, 4, 0x0f0f0f0f);
  }

  /** FP with the roles of the words exchanged undoes IP, and the other way round. */
  lemma PermutationsInverse(x: Block)
    ensures Swap(FP(Swap(IP(x)))) == x
    ensures IP(Swap(FP(Swap(x)))) == x
  {
    hide PermOp, PermOpSwapped;
    ExchangedFP(IP(x));
    ExchangedFP(x);
    var x1 := PermOpSwapped(x, 4, 0x0f0f0f0f);
    var x2 := PermOp(x1, 16, 0x0000ffff);
    var x3 := PermOpSwapped(x2, 2, 0x33333333);
    var x4 := PermOp(x3, 8, 0x00ff00ff);
    PermOpInverse(x);
    PermOpInverse(x1);
    PermOpInverse(x2);
    PermOpInverse(x3);
    PermOpInverse(x4);
    var y1 := PermOpSwapped(x, 1, 0x55555555);
    var y2 := PermOp(y1, 8, 0x00ff00ff);
    var y3 := PermOpSwapped(y2, 2, 0x33333333);
    var y4 := PermOp(y3, 16, 0x0000ffff);
    PermOpInverse(x);
    PermOpInverse(y1);
    PermOpInverse(y2);
    PermOpInverse(y3);
    PermOpInverse(y4);
  }

  // ---------- the rounds ----------

  function RotL1(a: word32): word32 { (a << 1) | (a >> 31) }
  function RotR1(a: word32): word32 { (a >> 1) | (a << 31) }

  lemma RotInverse(a: word32)
    ensures RotL1(RotR1(a)) == a == RotR1(RotL1(a))
  {
  }

  function Six(a: word32): bv6 { (a & 0x3f) as bv6 }

  /** des_SPtrans[box][(a >> n) & 0x3f] */
  function Substitute(ks: DesContext, box: nat, a: word32, n: word32): word32
    requires box < 8 && n <= 32
  {
    ks.spTrans[box][Six(a >> n) as nat]
  }

  function Turned4(v: word32): word32 { (v >> 4) + (v << 28) }

  function Combined(a: word32, b: word32, c: word32, d: word32, e: word32, f: word32, g: word32, h: word32): word32 {
    a | b | c | d | e | f | g | h
  }

  /** What D_ENCRYPT(L, R, S) mixes into L. */
  function Mix(ks: DesContext, r: word32, s: nat): word32
    requires s + 1 < 32
  {
    var u := Xor(r, ks.keySchedule[s]);
    var t := Turned4(Xor(r, ks.keySchedule[s + 1]));
    Combined(Substitute(ks, 1, t, 0), Substitute(ks, 3, t, 8), Substitute(ks, 5, t, 16), Substitute(ks, 7, t, 24),
             Substitute(ks, 0, u, 0), Substitute(ks, 2, u, 8), Substitute(ks, 4, u, 16), Substitute(ks, 6, u, 24))
  }

  /** D_ENCRYPT(l, r, s). */
  function Round(ks: DesContext, x: Block, s: nat): Block
    requires s + 1 < 32
  {
    Block(Xor(x.l, Mix(ks, x.r, s)), x.r)
  }

  /** D_ENCRYPT(l, r, s) and then D_ENCRYPT(r, l, t). */
  function TwoRounds(ks: DesContext, x: Block, s: nat, t: nat): Block
    requires s + 1 < 32 && t + 1 < 32
  {
    Swap(Round(ks, Swap(Round(ks, x, s)), t))
  }

  /** The first n double rounds of encryption: subkeys 0, 2, 4, ... */
  function Forward(ks: DesContext, x: Block, n: nat): Block
    requires n <= 8
  {
    if n == 0 then x else TwoRounds(ks, Forward(ks, x, n - 1), 4 * n - 4, 4 * n - 2)
  }

  /** The first n double rounds of decryption: subkeys 30, 28, 26, ... */
  function Backward(ks: DesContext, x: Block, n: nat): Block
    requires n <= 8
  {
    if n == 0 then x else TwoRounds(ks, Backward(ks, x, n - 1), 34 - 4 * n, 32 - 4 * n)
  }

  function Enter(x: Block): Block {
    var x := IP(x);
    Block(RotL1(x.r), RotL1(x.l))
  }

  function Leave(x: Block): Block {
    Swap(FP(Block(RotR1(x.r), RotR1(x.l))))
  }

  /** des_encrypt: the words left in output. */
  function Transform(ks: DesContext, x: Block, encrypt: bool): Block
  {
    Leave(if encrypt then Forward(ks, Enter(x), 8) else Backward(ks, Enter(x), 8))
  }

  /** What is left after the last permutation comes back, halves exchanged, through the first one. */
  lemma LeaveEnter(x: Block)
    ensures Enter(Leave(x)) == Swap(x)
    ensures Leave(Swap(Enter(x))) == x
  {
    hide IP, FP, RotL1, RotR1;
    var y := IP(x);
    PermutationsInverse(Block(RotR1(x.l), RotR1(x.r)));
    PermutationsInverse(x);
    RotInverse(x.l);
    RotInverse(x.r);
    RotInverse(y.l);
    RotInverse(y.r);
  }

  lemma RoundInverse(ks: DesContext, x: Block, s: nat)
    requires s + 1 < 32
    ensures Round(ks, Round(ks, x, s), s) == x
  {
    hide Mix;
    XorCancels(x.l, Mix(ks, x.r, s));
  }

  /** Two rounds run again on exchanged halves, with the subkeys exchanged, are undone. */
  lemma TwoRoundsInverse(ks: DesContext, x: Block, s: nat, t: nat)
    requires s + 1 < 32 && t + 1 < 32
    ensures TwoRounds(ks, Swap(TwoRounds(ks, x, s, t)), t, s) == Swap(x)
  {
    hide Round;
    RoundInverse(ks, x, s);
    RoundInverse(ks, Swap(Round(ks, x, s)), t);
  }

  /** Decryption retraces the double rounds of encryption, the last one first. */
  lemma {:induction false} BackwardRetraces(ks: DesContext, x: Block, n: nat)
    requires n <= 8
    ensures Backward(ks, Swap(Forward(ks, x, 8)), n) == Swap(Forward(ks, x, 8 - n))
    decreases n
  {
    hide TwoRounds;
    if n > 0 {
      BackwardRetraces(ks, x, n - 1);
      TwoRoundsInverse(ks, Forward(ks, x, 8 - n), 32 - 4 * n, 34 - 4 * n);
    }
  }

  lemma {:induction false} ForwardRetraces(ks: DesContext, x: Block, n: nat)
    requires n <= 8
    ensures Forward(ks, Swap(Backward(ks, x, 8)), n) == Swap(Backward(ks, x, 8 - n))
    decreases n
  {
    hide TwoRounds;
    if n > 0 {
      ForwardRetraces(ks, x, n - 1);
      TwoRoundsInverse(ks, Backward(ks, x, 8 - n), 4 * n - 2, 4 * n - 4);
    }
  }

  /** des_encrypt with either flag undoes des_encrypt with the other. */
  lemma TransformInverse(ks: DesContext, x: Block, encrypt: bool)
    ensures Transform(ks, Transform(ks, x, encrypt), !encrypt) == x
  {
    var y := Enter(x);
    BackwardRetraces(ks, y, 8);
    ForwardRetraces(ks, y, 8);
    LeaveEnter(x);
    LeaveEnter(Forward(ks, y, 8));
    LeaveEnter(Backward(ks, y, 8));
    assert Forward(ks, y, 0) == Backward(ks, y, 0) == y;
    hide Enter, Leave, Forward, Backward;
  }

  /** des_encrypt as a function on blocks. */
  function Cipher(ks: DesContext, encrypt: bool): Block -> Block {
    x => Transform(ks, x, encrypt)
  }

  lemma CipherInverse(ks: DesContext, encrypt: bool)
    ensures forall x :: Cipher(ks, !encrypt)(Cipher(ks, encrypt)(x)) == x
  {
    forall x ensures Cipher(ks, !encrypt)(Cipher(ks, encrypt)(x)) == x {
      TransformInverse(ks, x, encrypt);
    }
  }

  /** des_encrypt. */
  method Encrypt(l: word32, r: word32, ks: DesContext, encrypt: bool) returns (output: Block)
    ensures output == Cipher(ks, encrypt)(Block(l, r))
  {
    hide Round, IP, FP, RotL1, RotR1;
    var x := IP(Block(l, r));
    x := Block(RotL1(x.r), RotL1(x.l));
    ghost var start, n := x, 0;
    if encrypt {
      var i := 0;
      while i < 32
        invariant n <= 8 && i == 4 * n
        invariant x == Forward(ks, start, n)
      {
        x := Round(ks, x, i);
        x := Swap(Round(ks, Swap(x), i + 2));
        i := i + 4;
        n := n + 1;
      }
    } else {
      var i := 30;
      while i > 0
        invariant n <= 8 && i == 30 - 4 * n
        invariant x == Backward(ks, start, n)
      {
        x := Round(ks, x, i);
        x := Swap(Round(ks, Swap(x), i - 2));
        i := i - 4;
        n := n + 1;
      }
    }
    x := FP(Block(RotR1(x.r), RotR1(x.l)));
    output := Block(x.r, x.l);
  }
}
