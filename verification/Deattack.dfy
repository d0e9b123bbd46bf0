/**
 The detector of CRC compensation attacks (deattack.c).  A packet is suspicious when some
 block that equals the initialisation vector or an earlier block has an indicator message
 whose CRC is zero.  The detector looks for such a block with a linear-probing hash table
 that it keeps and grows between calls.
 */
module Deattack {
  import opened Bytes
  import opened MachineWords
  import opened Crc32
  import opened BlockCrc
  import Numbers

  type word16 = x: int | 0 <= x < 0x10000

  const MAX_BLOCKS := 32 * 1024
  const BLOCK_SIZE := 8
  const HASH_MIN_ENTRIES := 8 * 1024 / 2
  const HASH_UNUSED: word16 := 0xffff
  const HASH_IV: word16 := 0xfffe
  const HASH_MIN_BLOCKS := 7 * BLOCK_SIZE

  type Block = b: seq<byte> | |b| == BLOCK_SIZE witness [0, 0, 0, 0, 0, 0, 0, 0]

  datatype Vector = NoVector | Vector(block: Block)

  /** What detect_attack asserts of its buffer before it starts. */
  predicate Acceptable(buf: seq<byte>) {
    |buf| % BLOCK_SIZE == 0 && |buf| <= MAX_BLOCKS * BLOCK_SIZE
  }

  function Blocks(buf: seq<byte>): nat { |buf| / BLOCK_SIZE }

  function BlockAt(buf: seq<byte>, j: nat): Block
    requires Acceptable(buf) && j < Blocks(buf)
  {
    buf[BLOCK_SIZE * j..BLOCK_SIZE * j + BLOCK_SIZE]
  }

  predicate IsVector(x: Block, iv: Vector) { iv.Vector? && iv.block == x }

  // ---------- the naive definition ----------

  /** One indicator for each of the first k blocks: is it the block s? */
  function Indicators(s: Block, buf: seq<byte>, k: nat): (flags: seq<bool>)
    requires Acceptable(buf) && k <= Blocks(buf)
    ensures |flags| == k && forall i :: 0 <= i < k ==> flags[i] == (BlockAt(buf, i) == s)
  {
    seq(k, i requires 0 <= i < k => BlockAt(buf, i) == s)
  }

  function Flags(s: Block, buf: seq<byte>, iv: Vector): seq<bool>
    requires Acceptable(buf)
  {
    (if IsVector(s, iv) then [true] else []) + Indicators(s, buf, Blocks(buf))
  }

  /** The CRC of the indicator message of block s is zero. */
  predicate Suspicious(s: Block, buf: seq<byte>, iv: Vector)
    requires Acceptable(buf)
  {
    Crc(0, AllBytes(Words(Flags(s, buf, iv)))) == 0
  }

  /** Block j equals the vector or an earlier block. */
  ghost predicate Repeats(buf: seq<byte>, iv: Vector, j: nat)
    requires Acceptable(buf) && j < Blocks(buf)
  {
    IsVector(BlockAt(buf, j), iv) || exists k :: 0 <= k < j && BlockAt(buf, k) == BlockAt(buf, j)
  }

  ghost predicate AttackAt(buf: seq<byte>, iv: Vector, j: nat)
    requires Acceptable(buf) && j < Blocks(buf)
  {
    Repeats(buf, iv, j) && Suspicious(BlockAt(buf, j), buf, iv)
  }

  ghost predicate Attack(buf: seq<byte>, iv: Vector)
    requires Acceptable(buf)
  {
    exists j :: 0 <= j < Blocks(buf) && AttackAt(buf, iv, j)
  }

  // ---------- check_crc ----------

  lemma SuspiciousIsFold(s: Block, buf: seq<byte>, iv: Vector)
    requires Acceptable(buf)
    ensures Suspicious(s, buf, iv) <==> FoldFlags(0, Flags(s, buf, iv)) == 0
  {
    hide Crc, Words, AllBytes, Fold, FoldFlags, Flags;
    var flags := Flags(s, buf, iv);
    FoldFlagsIsFold(0, flags);
    FoldIsCrc(0, Words(flags));
  }

  method CheckCrc(s: Block, buf: seq<byte>, iv: Vector) returns (detected: bool)
    requires Acceptable(buf)
    ensures detected == Suspicious(s, buf, iv)
  {
    var crc: word32 := 0;
    ghost var seen: seq<bool> := if IsVector(s, iv) then [true] else [];
    hide Update;
    if IsVector(s, iv) {
      crc := Update(crc, 1);
      crc := Update(crc, 0);
    }
    var j := 0;
    while j < Blocks(buf)
      invariant j <= Blocks(buf)
      invariant crc == FoldFlags(0, seen + Indicators(s, buf, j))
    {
      FoldFlagsConcat(0, seen + Indicators(s, buf, j), [BlockAt(buf, j) == s]);
      assert Indicators(s, buf, j + 1) == Indicators(s, buf, j) + [BlockAt(buf, j) == s];
      assert seen + Indicators(s, buf, j + 1) == seen + Indicators(s, buf, j) + [BlockAt(buf, j) == s];
      if BlockAt(buf, j) == s {
        crc := Update(crc, 1);
        crc := Update(crc, 0);
      } else {
        crc := Update(crc, 0);
        crc := Update(crc, 0);
      }
      j := j + 1;
    }
    SuspiciousIsFold(s, buf, iv);
    detected := crc == 0;
  }

  /** Up to seven blocks no block can be suspicious, whatever the vector. */
  lemma ShortNeverSuspicious(buf: seq<byte>, iv: Vector, j: nat)
    requires Acceptable(buf) && |buf| <= HASH_MIN_BLOCKS && j < Blocks(buf)
    ensures !Suspicious(BlockAt(buf, j), buf, iv)
  {
    var s := BlockAt(buf, j);
    var flags := Flags(s, buf, iv);
    assert flags[|flags| - Blocks(buf) + j];
    FewFlagsNeverCancel(flags);
    SuspiciousIsFold(s, buf, iv);
  }

  /** So a packet of at most seven blocks is never an attack, whatever it repeats. */
  lemma ShortNeverAttack(buf: seq<byte>, iv: Vector)
    requires Acceptable(buf) && |buf| <= HASH_MIN_BLOCKS
    ensures !Attack(buf, iv)
  {
    forall j | 0 <= j < Blocks(buf) ensures !AttackAt(buf, iv, j) {
      ShortNeverSuspicious(buf, iv, j);
    }
  }

  // ---------- the hash table ----------

  /** GET_32BIT of the first bytes of a block. */
  function Hash(x: Block): nat {
    x[0] as nat * 0x100_0000 + x[1] as nat * 0x1_0000 + x[2] as nat * 0x100 + x[3] as nat
  }

  /** a & b on unsigned numbers. */
  function And(a: nat, b: nat): nat
    decreases a + b
  {
    if a == 0 || b == 0 then 0 else 2 * And(a / 2, b / 2) + (if a % 2 == 1 && b % 2 == 1 then 1 else 0)
  }

  lemma {:induction false} LowBits(a: nat, k: nat)
    ensures Numbers.Pow(2, k) > 0 && And(a, Numbers.Pow(2, k) - 1) == a % Numbers.Pow(2, k)
    decreases k
  {
    Numbers.PowPositive(2, k);
    if k > 0 {
      var w := Numbers.Pow(2, k - 1);
      Numbers.PowPositive(2, k - 1);
      assert Numbers.Pow(2, k) == 2 * w && (2 * w - 1) / 2 == w - 1 && (2 * w - 1) % 2 == 1;
      LowBits(a / 2, k - 1);
      Numbers.HalfRemainder(a, w);
    }
  }

  /** Masking with n - 1 is reduction modulo n, n being a power of two. */
  lemma MaskIsModulo(a: nat, n: nat)
    requires n in {0x1000, 0x4000, 0x1_0000}
    ensures And(a, n - 1) == a % n < n
  {
    Numbers.PowersOfTwo();
    LowBits(a, 12);
    LowBits(a, 14);
    LowBits(a, 16);
  }

  /** e cells after the first one probed, going round the table. */
  function Cell(start: nat, e: nat, n: nat): nat {
    if start + e < n then start + e else start + e - n
  }

  function Start(x: Block, n: nat): (i: nat)
    requires n > 0
    ensures i < n
  {
    Hash(x) % n
  }

  lemma MaskedHash(x: Block, n: nat)
    requires n in {0x1000, 0x4000, 0x1_0000}
    ensures And(Hash(x), n - 1) == Start(x, n)
  {
    hide And, Hash;
    MaskIsModulo(Hash(x), n);
  }

  /** The entry v stands for block x. */
  predicate Stands(v: word16, x: Block, buf: seq<byte>, iv: Vector)
    requires Acceptable(buf)
  {
    if v == HASH_IV then IsVector(x, iv) else v < Blocks(buf) && BlockAt(buf, v) == x
  }

  /** The first e cells of the probe for x are in use. */
  ghost predicate Used(h: seq<word16>, start: nat, e: nat)
    requires start < |h|
  {
    e <= |h| && forall k :: 0 <= k < e ==> h[Cell(start, k, |h|)] != HASH_UNUSED
  }

  /** Probing for x meets an entry that stands for x before it meets an unused one. */
  ghost predicate Found(h: seq<word16>, x: Block, buf: seq<byte>, iv: Vector)
    requires Acceptable(buf) && |h| > 0
  {
    exists e :: 0 <= e < |h| && Used(h, Start(x, |h|), e + 1) && Stands(h[Cell(Start(x, |h|), e, |h|)], x, buf, iv)
  }

  /** After j blocks: all of them and the vector are in the table, and nothing else. */
  ghost predicate Filled(h: seq<word16>, buf: seq<byte>, iv: Vector, j: nat)
    requires Acceptable(buf) && j <= Blocks(buf) && |h| > 0
  {
    && (iv.Vector? ==> Found(h, iv.block, buf, iv))
    && (forall k :: 0 <= k < j ==> Found(h, BlockAt(buf, k), buf, iv))
    && (forall i :: 0 <= i < |h| ==> h[i] == HASH_UNUSED || (h[i] == HASH_IV && iv.Vector?) || h[i] < j)
  }

  /** An update of an unused cell, or of one by an equal block, keeps what is found. */
  lemma FoundStays(h: seq<word16>, i: nat, v: word16, x: Block, buf: seq<byte>, iv: Vector)
    requires Acceptable(buf) && i < |h|
    requires Found(h, x, buf, iv)
    requires v != HASH_UNUSED
    requires h[i] == HASH_UNUSED || (Stands(h[i], x, buf, iv) ==> Stands(v, x, buf, iv))
    ensures Found(h[i := v], x, buf, iv)
  {
    var start := Start(x, |h|);
    var e :| 0 <= e < |h| && Used(h, start, e + 1) && Stands(h[Cell(start, e, |h|)], x, buf, iv);
    var g := h[i := v];
    assert h[Cell(start, e, |h|)] != HASH_UNUSED;
    assert Used(g, start, e + 1);
  }

  /** The first e cells of the probe for x are in use and none of them stands for x. */
  ghost predicate Probed(h: seq<word16>, x: Block, e: nat, buf: seq<byte>, iv: Vector)
    requires Acceptable(buf) && |h| > 0
    ensures Probed(h, x, e, buf, iv) ==> e < |h|
  {
    && e < |h| && Used(h, Start(x, |h|), e)
    && forall k :: 0 <= k < e ==> !Stands(h[Cell(Start(x, |h|), k, |h|)], x, buf, iv)
  }

  /** How many cells after start the cell free comes. */
  function Distance(start: nat, free: nat, n: nat): int {
    if start <= free then free - start else free + n - start
  }

  lemma ProbeStarts(h: seq<word16>, x: Block, free: nat, buf: seq<byte>, iv: Vector)
    requires Acceptable(buf) && free < |h|
    ensures Probed(h, x, 0, buf, iv) && Cell(Start(x, |h|), 0, |h|) == Start(x, |h|)
    ensures 0 <= Distance(Start(x, |h|), free, |h|) < |h|
  {
  }

  lemma NextCell(start: nat, e: nat, n: nat)
    requires start < n && e < n
    ensures Cell(start, e + 1, n) == (Cell(start, e, n) + 1) % n
  {
    var i := Cell(start, e, n);
    if i + 1 < n {
      assert (i + 1) % n == i + 1;
    } else {
      assert (i + 1) % n == 0;
    }
  }

  /** A cell in use that does not stand for x: the probe goes on, and nearer to the free cell. */
  lemma ProbeGoesOn(h: seq<word16>, x: Block, e: nat, free: nat, buf: seq<byte>, iv: Vector)
    requires Acceptable(buf) && free < |h| && h[free] == HASH_UNUSED
    requires e <= Distance(Start(x, |h|), free, |h|) && Probed(h, x, e, buf, iv)
    requires var v := h[Cell(Start(x, |h|), e, |h|)]; v != HASH_UNUSED && !Stands(v, x, buf, iv)
    ensures e + 1 <= Distance(Start(x, |h|), free, |h|) && Probed(h, x, e + 1, buf, iv)
    ensures Cell(Start(x, |h|), e + 1, |h|) == (Cell(Start(x, |h|), e, |h|) + 1) % |h|
  {
    hide Start, Stands;
    var start, n := Start(x, |h|), |h|;
    NextCell(start, e, n);
    assert Cell(start, Distance(start, free, n), n) == free;
  }

  /** A probe for x that met no entry for x and then an unused one: x is not in the table. */
  lemma NotFound(h: seq<word16>, x: Block, e: nat, buf: seq<byte>, iv: Vector)
    requires Acceptable(buf) && |h| > 0
    requires Probed(h, x, e, buf, iv)
    requires h[Cell(Start(x, |h|), e, |h|)] == HASH_UNUSED
    ensures !Found(h, x, buf, iv) && Used(h, Start(x, |h|), e)
  {
  }

  lemma EntryIsBlock(h: seq<word16>, i: nat, j: nat, buf: seq<byte>, iv: Vector)
    requires Acceptable(buf) && j <= Blocks(buf) && i < |h|
    requires Filled(h, buf, iv, j) && h[i] != HASH_UNUSED && h[i] != HASH_IV
    ensures h[i] < j
  {
  }

  lemma IsFound(h: seq<word16>, x: Block, e: nat, buf: seq<byte>, iv: Vector)
    requires Acceptable(buf) && |h| > 0
    requires Probed(h, x, e, buf, iv)
    requires var v := h[Cell(Start(x, |h|), e, |h|)]; v != HASH_UNUSED && Stands(v, x, buf, iv)
    ensures Found(h, x, buf, iv) && Used(h, Start(x, |h|), e)
  {
    assert Used(h, Start(x, |h|), e + 1);
  }

  /** The table with only the vector in it. */
  lemma VectorFilled(h: seq<word16>, buf: seq<byte>, iv: Vector)
    requires Acceptable(buf) && |h| > 0
    requires forall i :: 0 <= i < |h| ==> h[i] == HASH_UNUSED
    ensures !iv.Vector? ==> Filled(h, buf, iv, 0)
    ensures iv.Vector? ==> Filled(h[Start(iv.block, |h|) := HASH_IV], buf, iv, 0)
  {
    if iv.Vector? {
      var start := Start(iv.block, |h|);
      var g := h[start := HASH_IV];
      assert Cell(start, 0, |h|) == start;
      assert Used(g, start, 0 + 1);
      assert Found(g, iv.block, buf, iv);
    }
  }

  lemma {:induction false} Pigeonhole(used: set<nat>, n: nat)
    requires forall i :: 0 <= i < n ==> i in used
    ensures |used| >= n
    decreases n
  {
    if n > 0 {
      Pigeonhole(used - {n - 1}, n - 1);
    }
  }

  /** Every cell in use is in the set. */
  ghost predicate Covered(h: seq<word16>, used: set<nat>) {
    forall i :: 0 <= i < |h| && h[i] != HASH_UNUSED ==> i in used
  }

  lemma CoveredStep(h: seq<word16>, used: set<nat>, i: nat, v: word16)
    requires Covered(h, used) && i < |h|
    ensures Covered(h[i := v], used + {i}) && |used + {i}| <= |used| + 1
  {
  }

  /** With fewer entries than cells, some cell is unused. */
  lemma FreeCell(h: seq<word16>, used: set<nat>) returns (free: nat)
    requires Covered(h, used)
    requires |used| < |h|
    ensures free < |h| && h[free] == HASH_UNUSED
  {
    if forall i :: 0 <= i < |h| ==> h[i] != HASH_UNUSED {
      Pigeonhole(used, |h|);
      assert false;
    }
    free :| free < |h| && h[free] == HASH_UNUSED;
  }

  /** The block put into the table is found there. */
  lemma Inserted(h: seq<word16>, x: Block, e: nat, j: word16, buf: seq<byte>, iv: Vector)
    requires Acceptable(buf) && e < |h| && j < Blocks(buf) && BlockAt(buf, j) == x
    requires Used(h, Start(x, |h|), e)
    ensures Found(h[Cell(Start(x, |h|), e, |h|) := j], x, buf, iv)
  {
    var g := h[Cell(Start(x, |h|), e, |h|) := j];
    assert Used(g, Start(x, |h|), e + 1);
  }

  lemma FilledStep(h: seq<word16>, e: nat, j: nat, buf: seq<byte>, iv: Vector)
    requires Acceptable(buf) && j < Blocks(buf) && e < |h|
    requires Filled(h, buf, iv, j)
    requires Used(h, Start(BlockAt(buf, j), |h|), e)
    requires var v := h[Cell(Start(BlockAt(buf, j), |h|), e, |h|)];
             v == HASH_UNUSED || Stands(v, BlockAt(buf, j), buf, iv)
    ensures Filled(h[Cell(Start(BlockAt(buf, j), |h|), e, |h|) := j], buf, iv, j + 1)
  {
    var x := BlockAt(buf, j);
    var i := Cell(Start(x, |h|), e, |h|);
    assert i < |h|;
    Inserted(h, x, e, j, buf, iv);
    hide Start, Found, Used, Cell, Stands, BlockAt, Blocks, Acceptable;
    if iv.Vector? { Kept(h, i, j, x, iv.block, buf, iv); }
    forall k | 0 <= k < j ensures Found(h[i := j], BlockAt(buf, k), buf, iv) {
      Kept(h, i, j, x, BlockAt(buf, k), buf, iv);
    }
  }

  /** Recording block j in an unused cell, or over an equal block, loses no other block y. */
  lemma Kept(h: seq<word16>, i: nat, j: nat, x: Block, y: Block, buf: seq<byte>, iv: Vector)
    requires Acceptable(buf) && j < Blocks(buf) && i < |h| && BlockAt(buf, j) == x
    requires h[i] == HASH_UNUSED || Stands(h[i], x, buf, iv)
    requires Found(h, y, buf, iv)
    ensures Found(h[i := j], y, buf, iv)
  {
    hide Found, BlockAt;
    FoundStays(h, i, j, y, buf, iv);
  }

  /** Block j is found among the earlier ones exactly when it repeats one of them. */
  lemma FoundIsRepeat(h: seq<word16>, j: nat, buf: seq<byte>, iv: Vector)
    requires Acceptable(buf) && j < Blocks(buf) && |h| > 0
    requires Filled(h, buf, iv, j)
    ensures Found(h, BlockAt(buf, j), buf, iv) <==> Repeats(buf, iv, j)
  {
    var x := BlockAt(buf, j);
    var start := Start(x, |h|);
    if Found(h, x, buf, iv) {
      var e :| 0 <= e < |h| && Used(h, start, e + 1) && Stands(h[Cell(start, e, |h|)], x, buf, iv);
      var v := h[Cell(start, e, |h|)];
      assert v != HASH_UNUSED;
      if v != HASH_IV { assert v < j && BlockAt(buf, v) == x; }
    }
  }

  // ---------- the detector ----------

  class Detector {
    var h: array?<word16>
    var n: nat

    ghost predicate Valid()
      reads this
    {
      n in {0x1000, 0x4000, 0x1_0000} && (h != null ==> h.Length == n)
    }

    constructor ()
      ensures Valid() && h == null
    {
      h := null;
      n := HASH_MIN_ENTRIES;
    }

    method DetectAttack(buf: seq<byte>, iv: Vector) returns (detected: bool)
      requires Valid() && Acceptable(buf)
      modifies this, h
      ensures Valid() && (h == old(h) || fresh(h)) && old(n) <= n
      ensures h != null && n > Blocks(buf) + 1
      ensures detected <==> Attack(buf, iv)
    {
      var l := n;
      while l < Blocks(buf) * 3 / 2
        invariant l in {0x1000, 0x4000, 0x1_0000} && l >= n
        decreases 0x1_0000 - l
      {
        l := l * 4;
      }
      if h == null {
        n := l;
        h := new word16[n];
      } else if l > n {
        n := l;
        h := new word16[n];
      }
      if |buf| <= HASH_MIN_BLOCKS {
        detected := Compare(buf, iv);
      } else {
        detected := Probe(buf, iv);
      }
    }

    /** The short packets: every pair of blocks is compared. */
    method Compare(buf: seq<byte>, iv: Vector) returns (detected: bool)
      requires Acceptable(buf) && |buf| <= HASH_MIN_BLOCKS
      ensures detected <==> Attack(buf, iv)
    {
      var j := 0;
      while j < Blocks(buf) {
        var c := BlockAt(buf, j);
        if IsVector(c, iv) {
          var suspicious := CheckCrc(c, buf, iv);
          if suspicious {
            assert AttackAt(buf, iv, j);
            return true;
          } else {
            break;
          }
        }
        var k := 0;
        while k < j {
          if BlockAt(buf, k) == c {
            var suspicious := CheckCrc(c, buf, iv);
            if suspicious {
              assert AttackAt(buf, iv, j);
              return true;
            } else {
              break;
            }
          }
          k := k + 1;
        }
        j := j + 1;
      }
      ShortNeverAttack(buf, iv);
      return false;
    }

    /**
     The probe for block j: it stops at an unused cell or at an entry equal to the block, and
     answers whether the attack is at block j.
     */
    method Lookup(buf: seq<byte>, iv: Vector, j: nat, ghost used: set<nat>)
      returns (i: nat, detected: bool, ghost e: nat)
      requires Valid() && Acceptable(buf) && h != null && j < Blocks(buf)
      requires Filled(h[..], buf, iv, j)
      requires |used| < n && Covered(h[..], used)
      ensures e < n && i == Cell(Start(BlockAt(buf, j), n), e, n) < n
      ensures Used(h[..], Start(BlockAt(buf, j), n), e)
      ensures h[i] == HASH_UNUSED || Stands(h[i], BlockAt(buf, j), buf, iv)
      ensures detected <==> AttackAt(buf, iv, j)
    {
      hide Start, Hash, And, Found, Filled, Used, Probed, Covered, Suspicious, Repeats, BlockAt, Blocks, Acceptable,
          Distance;
      var c := BlockAt(buf, j);
      ghost var t: seq<word16> := h[..];
      ghost var free := FreeCell(t, used);
      FoundIsRepeat(t, j, buf, iv);
      ProbeStarts(t, c, free, buf, iv);
      MaskedHash(c, n);
      i, detected, e := And(Hash(c), n - 1), false, 0;
      while h[i] != HASH_UNUSED
        invariant h[..] == t
        invariant e <= Distance(Start(c, n), free, n) && i == Cell(Start(c, n), e, n) < n
        invariant Probed(t, c, e, buf, iv)
        decreases Distance(Start(c, n), free, n) - e
      {
        assert h[i] == t[i];
        if h[i] == HASH_IV {
          if IsVector(c, iv) {
            detected := CheckCrc(c, buf, iv);
            IsFound(t, c, e, buf, iv);
            return;
          }
        } else {
          EntryIsBlock(t, i, j, buf, iv);
          if c == BlockAt(buf, h[i]) {
            detected := CheckCrc(c, buf, iv);
            IsFound(t, c, e, buf, iv);
            return;
          }
        }
        ProbeGoesOn(t, c, e, free, buf, iv);
        MaskIsModulo(i + 1, n);
        i := And(i + 1, n - 1);
        e := e + 1;
      }
      assert h[i] == t[i];
      NotFound(t, c, e, buf, iv);
    }

    /** Empties the table and puts the vector into it. */
    method Clear(buf: seq<byte>, iv: Vector)
      requires Valid() && Acceptable(buf) && h != null
      modifies h
      ensures Filled(h[..], buf, iv, 0)
      ensures Covered(h[..], if iv.Vector? then {Start(iv.block, n)} else {})
    {
      var i := 0;
      while i < n
        invariant i <= n
        invariant forall k :: 0 <= k < i ==> h[k] == HASH_UNUSED
      {
        h[i] := HASH_UNUSED;
        i := i + 1;
      }
      ghost var t: seq<word16> := h[..];
      VectorFilled(t, buf, iv);
      if iv.Vector? {
        MaskedHash(iv.block, n);
        hide Filled, Start, Hash, And;
        h[And(Hash(iv.block), n - 1)] := HASH_IV;
        assert h[..] == t[Start(iv.block, n) := HASH_IV];
      }
    }

    /** Looks block j up and, unless the attack is there, records it. */
    method Enter(buf: seq<byte>, iv: Vector, j: nat, ghost used: set<nat>) returns (detected: bool, ghost at: nat)
      requires Valid() && Acceptable(buf) && h != null && j < Blocks(buf)
      requires Filled(h[..], buf, iv, j)
      requires |used| < n && Covered(h[..], used)
      modifies h
      ensures detected <==> AttackAt(buf, iv, j)
      ensures !detected ==> Filled(h[..], buf, iv, j + 1)
      ensures !detected ==> Covered(h[..], used + {at}) && |used + {at}| <= |used| + 1
    {
      assert j < 0x10000;
      hide Start, Hash, Filled, Used, Stands, Covered, AttackAt, BlockAt, Blocks, Acceptable, Cell;
      var i;
      ghost var e;
      i, detected, e := Lookup(buf, iv, j, used);
      at := i;
      if !detected {
        ghost var before: seq<word16> := h[..];
        assert h[i] == before[i];
        FilledStep(before, e, j, buf, iv);
        CoveredStep(before, used, i, j);
        h[i] := j;
        assert h[..] == before[i := j];
      }
    }

    /** The long packets: equal blocks are found by hashing. */
    method Probe(buf: seq<byte>, iv: Vector) returns (detected: bool)
      requires Valid() && Acceptable(buf) && h != null && n > Blocks(buf) + 1
      modifies h
      ensures detected <==> Attack(buf, iv)
    {
      hide Start, Hash, Filled, Covered, AttackAt, BlockAt, Blocks, Acceptable;
      Clear(buf, iv);
      ghost var used: set<nat> := if iv.Vector? then {Start(iv.block, n)} else {};
      var j := 0;
      while j < Blocks(buf)
        invariant j <= Blocks(buf)
        invariant Filled(h[..], buf, iv, j)
        invariant |used| <= j + 1
        invariant Covered(h[..], used)
        invariant forall k :: 0 <= k < j ==> !AttackAt(buf, iv, k)
      {
        ghost var i;
        detected, i := Enter(buf, iv, j, used);
        if detected {
          return;
        }
        used := used + {i};
        j := j + 1;
      }
      return false;
    }
  }
}
