/**
 memmove (memmove.c): overlapping copies, in whole words where the addresses allow it.
 Addresses are indices into one memory.
 */
module Memmove {
  import opened Bytes

  const WORD_SIZE := 4

  /** Words are read and written at multiples of their size only. */
  predicate Aligned(a: nat) { a % WORD_SIZE == 0 }

  lemma AlignedNext(a: nat, b: nat)
    requires b == a + 4
    ensures Aligned(a) <==> Aligned(b)
  {
  }

  lemma {:induction false} AlignedWords(a: nat, k: nat)
    ensures Aligned(a) <==> Aligned(a + 4 * k)
    decreases k
  {
    if k > 0 {
      AlignedWords(a, k - 1);
      AlignedNext(a + 4 * (k - 1), a + 4 * k);
    }
  }

  /** The memory now, after the n octets at src of memory m were moved to dst; nothing else changed. */
  ghost predicate Moved(m: seq<byte>, mem: array<byte>, dst: nat, src: nat, n: nat)
    reads mem
  {
    && |m| == mem.Length && dst + n <= |m| && src + n <= |m|
    && (forall k {:trigger mem[k]} :: dst <= k < dst + n ==> mem[k] == m[k - dst + src])
    && (forall k {:trigger mem[k]} :: 0 <= k < dst || dst + n <= k < |m| ==> mem[k] == m[k])
  }

  // ---------- forward: the first done octets have been moved ----------

  method ByteForward(mem: array<byte>, dst: nat, src: nat, ghost m: seq<byte>, ghost done: nat, d: nat, s: nat)
    requires dst < src && d == dst + done && s == src + done < mem.Length && Moved(m, mem, dst, src, done)
    modifies mem
    ensures Moved(m, mem, dst, src, done + 1)
  {
    mem[d] := mem[s];
  }

  /** The whole word is read before it is written. */
  method WordForward(mem: array<byte>, dst: nat, src: nat, ghost m: seq<byte>, ghost done: nat, d: nat, s: nat)
    requires dst < src && d == dst + done && s == src + done && s + 4 <= mem.Length && Moved(m, mem, dst, src, done)
    requires Aligned(d) && Aligned(s)
    modifies mem
    ensures Moved(m, mem, dst, src, done + 4)
  {
    mem[d], mem[d + 1], mem[d + 2], mem[d + 3] := mem[s], mem[s + 1], mem[s + 2], mem[s + 3];
  }

  /** TLOOP(*dst++ = *src++) */
  method BytesForward(mem: array<byte>, dst: nat, src: nat, ghost m: seq<byte>, done: nat, t: nat)
    requires dst < src && src + done + t <= mem.Length && Moved(m, mem, dst, src, done)
    modifies mem
    ensures Moved(m, mem, dst, src, done + t)
  {
    hide *;
    var k := 0;
    while k < t
      invariant k <= t && Moved(m, mem, dst, src, done + k)
    {
      ByteForward(mem, dst, src, m, done + k, dst + done + k, src + done + k);
      k := k + 1;
    }
  }

  method WordsForward(mem: array<byte>, dst: nat, src: nat, ghost m: seq<byte>, done: nat, t: nat)
    requires dst < src && src + done + 4 * t <= mem.Length && Moved(m, mem, dst, src, done)
    requires t > 0 ==> Aligned(dst + done) && Aligned(src + done)
    modifies mem
    ensures Moved(m, mem, dst, src, done + 4 * t)
  {
    hide *;
    var k := 0;
    while k < t
      invariant k <= t && Moved(m, mem, dst, src, done + 4 * k)
    {
      AlignedWords(dst + done, k);
      AlignedWords(src + done, k);
      WordForward(mem, dst, src, m, done + 4 * k, dst + done + 4 * k, src + done + 4 * k);
      k := k + 1;
    }
  }

  // ---------- backward: the octets from dst on have been moved ----------

  method ByteBackward(mem: array<byte>, dst: nat, src: nat, ghost m: seq<byte>, ghost done: nat)
    requires 0 < src < dst && dst + done <= mem.Length && Moved(m, mem, dst, src, done)
    modifies mem
    ensures Moved(m, mem, dst - 1, src - 1, done + 1)
  {
    mem[dst - 1] := mem[src - 1];
  }

  method WordBackward(mem: array<byte>, dst: nat, src: nat, ghost m: seq<byte>, ghost done: nat)
    requires 4 <= src < dst && dst + done <= mem.Length && Moved(m, mem, dst, src, done)
    requires Aligned(dst - 4) && Aligned(src - 4)
    modifies mem
    ensures Moved(m, mem, dst - 4, src - 4, done + 4)
  {
    var d, s := dst - 4, src - 4;
    mem[d], mem[d + 1], mem[d + 2], mem[d + 3] := mem[s], mem[s + 1], mem[s + 2], mem[s + 3];
  }

  /** TLOOP(*--dst = *--src) */
  method BytesBackward(mem: array<byte>, dst: nat, src: nat, ghost m: seq<byte>, ghost done: nat, t: nat)
    requires t <= src < dst && dst + done <= mem.Length && Moved(m, mem, dst, src, done)
    modifies mem
    ensures Moved(m, mem, dst - t, src - t, done + t)
  {
    hide *;
    var k := 0;
    while k < t
      invariant k <= t && Moved(m, mem, dst - k, src - k, done + k)
    {
      ByteBackward(mem, dst - k, src - k, m, done + k);
      k := k + 1;
    }
  }

  method WordsBackward(mem: array<byte>, dst: nat, src: nat, ghost m: seq<byte>, ghost done: nat, t: nat)
    requires 4 * t <= src < dst && dst + done <= mem.Length && Moved(m, mem, dst, src, done)
    requires t > 0 ==> Aligned(dst) && Aligned(src)
    modifies mem
    ensures Moved(m, mem, dst - 4 * t, src - 4 * t, done + 4 * t)
  {
    hide *;
    var k := 0;
    while k < t
      invariant k <= t && Moved(m, mem, dst - 4 * k, src - 4 * k, done + 4 * k)
    {
      AlignedWords(dst - 4 * k - 4, k + 1);
      AlignedWords(src - 4 * k - 4, k + 1);
      WordBackward(mem, dst - 4 * k, src - 4 * k, m, done + 4 * k);
      k := k + 1;
    }
  }

  // ---------- memmove ----------

  /** The octets copied first so that both addresses are aligned, or all when they cannot be. */
  function FrontBytes(dst: nat, src: nat, length: nat): (t: nat)
    ensures t <= length
    ensures t == length || (Aligned(src + t) && Aligned(dst + t))
  {
    if src % WORD_SIZE == 0 && dst % WORD_SIZE == 0 then 0
    else if src % WORD_SIZE != dst % WORD_SIZE || length < WORD_SIZE then length
    else WORD_SIZE - src % WORD_SIZE
  }

  /** The same from the ends dst and src of both regions. */
  function BackBytes(dst: nat, src: nat, length: nat): (t: nat)
    requires length <= dst && length <= src
    ensures t <= length
    ensures t == length || (Aligned(src - t) && Aligned(dst - t))
  {
    if src % WORD_SIZE == 0 && dst % WORD_SIZE == 0 then 0
    else if src % WORD_SIZE != dst % WORD_SIZE || length <= WORD_SIZE then length
    else src % WORD_SIZE
  }

  function WholeWords(length: nat): (w: nat)
    ensures 4 * w <= length
  {
    length / WORD_SIZE
  }

  method Forward(mem: array<byte>, dst: nat, src: nat, length: nat)
    requires dst < src && src + length <= mem.Length
    modifies mem
    ensures Moved(old(mem[..]), mem, dst, src, length)
  {
    ghost var m := mem[..];
    assert Moved(m, mem, dst, src, 0);
    hide *;
    var t := FrontBytes(dst, src, length);
    BytesForward(mem, dst, src, m, 0, t);
    var words := WholeWords(length - t);
    WordsForward(mem, dst, src, m, t, words);
    t := t + 4 * words;
    BytesForward(mem, dst, src, m, t, length - t);
  }

  method Backward(mem: array<byte>, dst: nat, src: nat, length: nat)
    requires src < dst && dst + length <= mem.Length
    modifies mem
    ensures Moved(old(mem[..]), mem, dst, src, length)
  {
    ghost var m := mem[..];
    var d: nat, s: nat := dst + length, src + length;
    assert Moved(m, mem, d, s, 0);
    hide *;
    var t := BackBytes(d, s, length);
    BytesBackward(mem, d, s, m, 0, t);
    Rest(mem, d - t, s - t, m, t, length - t);
  }

  /** The words that are left, and then the octets that are left. */
  method Rest(mem: array<byte>, dst: nat, src: nat, ghost m: seq<byte>, ghost done: nat, left: nat)
    requires left <= src < dst && dst + done <= mem.Length && Moved(m, mem, dst, src, done)
    requires left > 0 ==> Aligned(dst) && Aligned(src)
    modifies mem
    ensures Moved(m, mem, dst - left, src - left, done + left)
  {
    hide *;
    var words := WholeWords(left);
    WordsBackward(mem, dst, src, m, done, words);
    var t := 4 * words;
    BytesBackward(mem, dst - t, src - t, m, done + t, left - t);
  }

  /** memmove: the target holds what the source held, however they overlap; nothing else changes. */
  method Move(mem: array<byte>, dst: nat, src: nat, length: nat)
    requires dst + length <= mem.Length && src + length <= mem.Length
    modifies mem
    ensures mem[dst..dst + length] == old(mem[src..src + length])
    ensures mem[..dst] == old(mem[..dst]) && mem[dst + length..] == old(mem[dst + length..])
  {
    if length == 0 || dst == src {
    } else if dst < src {
      Forward(mem, dst, src, length);
    } else {
      Backward(mem, dst, src, length);
    }
  }
}
