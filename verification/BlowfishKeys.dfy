/**
 The Blowfish key schedule (blowfish.c:438-498), for any initial P array and S-boxes.  The key is
 read around and around, and the boxes are replaced by what the cipher makes of itself.
 */
module BlowfishKeys {
  import opened Bytes
  import opened MachineWords
  import opened Blowfish
  import Numbers

  /** Octet t of the key, read around and around. */
  function Around(key: seq<byte>, t: nat): byte
    requires key != []
  {
    key[t % |key|]
  }

  function KeyWord(key: seq<byte>, i: nat): word32
    requires key != []
  {
    Join(Around(key, 4 * i), Around(key, 4 * i + 1), Around(key, 4 * i + 2), Around(key, 4 * i + 3))
  }

  /** The P array with the key mixed in, and the S-boxes as they are. */
  function Mixed(boxes: BlowfishContext, key: seq<byte>): BlowfishContext
    requires key != []
  {
    boxes.(P := seq(18, i requires 0 <= i < 18 => Xor(boxes.P[i], KeyWord(key, i))))
  }

  /** Pair k of the words of the P array and then the S-boxes. */
  function PutPair(c: BlowfishContext, k: nat, y: Block): BlowfishContext
    requires k < 9 + 512
  {
    if k < 9 then c.(P := c.P[2 * k := y.l][2 * k + 1 := y.r])
    else c.(S := c.S[2 * k - 18 := y.l][2 * k - 17 := y.r])
  }

  /** The boxes after k pairs, and the pair written last. */
  function Generated(c: BlowfishContext, k: nat): (BlowfishContext, Block)
    requires k <= 9 + 512
  {
    if k == 0 then (c, Block(0, 0))
    else
      var (b, x) := Generated(c, k - 1);
      var y := Encipher(b, x);
      (PutPair(b, k - 1, y), y)
  }

  function Schedule(boxes: BlowfishContext, key: seq<byte>): BlowfishContext
    requires key != []
  {
    Generated(Mixed(boxes, key), 9 + 512).0
  }

  // ---------- what of the key counts ----------

  lemma XorInjective(a: word32, b: word32, c: word32)
    ensures Xor(a, b) == Xor(a, c) <==> b == c
  {
    XorCancels(a, b);
    XorCancels(a, c);
    hide Xor;
  }

  lemma SameWord(key: seq<byte>, key': seq<byte>, i: nat)
    requires key != [] && key' != []
    ensures KeyWord(key, i) == KeyWord(key', i) <==>
            forall t :: 4 * i <= t < 4 * i + 4 ==> Around(key, t) == Around(key', t)
  {
    hide Join, Cut, Around;
    CutJoin(Around(key, 4 * i), Around(key, 4 * i + 1), Around(key, 4 * i + 2), Around(key, 4 * i + 3));
    CutJoin(Around(key', 4 * i), Around(key', 4 * i + 1), Around(key', 4 * i + 2), Around(key', 4 * i + 3));
  }

  /** Two keys are mixed in alike exactly when, read around and around, they agree in 72 octets. */
  lemma SameMixture(boxes: BlowfishContext, key: seq<byte>, key': seq<byte>)
    requires key != [] && key' != []
    ensures Mixed(boxes, key) == Mixed(boxes, key') <==> forall t :: 0 <= t < 72 ==> Around(key, t) == Around(key', t)
  {
    hide Around, KeyWord, Xor;
    forall i | 0 <= i < 18
      ensures Mixed(boxes, key).P[i] == Mixed(boxes, key').P[i] <==> KeyWord(key, i) == KeyWord(key', i)
      ensures KeyWord(key, i) == KeyWord(key', i) <==>
              forall t :: 4 * i <= t < 4 * i + 4 ==> Around(key, t) == Around(key', t)
    {
      XorInjective(boxes.P[i], KeyWord(key, i), KeyWord(key', i));
      SameWord(key, key', i);
    }
    if Mixed(boxes, key) == Mixed(boxes, key') {
      forall t | 0 <= t < 72 ensures Around(key, t) == Around(key', t) {
        assert Mixed(boxes, key).P[t / 4] == Mixed(boxes, key').P[t / 4];
      }
    } else {
      assert Mixed(boxes, key).P != Mixed(boxes, key').P;
    }
  }

  lemma AroundTwice(key: seq<byte>, t: nat)
    requires key != []
    ensures Around(key + key, t) == Around(key, t)
  {
    var n, m := |key|, |key + key|;
    var q, r := t / m, t % m;
    assert t == m * q + r;
    Doubled(n, q);
    TwiceAround(t, n, q, r);
    assert (key + key)[r] == if r < n then key[r] else key[r - n];
  }

  lemma Doubled(n: nat, q: nat)
    ensures (n + n) * q == n * (2 * q)
  {
  }

  lemma TwiceAround(t: nat, n: nat, q: nat, r: nat)
    requires t == r + n * (2 * q) && r < n + n
    ensures t % n == if r < n then r else r - n
  {
    if r < n {
      Numbers.QuotientUnique(t, n, 2 * q, r);
    } else {
      assert n * (2 * q + 1) == n * (2 * q) + n;
      Numbers.QuotientUnique(t, n, 2 * q + 1, r - n);
    }
  }

  /** A key written twice is no other key. */
  lemma TwiceTheKey(boxes: BlowfishContext, key: seq<byte>)
    requires key != []
    ensures Schedule(boxes, key + key) == Schedule(boxes, key)
  {
    forall t: nat | t < 72 ensures Around(key + key, t) == Around(key, t) {
      AroundTwice(key, t);
    }
    SameMixture(boxes, key + key, key);
    hide Mixed, Generated, Around;
  }

  // ---------- in memory ----------

  /** The index j of the loop: four octets on, around the key. */
  lemma NextStart(i: nat, n: nat)
    requires n > 0
    ensures (4 * i % n + 4) % n == 4 * (i + 1) % n
    ensures (4 * i % n + 1) % n == (4 * i + 1) % n
    ensures (4 * i % n + 2) % n == (4 * i + 2) % n
    ensures (4 * i % n + 3) % n == (4 * i + 3) % n
  {
    Later(4 * i, n, 1);
    Later(4 * i, n, 2);
    Later(4 * i, n, 3);
    Later(4 * i, n, 4);
  }

  lemma Later(m: nat, n: nat, d: nat)
    requires n > 0
    ensures (m % n + d) % n == (m + d) % n
  {
    assert m + d == m % n + d + n * (m / n);
    Numbers.ModShift(m % n + d, n, m / n);
  }

  function Boxes(P: seq<word32>, S: seq<word32>): BlowfishContext
    requires |P| == 18 && |S| == 1024
  {
    BlowfishBoxes(P, S)
  }

  /** The part of blowfish_set_key that copies the boxes and mixes in the key. */
  method MixIn(P: array<word32>, S: array<word32>, boxes: BlowfishContext, key: seq<byte>)
    requires P.Length == 18 && S.Length == 1024 && P != S && key != []
    modifies P, S
    ensures Boxes(P[..], S[..]) == Mixed(boxes, key)
  {
    hide Xor, Join;
    var i, count := 0, 0;
    while i < 256
      invariant i <= 256 && count == 4 * i && forall k :: 0 <= k < count ==> S[k] == boxes.S[k]
    {
      var j := 0;
      while j < 4
        invariant j <= 4 && count == 4 * i + j && forall k :: 0 <= k < count ==> S[k] == boxes.S[k]
      {
        S[count] := boxes.S[count];
        j, count := j + 1, count + 1;
      }
      i := i + 1;
    }
    assert S[..] == boxes.S;
    i := 0;
    while i < 18
      invariant i <= 18 && S[..] == boxes.S && forall k :: 0 <= k < i ==> P[k] == boxes.P[k]
    {
      P[i] := boxes.P[i];
      i := i + 1;
    }
    var j := 0;
    i := 0;
    while i < 18
      invariant i <= 18 && j == 4 * i % |key| && S[..] == boxes.S
      invariant forall k :: 0 <= k < i ==> P[k] == Xor(boxes.P[k], KeyWord(key, k))
      invariant forall k :: i <= k < 18 ==> P[k] == boxes.P[k]
    {
      NextStart(i, |key|);
      var temp := Join(key[j], key[(j + 1) % |key|], key[(j + 2) % |key|], key[(j + 3) % |key|]);
      P[i] := Xor(P[i], temp);
      j := (j + 4) % |key|;
      i := i + 1;
    }
  }

  /** One turn of the loops that replace the boxes, P first. */
  method Replace(P: array<word32>, S: array<word32>, k: nat, x: Block, ghost c: BlowfishContext) returns (y: Block)
    requires P.Length == 18 && S.Length == 1024 && P != S && k < 9 + 512
    requires (Boxes(P[..], S[..]), x) == Generated(c, k)
    modifies P, S
    ensures (Boxes(P[..], S[..]), y) == Generated(c, k + 1)
  {
    hide Encipher;
    y := Encipher(Boxes(P[..], S[..]), x);
    ghost var p, s := P[..], S[..];
    if k < 9 {
      P[2 * k] := y.l;
      P[2 * k + 1] := y.r;
      assert P[..] == p[2 * k := y.l][2 * k + 1 := y.r] && S[..] == s;
    } else {
      S[2 * k - 18] := y.l;
      S[2 * k - 17] := y.r;
      assert S[..] == s[2 * k - 18 := y.l][2 * k - 17 := y.r] && P[..] == p;
    }
  }

  /** blowfish_set_key; k counts the pairs that are replaced. */
  method SetKey(P: array<word32>, S: array<word32>, boxes: BlowfishContext, key: seq<byte>)
    requires P.Length == 18 && S.Length == 1024 && P != S && key != []
    modifies P, S
    ensures Boxes(P[..], S[..]) == Schedule(boxes, key)
  {
    hide Mixed, Encipher, Generated;
    MixIn(P, S, boxes, key);
    ghost var c := Mixed(boxes, key);
    NothingReplaced(c);
    var x := Block(0, 0);
    var i := 0;
    while i < 9
      invariant i <= 9 && (Boxes(P[..], S[..]), x) == Generated(c, i)
    {
      x := Replace(P, S, i, x, c);
      i := i + 1;
    }
    i := 0;
    while i < 4
      invariant i <= 4 && (Boxes(P[..], S[..]), x) == Generated(c, 9 + 128 * i)
    {
      var j := 0;
      while j < 128
        invariant j <= 128 && (Boxes(P[..], S[..]), x) == Generated(c, 9 + 128 * i + j)
      {
        x := Replace(P, S, 9 + 128 * i + j, x, c);
        j := j + 1;
      }
      i := i + 1;
    }
  }

  lemma NothingReplaced(c: BlowfishContext)
    ensures Generated(c, 0) == (c, Block(0, 0))
  {
  }
}
