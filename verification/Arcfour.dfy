/**
 The Arcfour stream cipher (arcfour.c).
 */
module Arcfour {
  import opened Bytes
  import opened Modes
  import Numbers

  type octet = x: int | 0 <= x < 256

  type Table = s: seq<octet> | |s| == 256 witness seq(256, _ => 0)

  /** Sums are masked with 0xff. */
  function Add(a: octet, b: octet): octet { (a + b) % 256 }

  function Subtract(a: octet, b: octet): octet { (a - b) % 256 }

  /** The fields of ArcfourContext. */
  datatype Stream = Stream(x: octet, y: octet, state: Table)

  function Exchange(s: Table, i: octet, j: octet): Table { s[i := s[j]][j := s[i]] }

  function Advance(c: Stream): Stream {
    var x := Add(c.x, 1);
    var y := Add(c.state[x], c.y);
    Stream(x, y, Exchange(c.state, x, y))
  }

  /** The octet arcfour_byte returns, read from the state it leaves. */
  function Key(c: Stream): byte { c.state[Add(c.state[c.y], c.state[c.x])] as byte }

  function XorByte(a: byte, b: byte): byte { a ^ b }

  function Encrypt(c: Stream, s: seq<byte>): (r: Output<Stream>)
    ensures |r.data| == |s|
    decreases |s|
  {
    if s == [] then Output([], c) else
    var d := Advance(c);
    var rest := Encrypt(d, s[1..]);
    Output([XorByte(s[0], Key(d))] + rest.data, rest.after)
  }

  lemma XorByteCancels(a: byte, b: byte)
    ensures XorByte(XorByte(a, b), b) == a
  {
  }

  /** Encrypting twice from the same context gives the text back, and the same context. */
  lemma {:induction false} EncryptTwice(c: Stream, s: seq<byte>)
    ensures Encrypt(c, Encrypt(c, s).data) == Output(s, Encrypt(c, s).after)
    decreases |s|
  {
    hide Advance, Key, XorByte;
    if s != [] {
      var d := Advance(c);
      var t := Encrypt(d, s[1..]).data;
      EncryptTwice(d, s[1..]);
      XorByteCancels(s[0], Key(d));
      assert Encrypt(c, s).data[1..] == t;
      assert s == [s[0]] + s[1..];
    }
  }

  // ---------- the table stays a permutation ----------

  predicate Permutation(s: Table) {
    forall i, j :: 0 <= i < j < 256 ==> s[i] != s[j]
  }

  lemma ExchangeKeepsPermutation(s: Table, i: octet, j: octet)
    requires Permutation(s)
    ensures Permutation(Exchange(s, i, j))
  {
  }

  lemma AdvanceKeepsPermutation(c: Stream)
    requires Permutation(c.state)
    ensures Permutation(Advance(c).state)
  {
    hide Permutation, Exchange, Add;
    ExchangeKeepsPermutation(c.state, Add(c.x, 1), Add(c.state[Add(c.x, 1)], c.y));
  }

  /** The step before: every context has exactly one predecessor. */
  function Retreat(d: Stream): Stream {
    Stream(Subtract(d.x, 1), Subtract(d.y, d.state[d.y]), Exchange(d.state, d.x, d.y))
  }

  lemma SumAndDifference(a: octet, b: octet)
    ensures Subtract(Add(a, b), b) == a && Add(b, Subtract(a, b)) == a
    ensures Add(a, b) == Add(b, a)
  {
    Numbers.QuotientUnique(a + b, 256, if a + b < 256 then 0 else 1, if a + b < 256 then a + b else a + b - 256);
    Numbers.QuotientUnique(a - b, 256, if a < b then -1 else 0, if a < b then a - b + 256 else a - b);
  }

  lemma ExchangeTwice(s: Table, i: octet, j: octet)
    ensures Exchange(Exchange(s, i, j), i, j) == s
    ensures Exchange(s, i, j)[i] == s[j] && Exchange(s, i, j)[j] == s[i]
  {
  }

  lemma AdvanceInverse(c: Stream)
    ensures Retreat(Advance(c)) == c && Advance(Retreat(c)) == c
  {
    hide Exchange, Add, Subtract;
    var x := Add(c.x, 1);
    var y := Add(c.state[x], c.y);
    SumAndDifference(c.x, 1);
    SumAndDifference(Subtract(c.x, 1), 1);
    SumAndDifference(c.y, c.state[x]);
    SumAndDifference(c.y, c.state[c.y]);
    ExchangeTwice(c.state, x, y);
    ExchangeTwice(c.state, c.x, c.y);
  }

  // ---------- arcfour_init ----------

  datatype Schedule = Schedule(state: Table, stateIndex: octet)

  function Identity(): Table { seq(256, i requires 0 <= i < 256 => i) }

  /** One turn of the second loop. */
  function Treat(p: Schedule, counter: octet, key: byte): Schedule {
    var index := Add(Add(p.stateIndex, key as nat), p.state[counter]);
    Schedule(Exchange(p.state, counter, index), index)
  }

  /** The schedule after the first n octets of the table were treated; the key repeats. */
  function Scheduled(key: seq<byte>, n: nat): Schedule
    requires |key| > 0 && n <= 256
    decreases n
  {
    if n == 0 then Schedule(Identity(), 0) else Treat(Scheduled(key, n - 1), n - 1, key[(n - 1) % |key|])
  }

  function Fresh(key: seq<byte>): Stream
    requires |key| > 0
  {
    Stream(0, 0, Scheduled(key, 256).state)
  }

  lemma {:induction false} ScheduledIsPermutation(key: seq<byte>, n: nat)
    requires |key| > 0 && n <= 256
    ensures Permutation(Scheduled(key, n).state)
    decreases n
  {
    if n > 0 {
      hide Permutation, Exchange, Add;
      var p := Scheduled(key, n - 1);
      ScheduledIsPermutation(key, n - 1);
      ExchangeKeepsPermutation(p.state, n - 1, Add(Add(p.stateIndex, key[(n - 1) % |key|] as nat), p.state[n - 1]));
    }
  }

  /** The table of every context that arcfour_init and any calls of arcfour_encrypt leave. */
  lemma {:induction false} EncryptKeepsPermutation(c: Stream, s: seq<byte>)
    requires Permutation(c.state)
    ensures Permutation(Encrypt(c, s).after.state)
    decreases |s|
  {
    hide Permutation, Advance, Key;
    if s != [] {
      AdvanceKeepsPermutation(c);
      EncryptKeepsPermutation(Advance(c), s[1..]);
    }
  }

  // ---------- the context in memory ----------

  class ArcfourContext {
    var x: octet
    var y: octet
    const state: array<octet>

    ghost predicate Valid()
    {
      state.Length == 256
    }

    ghost function Value(): Stream
      requires Valid()
      reads this, state
    {
      Stream(x, y, state[..])
    }

    /** arcfour_init */
    constructor (key: seq<byte>)
      requires |key| > 0
      ensures Valid() && fresh(state) && Value() == Fresh(key)
    {
      x := 0;
      y := 0;
      state := new octet[256](i requires 0 <= i < 256 => i);
      new;
      hide Exchange, Add;
      assert state[..] == Identity();
      var keyIndex, stateIndex: octet := 0, 0;
      var counter := 0;
      while counter < 256
        invariant counter <= 256 && x == 0 && y == 0
        invariant keyIndex == counter % |key|
        invariant Schedule(state[..], stateIndex) == Scheduled(key, counter)
      {
        stateIndex := Add(Add(stateIndex, key[keyIndex] as nat), state[counter]);
        Swap(counter, stateIndex);
        NextIndex(counter, |key|);
        keyIndex := if keyIndex + 1 >= |key| then 0 else keyIndex + 1;
        counter := counter + 1;
      }
    }

    method Swap(i: octet, j: octet)
      requires Valid()
      modifies state
      ensures state[..] == Exchange(old(state[..]), i, j)
    {
      var t := state[i];
      var u := state[j];
      state[j] := t;
      state[i] := u;
    }

    /** arcfour_byte */
    method Byte() returns (k: byte)
      requires Valid()
      modifies this, state
      ensures Valid() && Value() == Advance(old(Value())) && k == Key(Value())
    {
      hide Add;
      x := Add(x, 1);
      var sx := state[x];
      y := Add(sx, y);
      var sy := state[y];
      state[y] := sx;
      state[x] := sy;
      assert state[..] == Exchange(old(state[..]), x, y);
      k := state[Add(sx, sy)] as byte;
    }

    /** arcfour_encrypt, and arcfour_decrypt; dest may be src. */
    method EncryptBuffer(dest: array<byte>, src: array<byte>)
      requires Valid() && dest.Length == src.Length
      requires dest as object != state as object && src as object != state as object
      modifies this, state, dest
      ensures Valid()
      ensures Output(dest[..], Value()) == old(Encrypt(Value(), src[..]))
    {
      hide Advance, Key, XorByte, Encrypt;
      ghost var all := Encrypt(Value(), src[..]);
      ghost var done, todo := [], src[..];
      Started(all);
      var i := 0;
      while i < src.Length
        invariant i <= src.Length && Valid()
        invariant dest[..i] == done && src[i..] == todo
        invariant Progress(done, Encrypt(Value(), todo), all)
      {
        ghost var c, rest := Value(), todo[1..];
        assert src[i] == todo[0];
        var p := src[i];
        var k := Byte();
        var o := XorByte(p, k);
        assert src[i..] == todo;
        Put(dest, i, o, src);
        EncryptStep(c, todo, done, all);
        done, todo := done + [o], rest;
        i := i + 1;
      }
      NothingLeft(Value());
      Finished(done, Encrypt(Value(), []), all);
      assert dest[..i] == dest[..];
    }
  }

  lemma EncryptStep(c: Stream, s: seq<byte>, done: seq<byte>, all: Output<Stream>)
    requires s != [] && Progress(done, Encrypt(c, s), all)
    ensures Progress(done + [XorByte(s[0], Key(Advance(c)))], Encrypt(Advance(c), s[1..]), all)
  {
    hide Advance, Key, XorByte;
    var o := XorByte(s[0], Key(Advance(c)));
    var rest := Encrypt(Advance(c), s[1..]).data;
    assert (done + [o]) + rest == done + ([o] + rest);
  }

  lemma NothingLeft(c: Stream)
    ensures Encrypt(c, []) == Output([], c)
  {
  }

  /** The key index goes round. */
  lemma NextIndex(n: nat, m: nat)
    requires m > 0
    ensures (n + 1) % m == if n % m + 1 >= m then 0 else n % m + 1
  {
    if n % m + 1 >= m {
      Numbers.QuotientUnique(n + 1, m, n / m + 1, 0);
    } else {
      Numbers.QuotientUnique(n + 1, m, n / m, n % m + 1);
    }
  }

  method Put(dest: array<byte>, i: nat, o: byte, ghost src: array<byte>)
    requires i < dest.Length == src.Length
    modifies dest
    ensures dest[..i + 1] == old(dest[..i]) + [o]
    ensures src[i + 1..] == old(src[i..])[1..]
  {
    dest[i] := o;
  }
}
