/**
 The additive-feedback generator (random.c) on 32-bit words.  Its table with two moving
 pointers is a sliding window over the sequence x[n] = x[n - deg] + x[n - sep].
 */
module Random {
  import Numbers

  const W := 0x1_0000_0000
  const MAX_TYPES := 5

  type word = x: int | 0 <= x < W

  function Degree(kind: nat): (d: nat)
    ensures 1 <= kind < MAX_TYPES ==> d >= 7
  {
    match kind
    case 0 => 0
    case 1 => 7
    case 2 => 15
    case 3 => 31
    case _ => 63
  }

  function Separation(kind: nat): (s: nat)
    ensures 1 <= kind < MAX_TYPES ==> 1 <= s <= 3
  {
    match kind
    case 0 => 0
    case 1 => 3
    case 2 => 1
    case 3 => 3
    case _ => 1
  }

  /** 1103515245 * x + 12345 */
  function Congruential(x: nat): nat { 1103515245 * x + 12345 }

  // ---------- the sequence ----------

  /** A generator by value: the last word, or the last `deg` words, the oldest first. */
  datatype Generator = Linear(x: word) | Additive(kind: nat, window: seq<word>)

  predicate Proper(g: Generator) {
    g.Additive? ==> 1 <= g.kind < MAX_TYPES && |g.window| == Degree(g.kind)
  }

  /** The word that follows the words w. */
  function Following(kind: nat, w: seq<word>): word
    requires 1 <= kind < MAX_TYPES && |w| == Degree(kind)
  {
    (w[0] + w[|w| - Separation(kind)]) % W
  }

  function Step(g: Generator): (g': Generator)
    requires Proper(g)
    ensures Proper(g') && g'.Additive? == g.Additive?
  {
    match g
    case Linear(x) => Linear(Congruential(x) % 0x8000_0000)
    case Additive(kind, w) => Additive(kind, w[1..] + [Following(kind, w)])
  }

  /** What random() returns when it leaves the generator g. */
  function Drawn(g: Generator): nat
    requires Proper(g)
  {
    match g
    case Linear(x) => x
    case Additive(_, w) => w[|w| - 1] / 2
  }

  /** The window and the n words after it. */
  function Words(kind: nat, w: seq<word>, n: nat): (s: seq<word>)
    requires 1 <= kind < MAX_TYPES && |w| == Degree(kind)
    ensures |s| == |w| + n
    decreases n
  {
    if n == 0 then w else [w[0]] + Words(kind, w[1..] + [Following(kind, w)], n - 1)
  }

  lemma {:induction false} WordsStart(kind: nat, w: seq<word>, n: nat)
    requires 1 <= kind < MAX_TYPES && |w| == Degree(kind)
    ensures Words(kind, w, n)[..|w|] == w
    decreases n
  {
    hide Following;
    if n > 0 {
      var w' := w[1..] + [Following(kind, w)];
      WordsStart(kind, w', n - 1);
      var rest := Words(kind, w', n - 1);
      assert rest[..|w|] == w';
      assert Words(kind, w, n)[1..|w|] == rest[..|w| - 1] == w'[..|w| - 1] == w[1..];
    }
  }

  lemma {:induction false} WordRecurs(kind: nat, w: seq<word>, n: nat, i: nat)
    requires 1 <= kind < MAX_TYPES && |w| == Degree(kind) && i < n
    ensures var x := Words(kind, w, n);
            x[i + Degree(kind)] == (x[i] + x[i + Degree(kind) - Separation(kind)]) % W
    decreases n
  {
    hide Degree, Separation, Following;
    var w' := w[1..] + [Following(kind, w)];
    if i == 0 {
      FirstNewWord(kind, w, n);
    } else {
      WordRecurs(kind, w', n - 1, i - 1);
      assert Words(kind, w, n)[1..] == Words(kind, w', n - 1);
    }
  }

  predicate IsSum(x: nat, a: nat, b: nat) { x == (a + b) % 0x1_0000_0000 }

  /** Behind the window every word is the sum of two before it, as in the trinomial of the type. */
  lemma Recurrence(kind: nat, w: seq<word>, n: nat, i: nat)
    requires 1 <= kind < MAX_TYPES && |w| == Degree(kind) && |w| <= i < |w| + n
    ensures var o := Words(kind, w, n);
            && o[..|w|] == w
            && (kind == 1 ==> i >= 7 && IsSum(o[i], o[i - 7], o[i - 3]))
            && (kind == 2 ==> i >= 15 && IsSum(o[i], o[i - 15], o[i - 1]))
            && (kind == 3 ==> i >= 31 && IsSum(o[i], o[i - 31], o[i - 3]))
            && (kind == 4 ==> i >= 63 && IsSum(o[i], o[i - 63], o[i - 1]))
  {
    hide Words, IsSum;
    WordsStart(kind, w, n);
    WordSums(kind, w, n, i);
  }

  lemma WordSums(kind: nat, w: seq<word>, n: nat, i: nat)
    requires 1 <= kind < MAX_TYPES && |w| == Degree(kind) && |w| <= i < |w| + n
    ensures var o := Words(kind, w, n); IsSum(o[i], o[i - Degree(kind)], o[i - Separation(kind)])
  {
    hide Words, Degree, Separation;
    WordRecurs(kind, w, n, i - |w|);
  }

  lemma FirstNewWord(kind: nat, w: seq<word>, n: nat)
    requires 1 <= kind < MAX_TYPES && |w| == Degree(kind) && n > 0
    ensures var x := Words(kind, w, n); x[|w|] == (x[0] + x[|w| - Separation(kind)]) % W
  {
    hide Degree, Separation;
    var w' := w[1..] + [Following(kind, w)];
    var x, rest := Words(kind, w, n), Words(kind, w', n - 1);
    WordsStart(kind, w, n);
    WordsStart(kind, w', n - 1);
    hide Words;
    assert x[|w|] == rest[|w| - 1] == rest[..|w|][|w| - 1] == Following(kind, w);
    assert x[..|w|][|w| - Separation(kind)] == w[|w| - Separation(kind)];
    assert x[..|w|][0] == w[0];
  }

  function Steps(g: Generator, n: nat): (g': Generator)
    requires Proper(g)
    ensures Proper(g') && g'.Additive? == g.Additive? && (g.Additive? ==> g'.kind == g.kind)
    decreases n
  {
    if n == 0 then g else Step(Steps(g, n - 1))
  }

  lemma {:induction false} StepFirst(g: Generator, n: nat)
    requires Proper(g)
    ensures Steps(Step(g), n) == Steps(g, n + 1)
    decreases n
  {
    hide Step;
    if n > 0 { StepFirst(g, n - 1); }
  }

  /** The generator after n steps holds the last words of the sequence. */
  lemma {:induction false} StepsAreWords(kind: nat, w: seq<word>, n: nat)
    requires 1 <= kind < MAX_TYPES && |w| == Degree(kind)
    ensures Steps(Additive(kind, w), n) == Additive(kind, Words(kind, w, n)[n..])
    decreases n
  {
    hide Following, Degree;
    if n > 0 {
      StepFirst(Additive(kind, w), n - 1);
      var w' := w[1..] + [Following(kind, w)];
      StepsAreWords(kind, w', n - 1);
      assert Words(kind, w, n)[n..] == Words(kind, w', n - 1)[n - 1..];
    } else {
      assert w[0..] == w;
    }
  }

  lemma {:induction false} WordsPrefix(kind: nat, w: seq<word>, m: nat, n: nat)
    requires 1 <= kind < MAX_TYPES && |w| == Degree(kind) && m <= n
    ensures Words(kind, w, n)[..|w| + m] == Words(kind, w, m)
    decreases m
  {
    hide Following, Degree;
    if m == 0 {
      WordsStart(kind, w, n);
    } else {
      var w' := w[1..] + [Following(kind, w)];
      WordsPrefix(kind, w', m - 1, n - 1);
      assert Words(kind, w, n)[..|w| + m] == [w[0]] + Words(kind, w', n - 1)[..|w| + (m - 1)];
    }
  }

  /** Draw i returns word deg + i of the sequence, without its last bit. */
  lemma DrawnIsWord(kind: nat, w: seq<word>, n: nat, i: nat)
    requires 1 <= kind < MAX_TYPES && |w| == Degree(kind) && i < n
    ensures Drawn(Steps(Additive(kind, w), i + 1)) == Words(kind, w, n)[i + |w|] / 2
  {
    hide Words, Steps, Step, Degree;
    StepsAreWords(kind, w, i + 1);
    WordsPrefix(kind, w, i + 1, n);
    var x := Words(kind, w, i + 1);
    assert x[i + 1..][|w| - 1] == x[i + |w|] == Words(kind, w, n)[..|w| + (i + 1)][i + |w|];
  }

  /** The sum of two drawn numbers, with or without a carry from the bits that were cut off. */
  predicate SumOf(o: nat, a: nat, b: nat) {
    o == (a + b) % 0x8000_0000 || o == (a + b + 1) % 0x8000_0000
  }

  lemma HalvesOfSum(x: word, a: word, b: word)
    requires x == (a + b) % W
    ensures SumOf(x / 2, a / 2, b / 2)
  {
    var carry := if a + b >= W then 1 else 0;
    assert a + b == x + W * carry;
    var c := (a % 2 + b % 2) / 2;
    assert a / 2 + b / 2 + c == x / 2 + 0x8000_0000 * carry;
  }

  /** The numbers drawn satisfy the recurrence themselves, up to that carry. */
  lemma DrawnRecurrence(kind: nat, w: seq<word>, i: nat)
    requires 1 <= kind < MAX_TYPES && |w| == Degree(kind) && i >= Degree(kind)
    ensures var g := Additive(kind, w);
            SumOf(Drawn(Steps(g, i + 1)),
                  Drawn(Steps(g, i - Degree(kind) + 1)), Drawn(Steps(g, i - Separation(kind) + 1)))
  {
    hide Words, Steps, Step, Drawn, SumOf;
    var n, deg, sep := i + 1, Degree(kind), Separation(kind);
    var x := Words(kind, w, n);
    hide Degree, Separation;
    DrawnIsWord(kind, w, n, i);
    DrawnIsWord(kind, w, n, i - deg);
    DrawnIsWord(kind, w, n, i - sep);
    WordRecurs(kind, w, n, i);
    HalvesOfSum(x[i + deg], x[i], x[i + deg - sep]);
  }

  // ---------- the table ----------

  function Wrap(i: nat, deg: nat): nat { if i < deg then i else i - deg }

  /** The words behind the front pointer, round the table that starts at cell 1. */
  function WindowOf(t: seq<word>, deg: nat, front: nat): (w: seq<word>)
    requires front < deg < |t|
    ensures |w| == deg
  {
    seq(deg, j requires 0 <= j < deg => t[1 + Wrap(front + j, deg)])
  }

  /** The type and the rear pointer in one word. */
  function Info(kind: nat, rear: nat): nat { if kind == 0 then 0 else MAX_TYPES * rear + kind }

  predicate Stored(t: seq<word>) {
    && |t| >= 2
    && var kind, rear := t[0] % MAX_TYPES, t[0] / MAX_TYPES;
       |t| > Degree(kind) && (kind > 0 ==> rear < Degree(kind))
  }

  /** The generator that setstate would find in t. */
  function StoredGenerator(t: seq<word>): Generator
    requires Stored(t)
  {
    var kind, rear := t[0] % MAX_TYPES, t[0] / MAX_TYPES;
    if kind == 0 then Linear(t[1])
    else Additive(kind, WindowOf(t, Degree(kind), (rear + Separation(kind)) % Degree(kind)))
  }

  lemma InfoParts(kind: nat, rear: nat)
    requires kind < MAX_TYPES
    ensures Info(kind, rear) % MAX_TYPES == kind
    ensures kind > 0 ==> Info(kind, rear) / MAX_TYPES == rear
  {
  }

  /** Two steps round the table, with the new word written over the oldest. */
  lemma WindowSlides(t: seq<word>, t': seq<word>, kind: nat, front: nat, rear: nat)
    requires 1 <= kind < MAX_TYPES && |t| == |t'| > Degree(kind) && rear < Degree(kind)
    requires front == Wrap(rear + Separation(kind), Degree(kind))
    requires t' == t[1 + front := (t[1 + front] + t[1 + rear]) % W]
    ensures WindowOf(t', Degree(kind), Wrap(front + 1, Degree(kind))) ==
            WindowOf(t, Degree(kind), front)[1..] + [Following(kind, WindowOf(t, Degree(kind), front))]
  {
    hide Degree, Separation;
    var deg, sep := Degree(kind), Separation(kind);
    var w, w' := WindowOf(t, deg, front), WindowOf(t', deg, Wrap(front + 1, deg));
    assert Wrap(front + (deg - sep), deg) == rear && Wrap(front + 0, deg) == front;
    assert w[0] == t[1 + front] && w[deg - sep] == t[1 + rear];
    forall j | 0 <= j < deg ensures w'[j] == (w[1..] + [Following(kind, w)])[j] {
      if j < deg - 1 {
        assert Wrap(Wrap(front + 1, deg) + j, deg) == Wrap(front + (j + 1), deg) != front;
      } else {
        assert Wrap(Wrap(front + 1, deg) + j, deg) == front;
      }
    }
  }

  lemma WrapOnce(i: nat, deg: nat)
    requires i < deg
    ensures i % deg == i
  {
  }

  lemma WrapNext(i: nat, deg: nat)
    requires deg > 0
    ensures (i + 1) % deg == Wrap(i % deg + 1, deg)
  {
    var q, r := i / deg, i % deg;
    assert i == deg * q + r;
    if r + 1 < deg {
      Numbers.QuotientUnique(i + 1, deg, q, r + 1);
    } else {
      assert deg * (q + 1) == deg * q + deg;
      Numbers.QuotientUnique(i + 1, deg, q + 1, 0);
    }
  }

  /** Each number from place deg on is the sum of the numbers deg and sep places before it. */
  predicate Recurs(values: seq<nat>, deg: nat, sep: nat)
    requires sep <= deg
  {
    forall i :: deg <= i < |values| ==> SumAt(values, i, deg, sep)
  }

  predicate SumAt(values: seq<nat>, i: nat, deg: nat, sep: nat)
    requires sep <= deg <= i < |values|
  {
    SumOf(values[i], values[i - deg], values[i - sep])
  }

  lemma ValueRecurs(kind: nat, w: seq<word>, values: seq<nat>, i: nat)
    requires 1 <= kind < MAX_TYPES && |w| == Degree(kind) <= i < |values|
    requires forall j :: 0 <= j < |values| ==> values[j] == Drawn(Steps(Additive(kind, w), j + 1))
    ensures SumAt(values, i, Degree(kind), Separation(kind))
  {
    hide Drawn, Steps, SumOf, Degree, Separation;
    DrawnRecurrence(kind, w, i);
    var a, b := i - Degree(kind), i - Separation(kind);
    assert values[a] == Drawn(Steps(Additive(kind, w), a + 1));
    assert values[b] == Drawn(Steps(Additive(kind, w), b + 1));
  }

  lemma ValuesRecur(g: Generator, values: seq<nat>)
    requires Proper(g) && forall j :: 0 <= j < |values| ==> values[j] == Drawn(Steps(g, j + 1))
    ensures g.Additive? ==> Recurs(values, Degree(g.kind), Separation(g.kind))
  {
    hide Drawn, Steps, SumAt, Degree, Separation;
    if g.Additive? {
      forall i | Degree(g.kind) <= i < |values| ensures SumAt(values, i, Degree(g.kind), Separation(g.kind)) {
        ValueRecurs(g.kind, g.window, values, i);
      }
    }
  }

  /** The same with the numbers of the trinomials. */
  lemma ValuesRecurBy(g: Generator, values: seq<nat>)
    requires Proper(g) && forall j :: 0 <= j < |values| ==> values[j] == Drawn(Steps(g, j + 1))
    ensures g.Additive? && g.kind == 1 ==> Recurs(values, 7, 3)
    ensures g.Additive? && g.kind == 2 ==> Recurs(values, 15, 1)
    ensures g.Additive? && g.kind == 3 ==> Recurs(values, 31, 3)
    ensures g.Additive? && g.kind == 4 ==> Recurs(values, 63, 1)
  {
    hide Drawn, Steps, Recurs;
    ValuesRecur(g, values);
  }

  /** What random() returns, from the generator g on. */
  predicate Follow(g: Generator, values: seq<nat>)
    requires Proper(g)
  {
    match g
    case Linear(x) =>
      forall i :: 0 <= i < |values| ==> LinearAt(x, values, i)
    case Additive(kind, w) =>
      forall i :: 0 <= i < |values| ==> values[i] == Words(kind, w, |values|)[|w| + i] / 2
  }

  /** Each number is the linear congruence of the one before it, the first one of x. */
  predicate LinearAt(x: nat, values: seq<nat>, i: nat)
    requires i < |values|
  {
    LinearStep(if i == 0 then x else values[i - 1], values[i])
  }

  predicate LinearStep(x: nat, y: nat) { y == (1103515245 * x + 12345) % 0x8000_0000 }

  lemma LinearFollows(x: word, values: seq<nat>, i: nat)
    requires i < |values| && forall j :: 0 <= j < |values| ==> values[j] == Drawn(Steps(Linear(x), j + 1))
    ensures LinearAt(x, values, i)
  {
    assert Steps(Linear(x), 0) == Linear(x);
    assert Steps(Linear(x), i + 1) == Step(Steps(Linear(x), i));
    hide Steps, Congruential, LinearStep;
    Congruence(Steps(Linear(x), i).x);
  }

  lemma Congruence(x: word)
    ensures LinearStep(x, Congruential(x) % 0x8000_0000)
  {
  }

  lemma ValuesFollow(g: Generator, values: seq<nat>)
    requires Proper(g) && forall j :: 0 <= j < |values| ==> values[j] == Drawn(Steps(g, j + 1))
    ensures Follow(g, values)
  {
    hide Drawn, Steps, Words, LinearAt;
    match g
    case Linear(x) =>
      forall i | 0 <= i < |values| ensures LinearAt(x, values, i) {
        LinearFollows(x, values, i);
      }
    case Additive(kind, w) =>
      forall i | 0 <= i < |values| ensures values[i] == Words(kind, w, |values|)[|w| + i] / 2 {
        DrawnIsWord(kind, w, |values|, i);
      }
  }

  /** The table srandom fills before it draws. */
  function Seeds(x: word, n: nat): (s: seq<word>)
    requires n > 0
    ensures |s| == n
    decreases n
  {
    if n == 1 then [x] else
    var s := Seeds(x, n - 1);
    s + [Congruential(s[n - 2]) % W]
  }

  /** The generator after srandom(x). */
  function Seeded(kind: nat, x: word): Generator
    requires kind < MAX_TYPES
  {
    if kind == 0 then Linear(x) else
    var s, sep := Seeds(x, Degree(kind)), Separation(kind);
    Steps(Additive(kind, s[sep..] + s[..sep]), 10 * Degree(kind))
  }

  /** The table starts with the seed, and every other word is the linear congruence of the one before it. */
  lemma {:induction false} SeedsLaw(x: word, n: nat, i: nat)
    requires i < n
    ensures if i == 0 then Seeds(x, n)[0] == x else SeedStep(Seeds(x, n)[i - 1], Seeds(x, n)[i])
    decreases n
  {
    if i < n - 1 {
      SeedsLaw(x, n - 1, i);
    }
  }

  predicate SeedStep(x: nat, y: nat) { y == (1103515245 * x + 12345) % 0x1_0000_0000 }

  /** The generator of a seed: the table from the front pointer on, ten rounds later. */
  lemma SeededIs(x: word)
    ensures Seeded(0, x) == Linear(x)
    ensures Seeded(1, x) == Steps(Additive(1, Seeds(x, 7)[3..] + Seeds(x, 7)[..3]), 70)
    ensures Seeded(2, x) == Steps(Additive(2, Seeds(x, 15)[1..] + Seeds(x, 15)[..1]), 150)
    ensures Seeded(3, x) == Steps(Additive(3, Seeds(x, 31)[3..] + Seeds(x, 31)[..3]), 310)
    ensures Seeded(4, x) == Steps(Additive(4, Seeds(x, 63)[1..] + Seeds(x, 63)[..1]), 630)
  {
    hide Seeds, Steps;
  }

  /** The type initstate chooses for n octets of state. */
  function KindFor(n: nat): nat {
    if n < 32 then 0 else if n < 64 then 1 else if n < 128 then 2 else if n < 256 then 3 else 4
  }

  lemma InfoFits(kind: nat, rear: nat)
    requires kind < MAX_TYPES && (kind > 0 ==> rear < Degree(kind))
    ensures Info(kind, rear) < W
  {
  }

  lemma SeedWindow(t: seq<word>, deg: nat, sep: nat)
    requires sep < deg < |t|
    ensures WindowOf(t, deg, sep) == t[1..1 + deg][sep..] + t[1..1 + deg][..sep]
  {
    var s := t[1..1 + deg];
    forall j | 0 <= j < deg ensures WindowOf(t, deg, sep)[j] == (s[sep..] + s[..sep])[j] {
      assert (s[sep..] + s[..sep])[j] == s[Wrap(sep + j, deg)];
      assert s[Wrap(sep + j, deg)] == t[1 + Wrap(sep + j, deg)];
    }
  }

  /** A word is the sum of two, and is drawn without its lowest bit. */
  predicate HalfOfSum(r: nat, a: nat, b: nat) { r == (a + b) % 0x1_0000_0000 / 2 }

  /** How far the pointers are apart, round the table. */
  predicate Apart(kind: nat, front: nat, rear: nat) {
    && (kind == 1 ==> rear < 7 && front == (rear + 3) % 7)
    && (kind == 2 ==> rear < 15 && front == (rear + 1) % 15)
    && (kind == 3 ==> rear < 31 && front == (rear + 3) % 31)
    && (kind == 4 ==> rear < 63 && front == (rear + 1) % 63)
  }

  class State {
    /** The array given to initstate or setstate; cell 0 is state[-1]. */
    var cells: array<word>
    var kind: nat
    var front: nat
    var rear: nat

    predicate Valid()
      reads this
    {
      && kind < MAX_TYPES && cells.Length >= 2 && cells.Length > Degree(kind)
      && (kind > 0 ==> rear < Degree(kind) && front == Wrap(rear + Separation(kind), Degree(kind)))
    }

    function Value(): (g: Generator)
      requires Valid()
      reads this, cells
      ensures Proper(g)
    {
      if kind == 0 then Linear(cells[1]) else Additive(kind, WindowOf(cells[..], Degree(kind), front))
    }

    lemma Positions()
      requires Valid()
      ensures Apart(kind, front, rear)
    {
    }

    /** random() */
    method Next() returns (r: nat)
      requires Valid()
      modifies `front, `rear, cells
      ensures Valid() && Value() == Step(old(Value())) && r == Drawn(Value())
      ensures cells[0] == old(cells[0]) && (kind > 0 ==> rear == Wrap(old(rear) + 1, Degree(kind)))
      ensures kind == 0 ==> r == cells[1] && LinearStep(old(cells[1]), r)
      ensures kind > 0 ==> HalfOfSum(r, old(cells[1 + front]), old(cells[1 + rear]))
      ensures Apart(kind, front, rear)
    {
      if kind == 0 {
        Congruence(cells[1]);
        cells[1] := Congruential(cells[1]) % 0x8000_0000;
        r := cells[1];
      } else {
        r := Add();
      }
      Positions();
    }

    /** The rear word is added into the front one, and both pointers go on; they cannot both wrap. */
    method Add() returns (r: nat)
      requires Valid() && kind > 0
      modifies `front, `rear, cells
      ensures Valid() && Value() == Step(old(Value())) && r == Drawn(Value())
      ensures cells[0] == old(cells[0]) && (kind > 0 ==> rear == Wrap(old(rear) + 1, Degree(kind)))
      ensures HalfOfSum(r, old(cells[1 + front]), old(cells[1 + rear]))
    {
      hide WindowOf, Following, Degree, Separation;
      ghost var t: seq<word>, f, b := cells[..], front, rear;
      var deg := Degree(kind);
      cells[1 + front] := (cells[1 + front] + cells[1 + rear]) % W;
      r := cells[1 + front] / 2 % 0x8000_0000;
      WindowSlides(t, cells[..], kind, f, b);
      LastOfWindow(cells[..], deg, f);
      front := front + 1;
      if front >= deg {
        front := 0;
        rear := rear + 1;
      } else {
        rear := rear + 1;
        if rear >= deg {
          rear := 0;
        }
      }
    }

    /** Saves where the generator stands in its own array. */
    method Save()
      requires Valid()
      modifies cells
      ensures Valid() && Value() == old(Value())
      ensures cells[0] == Info(kind, rear) && cells[1..] == old(cells[1..])
      ensures cells[0] == if kind == 0 then 0 else 5 * rear + kind
      ensures Stored(cells[..]) && StoredGenerator(cells[..]) == Value()
    {
      hide WindowOf, Degree, Separation;
      ghost var t: seq<word> := cells[..];
      InfoFits(kind, rear);
      cells[0] := Info(kind, rear);
      assert cells[..] == t[0 := Info(kind, rear)];
      InfoParts(kind, rear);
      if kind > 0 {
        WindowIgnoresInfo(t, Info(kind, rear), Degree(kind), front);
        WrapIsRemainder(rear + Separation(kind), Degree(kind));
      }
    }

    /** The loop of srandom that fills the table. */
    method Fill(x: word)
      requires Valid() && kind > 0
      modifies cells
      ensures Valid() && cells[0] == old(cells[0])
      ensures cells[1..1 + Degree(kind)] == Seeds(x, Degree(kind))
    {
      hide Degree, Congruential;
      cells[1] := x;
      var i := 1;
      while i < Degree(kind)
        invariant 1 <= i <= Degree(kind) && cells[0] == old(cells[0])
        invariant cells[1..1 + i] == Seeds(x, i)
      {
        cells[1 + i] := Congruential(cells[i]) % W;
        i := i + 1;
      }
    }

    /** The loop of srandom that throws away the first words. */
    method Discard(n: nat)
      requires Valid()
      modifies `front, `rear, cells
      ensures Valid() && Value() == Steps(old(Value()), n)
      ensures cells[0] == old(cells[0]) && (kind > 0 ==> rear == (old(rear) + n) % Degree(kind))
    {
      var values := Draws(n);
    }

    /** n calls of random() */
    method Draws(n: nat) returns (values: seq<nat>)
      requires Valid()
      modifies `front, `rear, cells
      ensures Valid() && Value() == Steps(old(Value()), n)
      ensures |values| == n && forall i :: 0 <= i < n ==> values[i] == Drawn(Steps(old(Value()), i + 1))
      ensures Follow(old(Value()), values)
      ensures kind == 1 ==> Recurs(values, 7, 3)
      ensures kind == 2 ==> Recurs(values, 15, 1)
      ensures kind == 3 ==> Recurs(values, 31, 3)
      ensures kind == 4 ==> Recurs(values, 63, 1)
      ensures cells[0] == old(cells[0]) && (kind > 0 ==> rear == (old(rear) + n) % Degree(kind))
    {
      hide Degree, Separation, Step, Drawn, WindowOf, Value, SumOf, Follow, Recurs, Apart, HalfOfSum, LinearStep;
      values := [];
      var i := 0;
      ghost var start := Value();
      KindOfValue();
      if kind > 0 { WrapOnce(rear, Degree(kind)); }
      while i < n
        invariant i <= n && Valid() && cells[0] == old(cells[0])
        invariant kind > 0 ==> rear == (old(rear) + i) % Degree(kind)
        invariant Value() == Steps(start, i)
        invariant |values| == i && forall j :: 0 <= j < i ==> values[j] == Drawn(Steps(start, j + 1))
      {
        if kind > 0 { WrapNext(old(rear) + i, Degree(kind)); }
        var r := Next();
        values := values + [r];
        i := i + 1;
      }
      ValuesFollow(start, values);
      ValuesRecurBy(start, values);
    }

    lemma KindOfValue()
      requires Valid()
      ensures kind > 0 ==> Value().Additive? && Value().kind == kind
    {
    }

    /** srandom */
    method Seed(x: word)
      requires Valid()
      modifies `front, `rear, cells
      ensures Valid() && Value() == Seeded(kind, x)
      ensures cells[0] == old(cells[0])
    {
      hide Degree, Separation, Step, Drawn, WindowOf, Seeds, Steps;
      if kind == 0 {
        cells[1] := x;
      } else {
        Fill(x);
        front := Separation(kind);
        rear := 0;
        SeedWindow(cells[..], Degree(kind), Separation(kind));
        assert cells[..][1..1 + Degree(kind)] == cells[1..1 + Degree(kind)];
        Discard(10 * Degree(kind));
      }
    }

    /** initstate with an array of so many words; too small an array is refused. */
    method InitState(seed: word, arg: array<word>) returns (ok: bool)
      requires Valid()
      modifies this, cells, arg
      ensures Valid() && ok == (4 * arg.Length >= 8)
      ensures !ok || arg != old(cells) ==> Stored(old(cells)[..]) && StoredGenerator(old(cells)[..]) == old(Value())
      ensures ok ==> cells == arg && Value() == Seeded(kind, seed)
      ensures ok ==> kind == if 4 * arg.Length < 32 then 0
                             else if 4 * arg.Length < 64 then 1
                             else if 4 * arg.Length < 128 then 2
                             else if 4 * arg.Length < 256 then 3
                             else 4
      ensures ok ==> cells[0] == if kind == 0 then 0 else 5 * rear + kind
      ensures ok ==> Stored(cells[..]) && StoredGenerator(cells[..]) == Value()
      ensures !ok ==> cells == old(cells) && Value() == old(Value())
    {
      hide WindowOf, Separation, Seeded;
      ghost var saved := cells;
      Save();
      ghost var t: seq<word> := saved[..];
      if 4 * arg.Length < 8 {
        return false;
      }
      kind := KindFor(4 * arg.Length);
      front, rear := Wrap(Separation(kind), Degree(kind)), 0;
      cells := arg;
      Seed(seed);
      assert arg != saved ==> saved[..] == t;
      Save();
      ok := true;
    }

    /**
     setstate with an array that setstate or initstate left behind.  Its saved position is read
     before the current one is stored: with the current array the generator goes on from where it
     was saved last.
     */
    method SetState(next: array<word>)
      requires Valid() && Stored(next[..])
      modifies this, cells
      ensures Valid() && cells == next && Value() == old(StoredGenerator(next[..]))
      ensures kind == old(next[0]) % 5 && (kind > 0 ==> rear == old(next[0]) / 5)
      ensures next[1..] == old(next[1..])
      ensures next != old(cells) ==> Stored(old(cells)[..]) && StoredGenerator(old(cells)[..]) == old(Value())
    {
      hide WindowOf, Degree, Separation;
      ghost var t: seq<word> := next[..];
      var type', rear' := next[0] % MAX_TYPES, next[0] / MAX_TYPES;
      ghost var info := Info(kind, rear);
      InfoFits(kind, rear);
      ghost var same := next == cells;
      Save();
      assert next[..] == if same then t[0 := info] else t;
      kind := type';
      cells := next;
      if kind != 0 {
        rear := rear';
        front := (rear' + Separation(kind)) % Degree(kind);
        WrapIsRemainder(rear' + Separation(kind), Degree(kind));
        WindowIgnoresInfo(t, info, Degree(kind), front);
      }
    }

    /** Another generator draws n numbers in between: this one continues as if nothing had happened. */
    method SwitchAndReturn(next: array<word>, n: nat) returns (values: seq<nat>)
      requires Valid() && next != cells && Stored(next[..])
      modifies this, cells, next
      ensures Valid() && cells == old(cells) && Value() == old(Value())
      ensures |values| == n
      ensures forall i :: 0 <= i < n ==> values[i] == Drawn(Steps(old(StoredGenerator(next[..])), i + 1))
      ensures Stored(next[..]) && StoredGenerator(next[..]) == Steps(old(StoredGenerator(next[..])), n)
    {
      hide StoredGenerator, Stored, Value, Steps, Drawn, Degree, Separation;
      var mine := cells;
      SetState(next);
      ghost var saved: seq<word> := mine[..];
      values := Draws(n);
      assert mine[..] == saved;
      SetState(mine);
    }

    /**
     The position is saved, n numbers are drawn, and setstate is called with the current array.
     The stream is left as it was exactly when the table repeats itself n places on.
     */
    method SetStateAfterDraws(n: nat) returns (ghost drawn: Generator)
      requires Valid()
      modifies this, cells
      ensures Valid() && cells == old(cells) && kind == old(kind)
      ensures drawn == Steps(old(Value()), n)
      ensures kind > 0 ==> drawn == Additive(kind, WindowOf(cells[..], Degree(kind), (old(front) + n) % Degree(kind)))
      ensures Value() == drawn <==> kind == 0 || Repeats(cells[..], Degree(kind), n)
      ensures kind > 0 && n % Degree(kind) == 0 ==> Value() == drawn
    {
      hide WindowOf, Degree, Separation, Steps, Step;
      ghost var saved := rear;
      Save();
      Discard(n);
      drawn := Value();
      ghost var t: seq<word> := cells[..];
      InfoParts(kind, saved);
      if kind > 0 {
        FrontAfter(saved, Separation(kind), Degree(kind), n, rear, front);
      }
      SetState(cells);
      assert cells[..] == t[0 := cells[0]];
      SameStateExactly(t, kind, saved, n);
      if kind > 0 {
        WindowIgnoresInfo(t, cells[0], Degree(kind), (old(front) + n) % Degree(kind));
        RepeatsIgnoresInfo(t, cells[0], Degree(kind), n);
      }
    }
  }

  lemma LastOfWindow(t: seq<word>, deg: nat, f: nat)
    requires f < deg < |t|
    ensures WindowOf(t, deg, Wrap(f + 1, deg))[deg - 1] == t[1 + f]
  {
    assert Wrap(Wrap(f + 1, deg) + (deg - 1), deg) == f;
  }

  lemma WindowIgnoresInfo(t: seq<word>, info: word, deg: nat, front: nat)
    requires front < deg < |t|
    ensures WindowOf(t[0 := info], deg, front) == WindowOf(t, deg, front)
  {
    var u := t[0 := info];
    forall j | 0 <= j < deg ensures WindowOf(u, deg, front)[j] == WindowOf(t, deg, front)[j] {
      assert u[1 + Wrap(front + j, deg)] == t[1 + Wrap(front + j, deg)];
    }
  }

  lemma WrapIsRemainder(i: nat, deg: nat)
    requires deg > 0 && i < 2 * deg
    ensures i % deg == Wrap(i, deg) < deg
  {
  }

  // ---------- setstate with the current array ----------

  /** Every word equals the one n places further round the table. */
  predicate Repeats(t: seq<word>, deg: nat, n: nat)
    requires 0 < deg < |t|
  {
    forall j :: 0 <= j < deg ==> CellAt(t, j, deg) == CellAt(t, j + n, deg)
  }

  /** A word of the table, the places going round. */
  function CellAt(t: seq<word>, j: nat, deg: nat): word
    requires 0 < deg < |t|
  {
    Numbers.QuotientUnique(j, deg, j / deg, j % deg);
    t[1 + j % deg]
  }

  lemma RepeatsIgnoresInfo(t: seq<word>, info: word, deg: nat, n: nat)
    requires 0 < deg < |t|
    ensures Repeats(t[0 := info], deg, n) == Repeats(t, deg, n)
  {
    var u := t[0 := info];
    forall j: nat ensures CellAt(u, j, deg) == CellAt(t, j, deg) {
    }
  }

  /** n places from f, and then i more. */
  lemma RoundTwice(f: nat, n: nat, i: nat, deg: nat)
    requires f < deg && i < deg
    ensures Wrap((f + n) % deg + i, deg) == (Wrap(f + i, deg) + n) % deg
  {
    var q, r := (f + n) / deg, (f + n) % deg;
    assert f + n == deg * q + r;
    var c, c' := if f + i < deg then 0 else 1, if r + i < deg then 0 else 1;
    assert deg * (q - c + c') == deg * q - deg * c + deg * c' by {
      Numbers.MulDistribute(deg, q - c, c');
      Numbers.MulDistribute(deg, q, -c);
    }
    Numbers.QuotientUnique(Wrap(f + i, deg) + n, deg, q - c + c', Wrap(r + i, deg));
  }

  /** Where the front pointer is after n draws. */
  lemma FrontAfter(saved: nat, sep: nat, deg: nat, n: nat, rear: nat, front: nat)
    requires saved < deg && sep < deg && rear == (saved + n) % deg && front == Wrap(rear + sep, deg)
    ensures front == (Wrap(saved + sep, deg) + n) % deg
  {
    RoundTwice(saved, n, sep, deg);
  }

  /** The windows at two positions n apart are equal exactly when the table repeats itself. */
  lemma SameWindow(t: seq<word>, deg: nat, f: nat, n: nat)
    requires f < deg < |t|
    ensures (f + n) % deg < deg
    ensures WindowOf(t, deg, f) == WindowOf(t, deg, (f + n) % deg) <==> Repeats(t, deg, n)
  {
    Numbers.QuotientUnique(f + n, deg, (f + n) / deg, (f + n) % deg);
    var v, w := WindowOf(t, deg, f), WindowOf(t, deg, (f + n) % deg);
    forall i | 0 <= i < deg
      ensures v[i] == CellAt(t, Wrap(f + i, deg), deg) && w[i] == CellAt(t, Wrap(f + i, deg) + n, deg)
    {
      WrapOnce(Wrap(f + i, deg), deg);
      RoundTwice(f, n, i, deg);
    }
    hide WindowOf, CellAt;
    if v == w {
      forall j | 0 <= j < deg ensures CellAt(t, j, deg) == CellAt(t, j + n, deg) {
        var i := if j >= f then j - f else j + deg - f;
        assert Wrap(f + i, deg) == j && v[i] == w[i];
      }
    } else {
      var i :| 0 <= i < deg && v[i] != w[i];
      assert CellAt(t, Wrap(f + i, deg), deg) != CellAt(t, Wrap(f + i, deg) + n, deg);
    }
  }

  /**
   The comment at random.c:294-295 calls setstate with the current array harmless.  With the
   position saved n draws ago it is so exactly for the linear generator and for tables that
   repeat themselves n places on; a whole number of rounds is always such an n.
   */
  lemma SameStateExactly(t: seq<word>, kind: nat, saved: nat, n: nat)
    requires kind < MAX_TYPES && |t| >= 2 && |t| > Degree(kind) && (kind > 0 ==> saved < Degree(kind))
    requires t[0] == Info(kind, saved)
    ensures Stored(t)
    ensures kind == 0 ==> StoredGenerator(t) == Linear(t[1])
    ensures kind > 0 ==>
              var deg, f := Degree(kind), Wrap(saved + Separation(kind), Degree(kind));
              && StoredGenerator(t) == Additive(kind, WindowOf(t, deg, f))
              && (StoredGenerator(t) == Additive(kind, WindowOf(t, deg, (f + n) % deg)) <==> Repeats(t, deg, n))
              && (n % deg == 0 ==> Repeats(t, deg, n))
  {
    InfoParts(kind, saved);
    if kind > 0 {
      var deg, f := Degree(kind), Wrap(saved + Separation(kind), Degree(kind));
      hide WindowOf, Degree, Separation, Repeats;
      WrapIsRemainder(saved + Separation(kind), deg);
      SameWindow(t, deg, f, n);
      if n % deg == 0 { WholeRounds(t, deg, n); }
    }
  }

  lemma WholeRounds(t: seq<word>, deg: nat, n: nat)
    requires 0 < deg < |t| && n % deg == 0
    ensures Repeats(t, deg, n)
  {
    forall j | 0 <= j < deg ensures CellAt(t, j, deg) == CellAt(t, j + n, deg) {
      SamePlace(j, n, deg);
    }
  }

  lemma SamePlace(j: nat, n: nat, deg: nat)
    requires j < deg && n % deg == 0
    ensures (j + n) % deg == j == j % deg
  {
    assert j + n == deg * (n / deg) + j;
    Numbers.QuotientUnique(j + n, deg, n / deg, j);
    WrapOnce(j, deg);
  }

  /** One draw from this table and setstate with it: the stream is not the one that was drawn from. */
  method SameStateRewinds() returns (s: State, ghost start: Generator, ghost drawn: Generator)
    ensures fresh(s) && s.Valid() && s.kind == 1
    ensures start == Additive(1, [5, 0, 0, 0, 0, 0, 0]) && drawn == Step(start) && s.Value() != drawn
  {
    s := new State;
    s.cells := new word[8](i => if i == 4 then 5 else 0);
    s.kind, s.rear, s.front := 1, 0, 3;
    start := s.Value();
    assert s.cells[..] == [0, 0, 0, 0, 5, 0, 0, 0];
    FirstWindow();
    hide WindowOf, Repeats;
    drawn := s.SetStateAfterDraws(1);
    hide Step;
    assert Steps(start, 1) == Step(start) by { assert Steps(start, 0) == start; }
    DrawnOnce();
    if Repeats(s.cells[..], 7, 1) { AllEqual(s.cells[..], 4); }
  }

  lemma FirstWindow()
    ensures WindowOf([0, 0, 0, 0, 5, 0, 0, 0], 7, 3) == [5, 0, 0, 0, 0, 0, 0]
  {
    var t: seq<word> := [0, 0, 0, 0, 5, 0, 0, 0];
    var w := WindowOf(t, 7, 3);
    assert w[0] == t[4] && w[1] == t[5] && w[2] == t[6] && w[3] == t[7];
    assert w[4] == t[1] && w[5] == t[2] && w[6] == t[3];
  }

  lemma DrawnOnce()
    ensures Step(Additive(1, [5, 0, 0, 0, 0, 0, 0])) == Additive(1, [0, 0, 0, 0, 0, 0, 5])
  {
  }

  lemma AllEqual(t: seq<word>, f: nat)
    requires |t| == 8 && f < 7 && Repeats(t, 7, 1)
    ensures WindowOf(t, 7, f)[5] == WindowOf(t, 7, f)[6]
  {
    var j := Wrap(f + 5, 7);
    assert CellAt(t, j, 7) == CellAt(t, j + 1, 7);
    assert j % 7 == j && (j + 1) % 7 == Wrap(f + 6, 7);
  }
}
