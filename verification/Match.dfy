/**
 The wildcard matcher (match.c:58-113): what it decides, and exactly when that is what the
 pattern means.
 */
module Match {
  // ---------- what a pattern means ----------

  /** `?` stands for one character and `*` for any number of them. */
  predicate Denotes(p: string, s: string)
    decreases |p|
  {
    if p == [] then s == []
    else if p[0] == '*' then exists k :: 0 <= k <= |s| && Denotes(p[1..], s[k..])
    else s != [] && (p[0] == '?' || p[0] == s[0]) && Denotes(p[1..], s[1..])
  }

  // ---------- what match_pattern computes ----------

  predicate Accepts(s: string, p: string)
    decreases |p|, |s|, 0
  {
    if p == [] then s == []
    else if p[0] == '*' then p[1..] == [] || Scan(s, p[1..])
    else s != [] && (p[0] == '?' || p[0] == s[0]) && Accepts(s[1..], p[1..])
  }

  /** The two loops behind an asterisk: neither tries the empty rest of the string. */
  predicate Scan(s: string, p: string)
    requires p != []
    decreases |p|, |s|, 2
  {
    s != [] && (Here(s, p) || Scan(s[1..], p))
  }

  /** One turn of those loops. */
  predicate Here(s: string, p: string)
    requires p != [] && s != []
    decreases |p|, |s|, 1
  {
    if p[0] != '?' && p[0] != '*' then s[0] == p[0] && Accepts(s[1..], p[1..]) else Accepts(s, p)
  }

  /** match_pattern */
  method MatchPattern(s: string, pattern: string) returns (r: bool)
    ensures r == Accepts(s, pattern)
    decreases |pattern|, |s|
  {
    var t, p := s, pattern;
    while true
      invariant |p| <= |pattern| && |t| <= |s|
      invariant Accepts(s, pattern) == Accepts(t, p)
      decreases |p|
    {
      if p == [] {
        return t == [];
      }
      if p[0] == '*' {
        p := p[1..];
        if p == [] {
          return true;
        }
        ghost var u := t;
        if p[0] != '?' && p[0] != '*' {
          while t != []
            invariant |t| <= |s| && Scan(u, p) == Scan(t, p)
            decreases |t|
          {
            if t[0] == p[0] {
              var rest := MatchPattern(t[1..], p[1..]);
              if rest {
                return true;
              }
            }
            t := t[1..];
          }
          return false;
        }
        while t != []
          invariant |t| <= |s| && Scan(u, p) == Scan(t, p)
          decreases |t|
        {
          var rest := MatchPattern(t, p);
          if rest {
            return true;
          }
          t := t[1..];
        }
        return false;
      }
      if t == [] {
        return false;
      }
      if p[0] != '?' && p[0] != t[0] {
        return false;
      }
      t, p := t[1..], p[1..];
    }
  }

  // ---------- the two compared ----------

  predicate Stars(p: string) { forall i :: 0 <= i < |p| ==> p[i] == '*' }

  predicate EndsInTwoStars(p: string) { |p| >= 2 && p[|p| - 1] == '*' && p[|p| - 2] == '*' }

  /** The pattern whose meaning match_pattern decides: stars at the end, when there are two
      or more, ask for at least one character. */
  function Decided(p: string): string
    decreases |p|
  {
    if p == [] then []
    else if |p| >= 2 && Stars(p) then "?*"
    else [p[0]] + Decided(p[1..])
  }

  /** match_pattern accepts a string just when the pattern it decides denotes it. */
  lemma {:induction false} AcceptsIsDecided(s: string, p: string)
    ensures Accepts(s, p) <==> Denotes(Decided(p), s)
    decreases |p|, |s|, 1
  {
    if p == [] {
    } else if p[0] == '*' {
      AcceptsStar(s, p);
    } else if s != [] {
      AcceptsIsDecided(s[1..], p[1..]);
      assert Decided(p)[1..] == Decided(p[1..]);
    } else {
      assert Decided(p)[0] == p[0];
    }
  }

  lemma {:induction false} AcceptsStar(s: string, p: string)
    requires p != [] && p[0] == '*'
    ensures Accepts(s, p) <==> Denotes(Decided(p), s)
    decreases |p|, |s|, 0
  {
    var q := p[1..];
    if q == [] {
      assert Decided(p) == "*";
      StarDenotesAll(s);
    } else if Stars(p) {
      ScanStars(s, q);
      OneOrMore(s);
    } else {
      ScanIsSome(s, q);
      assert Decided(p) == ['*'] + Decided(q);
      assert Decided(p)[1..] == Decided(q);
    }
  }

  lemma StarDenotesAll(s: string)
    ensures Denotes("*", s)
  {
    assert "*"[1..] == "";
    assert s[|s|..] == [];
    assert Denotes("*"[1..], s[|s|..]);
  }

  lemma OneOrMore(s: string)
    ensures Denotes("?*", s) <==> s != []
  {
    assert "?*"[1..] == "*";
    if s != [] { StarDenotesAll(s[1..]); }
  }

  lemma {:induction false} ScanStars(s: string, q: string)
    requires q != [] && Stars(q)
    ensures Scan(s, q) <==> s != []
    decreases |q|
  {
    if s != [] {
      if q[1..] != [] { ScanStars(s, q[1..]); }
      assert Accepts(s, q);
      assert Here(s, q);
    }
  }

  /** The loops find a position exactly when some rest of the string is denoted. */
  lemma {:induction false} ScanIsSome(s: string, q: string)
    requires q != [] && !Stars(q)
    ensures Scan(s, q) <==> exists k :: 0 <= k <= |s| && Denotes(Decided(q), s[k..])
    decreases |q|, |s|, 3
  {
    if s == [] {
      NeedsOne(q);
      assert s[0..] == [];
    } else {
      HereIsDenoted(s, q);
      ScanIsSome(s[1..], q);
      assert s[0..] == s;
      forall k | 0 <= k <= |s| - 1 ensures s[1..][k..] == s[k + 1..] {
      }
      if k :| 0 <= k <= |s| && Denotes(Decided(q), s[k..]) {
        assert k > 0 ==> s[1..][k - 1..] == s[k..];
      }
      if k :| 0 <= k <= |s[1..]| && Denotes(Decided(q), s[1..][k..]) {
        assert Denotes(Decided(q), s[k + 1..]);
      }
    }
  }

  lemma HereIsDenoted(s: string, q: string)
    requires q != [] && s != [] && !Stars(q)
    ensures Here(s, q) <==> Denotes(Decided(q), s)
    decreases |q|, |s|, 2
  {
    if q[0] != '?' && q[0] != '*' {
      AcceptsIsDecided(s[1..], q[1..]);
      assert Decided(q)[1..] == Decided(q[1..]);
    } else {
      AcceptsIsDecided(s, q);
    }
  }

  /** A pattern with a character other than a star does not denote the empty string. */
  lemma {:induction false} NeedsOne(q: string)
    requires !Stars(q)
    ensures !Denotes(Decided(q), [])
    decreases |q|
  {
    assert Decided(q)[0] == q[0] && Decided(q)[1..] == Decided(q[1..]);
    if q[0] == '*' {
      NeedsOne(q[1..]);
      assert forall k :: 0 <= k <= 0 ==> ""[k..] == "";
    }
  }

  // ---------- soundness, and where the two part ----------

  /** Whatever match_pattern accepts, the pattern denotes. */
  lemma {:induction false} AcceptsIsSound(s: string, p: string)
    requires Accepts(s, p)
    ensures Denotes(p, s)
  {
    AcceptsIsDecided(s, p);
    DecidedDenotes(p, s);
  }

  lemma {:induction false} DecidedDenotes(p: string, s: string)
    requires Denotes(Decided(p), s)
    ensures Denotes(p, s)
    decreases |p|
  {
    if p == [] {
    } else if |p| >= 2 && Stars(p) {
      StarsDenoteAll(p, s);
    } else {
      var d := Decided(p);
      assert d[0] == p[0] && d[1..] == Decided(p[1..]);
      if p[0] == '*' {
        var k :| 0 <= k <= |s| && Denotes(d[1..], s[k..]);
        DecidedDenotes(p[1..], s[k..]);
      } else {
        DecidedDenotes(p[1..], s[1..]);
      }
    }
  }

  lemma {:induction false} StarsDenoteAll(p: string, s: string)
    requires p != [] && Stars(p)
    ensures Denotes(p, s)
    decreases |p|
  {
    if p[1..] == [] {
      assert s[|s|..] == [] && Denotes(p[1..], s[|s|..]);
    } else {
      StarsDenoteAll(p[1..], s);
      assert s[0..] == s;
    }
  }

  function NonStars(p: string): nat {
    if p == [] then 0 else (if p[0] == '*' then 0 else 1) + NonStars(p[1..])
  }

  /** A string of that length: question marks and stars filled as briefly as can be. */
  function Shortest(p: string): (s: string)
    ensures |s| == NonStars(p)
  {
    if p == [] then [] else (if p[0] == '*' then [] else [p[0]]) + Shortest(p[1..])
  }

  lemma {:induction false} ShortestIsDenoted(p: string)
    ensures Denotes(p, Shortest(p))
    decreases |p|
  {
    if p != [] {
      ShortestIsDenoted(p[1..]);
      if p[0] == '*' {
        assert Shortest(p)[0..] == Shortest(p[1..]);
      } else {
        assert Shortest(p)[1..] == Shortest(p[1..]);
      }
    }
  }

  lemma {:induction false} NoneShorter(p: string, s: string)
    requires Denotes(p, s)
    ensures |s| >= NonStars(p)
    decreases |p|
  {
    if p != [] {
      if p[0] == '*' {
        var k :| 0 <= k <= |s| && Denotes(p[1..], s[k..]);
        NoneShorter(p[1..], s[k..]);
      } else {
        NoneShorter(p[1..], s[1..]);
      }
    }
  }

  lemma {:induction false} DecidedNeedsMore(p: string)
    ensures !EndsInTwoStars(p) ==> Decided(p) == p
    ensures EndsInTwoStars(p) ==> NonStars(Decided(p)) == NonStars(p) + 1
    decreases |p|
  {
    if p == [] {
    } else if |p| >= 2 && Stars(p) {
      NoNonStars(p);
      assert "?*"[1..] == "*" && "*"[1..] == "";
    } else {
      DecidedNeedsMore(p[1..]);
      var d := Decided(p);
      assert d[0] == p[0] && d[1..] == Decided(p[1..]);
      assert |p| == 2 && EndsInTwoStars(p) ==> Stars(p);
      assert |p| > 2 ==> (EndsInTwoStars(p) <==> EndsInTwoStars(p[1..]));
    }
  }

  lemma {:induction false} NoNonStars(p: string)
    requires Stars(p)
    ensures NonStars(p) == 0
    decreases |p|
  {
    if p != [] { NoNonStars(p[1..]); }
  }

  /** match_pattern decides what the pattern means for every string, unless the pattern ends in two stars. */
  lemma MeaningIsDecided(p: string)
    ensures (forall s: string :: Accepts(s, p) <==> Denotes(p, s)) <==> !EndsInTwoStars(p)
  {
    DecidedNeedsMore(p);
    forall s: string ensures Accepts(s, p) <==> Denotes(Decided(p), s) {
      AcceptsIsDecided(s, p);
    }
    if EndsInTwoStars(p) {
      var s := Shortest(p);
      ShortestIsDenoted(p);
      if Denotes(Decided(p), s) { NoneShorter(Decided(p), s); }
      assert !Accepts(s, p) && Denotes(p, s);
    }
  }
}
