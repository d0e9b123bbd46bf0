/**
 Host names against comma-separated patterns (hostfile.c:139-185, match.c:115-137).
 */
module Hostfile {
  import opened Options
  import opened Match

  // ---------- match_host ----------

  /** A character that keeps a pattern from being an address pattern. */
  predicate Alphabetic(c: char) { !('0' <= c <= '9' || c == '.' || c == '?' || c == '*') }

  predicate AddressPattern(p: string) { forall i :: 0 <= i < |p| ==> !Alphabetic(p[i]) }

  lemma AddressCharacters(p: string)
    ensures AddressPattern(p) <==> forall i :: 0 <= i < |p| ==> p[i] in "0123456789.?*"
  {
  }

  /** Digits, dots and wildcards are compared with the address when there is one. */
  predicate HostAccepted(host: string, ip: Option<string>, p: string) {
    if ip.Some? && AddressPattern(p) then Accepts(ip.value, p) else Accepts(host, p)
  }

  /** match_host */
  method MatchHost(host: string, ip: Option<string>, pattern: string) returns (r: bool)
    ensures r == HostAccepted(host, ip, pattern)
    ensures r == if ip.Some? && forall i :: 0 <= i < |pattern| ==> pattern[i] in "0123456789.?*"
                 then Accepts(ip.value, pattern) else Accepts(host, pattern)
  {
    AddressCharacters(pattern);
    var isIpPattern := ip.Some?;
    var i := 0;
    while i < |pattern|
      invariant i <= |pattern| && isIpPattern == ip.Some?
      invariant forall k :: 0 <= k < i ==> !Alphabetic(pattern[k])
    {
      if Alphabetic(pattern[i]) {
        isIpPattern := false;
        break;
      }
      i := i + 1;
    }
    if isIpPattern {
      r := MatchPattern(ip.value, pattern);
    } else {
      r := MatchPattern(host, pattern);
    }
  }

  // ---------- match_hostname ----------

  const LONGEST_SUBPATTERN := 1024 - 2

  datatype Subpattern = Subpattern(negated: bool, text: string)

  function Lower(c: char): char { if 'A' <= c <= 'Z' then c - 'A' + 'a' else c }

  function LowerAll(s: string): (t: string)
    ensures |t| == |s|
  {
    seq(|s|, i requires 0 <= i < |s| => Lower(s[i]))
  }

  /** The length of the part before the first comma. */
  function ToComma(s: string): (n: nat)
    ensures n <= |s| && (n < |s| ==> s[n] == ',') && ',' !in s[..n]
    decreases |s|
  {
    if s == [] || s[0] == ',' then 0
    else
      var n := ToComma(s[1..]);
      assert s[..n + 1] == [s[0]] + s[1..][..n];
      n + 1
  }

  /** Behind the text of the first subpattern, and behind its comma. */
  function BehindComma(s: string): (t: string)
    ensures |t| <= |s| && (s != [] ==> |t| < |s|)
  {
    var n := ToComma(s);
    if n < |s| then s[n + 1..] else []
  }

  function Unmarked(s: string): string
    requires s != []
  {
    if s[0] == '!' then s[1..] else s
  }

  function Subpatterns(s: string): seq<Subpattern>
    decreases |s|
  {
    if s == [] then [] else
    var u := Unmarked(s);
    [Subpattern(s[0] == '!', LowerAll(u[..ToComma(u)]))] + Subpatterns(BehindComma(u))
  }

  /** No subpattern is too long, none that is negated matches, and some other one does. */
  predicate HostnameMatches(host: string, ip: Option<string>, subs: seq<Subpattern>) {
    && (forall i :: 0 <= i < |subs| ==> |subs[i].text| <= LONGEST_SUBPATTERN)
    && (forall i :: 0 <= i < |subs| && subs[i].negated ==> !HostAccepted(host, ip, subs[i].text))
    && (exists i :: 0 <= i < |subs| && !subs[i].negated && HostAccepted(host, ip, subs[i].text))
  }

  /** What the rest of the list must still be like, given whether something positive was found. */
  predicate StillMatches(host: string, ip: Option<string>, subs: seq<Subpattern>, got: bool) {
    && (forall i :: 0 <= i < |subs| ==> |subs[i].text| <= LONGEST_SUBPATTERN)
    && (forall i :: 0 <= i < |subs| && subs[i].negated ==> !HostAccepted(host, ip, subs[i].text))
    && (got || exists i :: 0 <= i < |subs| && !subs[i].negated && HostAccepted(host, ip, subs[i].text))
  }

  /** One turn of the loop decides about the first subpattern and leaves the rest. */
  lemma FirstDecides(host: string, ip: Option<string>, sub: Subpattern, rest: seq<Subpattern>, got: bool)
    ensures var hit := HostAccepted(host, ip, sub.text);
            StillMatches(host, ip, [sub] + rest, got) <==>
              && |sub.text| <= LONGEST_SUBPATTERN && !(sub.negated && hit)
              && StillMatches(host, ip, rest, got || (hit && !sub.negated))
  {
    hide HostAccepted;
    var all := [sub] + rest;
    assert all[0] == sub && all[1..] == rest;
    assert forall i :: 0 <= i < |rest| ==> rest[i] == all[i + 1];
    if StillMatches(host, ip, all, got) && !got && !(HostAccepted(host, ip, sub.text) && !sub.negated) {
      var i :| 0 <= i < |all| && !all[i].negated && HostAccepted(host, ip, all[i].text);
      assert i > 0 && rest[i - 1] == all[i];
    }
  }

  /** The loop over sub: up to a comma, to the end or to what sub can hold. */
  method Extract(pattern: string, start: nat) returns (sub: string, i: nat)
    requires start <= |pattern|
    ensures var n := ToComma(pattern[start..]);
            if n <= LONGEST_SUBPATTERN then sub == LowerAll(pattern[start..][..n]) && i == start + n
            else |sub| > LONGEST_SUBPATTERN
  {
    hide ToComma, LowerAll;
    i, sub := start, "";
    assert pattern[start..start] == "";
    NothingLower();
    while i < |pattern| && |sub| < 1024 - 1 && pattern[i] != ','
      invariant start <= i <= |pattern| && i - start == |sub| <= 1024 - 1
      invariant sub == LowerAll(pattern[start..i])
      invariant ToComma(pattern[start..]) == |sub| + ToComma(pattern[i..])
    {
      assert pattern[i..][1..] == pattern[i + 1..];
      assert pattern[start..i + 1] == pattern[start..i] + [pattern[i]];
      CommaStep(pattern[i..]);
      LowerMore(pattern[start..i], pattern[i]);
      sub := sub + [Lower(pattern[i])];
      i := i + 1;
    }
    assert pattern[start..][..|sub|] == pattern[start..i];
    CommaStep(pattern[i..]);
  }

  lemma CommaStep(s: string)
    ensures ToComma(s) == if s == [] || s[0] == ',' then 0 else 1 + ToComma(s[1..])
  {
  }

  lemma NothingLower()
    ensures LowerAll("") == ""
  {
  }

  lemma LowerMore(s: string, c: char)
    ensures LowerAll(s + [c]) == LowerAll(s) + [Lower(c)]
  {
  }

  /** One turn of the loop on the list t: u is t without its mark. */
  lemma Turn(host: string, ip: Option<string>, t: string, got: bool)
    requires t != []
    ensures var u := Unmarked(t); var text := LowerAll(u[..ToComma(u)]); var hit := HostAccepted(host, ip, text);
            StillMatches(host, ip, Subpatterns(t), got) <==>
              && ToComma(u) <= LONGEST_SUBPATTERN && !(t[0] == '!' && hit)
              && StillMatches(host, ip, Subpatterns(BehindComma(u)), got || (hit && t[0] != '!'))
  {
    hide StillMatches, HostAccepted, ToComma, BehindComma, LowerAll;
    var u := Unmarked(t);
    FirstDecides(host, ip, Subpattern(t[0] == '!', LowerAll(u[..ToComma(u)])), Subpatterns(BehindComma(u)), got);
  }

  lemma Behind(pattern: string, i: nat)
    requires i <= |pattern|
    ensures var n := ToComma(pattern[i..]);
            BehindComma(pattern[i..]) == if i + n < |pattern| && pattern[i + n] == ',' then pattern[i + n + 1..] else
                pattern[i + n..]
  {
    hide ToComma;
  }

  lemma NothingMatches(host: string, ip: Option<string>, got: bool)
    ensures StillMatches(host, ip, Subpatterns(""), got) == got
  {
  }

  /** match_hostname */
  method MatchHostname(host: string, ip: Option<string>, pattern: string) returns (r: bool)
    ensures r == HostnameMatches(host, ip, Subpatterns(pattern))
  {
    hide HostAccepted, ToComma, StillMatches, BehindComma, Subpatterns, LowerAll;
    var got := false;
    var i := 0;
    assert pattern[0..] == pattern;
    Beginning(host, ip, Subpatterns(pattern));
    while i < |pattern|
      invariant i <= |pattern|
      invariant StillMatches(host, ip, Subpatterns(pattern[i..]), got) ==
                HostnameMatches(host, ip, Subpatterns(pattern))
    {
      ghost var t := pattern[i..];
      Turn(host, ip, t, got);
      var negated := pattern[i] == '!';
      if negated {
        i := i + 1;
      }
      assert pattern[i..] == Unmarked(t);
      Behind(pattern, i);
      var sub;
      sub, i := Extract(pattern, i);
      if |sub| >= 1024 - 1 {
        return false;
      }
      if i < |pattern| && pattern[i] == ',' {
        i := i + 1;
      }
      var hit := MatchHost(host, ip, sub);
      if hit {
        if negated {
          return false;
        } else {
          got := true;
        }
      }
    }
    assert pattern[i..] == "";
    NothingMatches(host, ip, got);
    r := got;
  }

  lemma Beginning(host: string, ip: Option<string>, subs: seq<Subpattern>)
    ensures StillMatches(host, ip, subs, false) == HostnameMatches(host, ip, subs)
  {
  }

  // ---------- what the list says ----------

  /** A subpattern reaches up to the next comma, a mark in front of it negates it, and capital letters
      are read as small ones. */
  lemma ListIsRead(text: string, rest: string, i: nat)
    requires text != [] && text[0] != '!' && ',' !in text && i < |text|
    ensures Subpatterns(text) == [Subpattern(false, LowerAll(text))]
    ensures Subpatterns("!" + text) == [Subpattern(true, LowerAll(text))]
    ensures Subpatterns(text + "," + rest) == [Subpattern(false, LowerAll(text))] + Subpatterns(rest)
    ensures Subpatterns("!" + text + "," + rest) == [Subpattern(true, LowerAll(text))] + Subpatterns(rest)
    ensures LowerAll(text)[i] as int == text[i] as int + if 'A' <= text[i] <= 'Z' then 32 else 0
  {
    hide Subpatterns, LowerAll;
    CommaBehind(text, "");
    CommaBehind(text, "," + rest);
    assert text + "" == text && text + ("," + rest) == text + "," + rest;
    FirstIsRead(text, text, "");
    FirstIsRead(text, text + "," + rest, rest);
    NoSubpatterns();
    assert "!" + (text + "," + rest) == "!" + text + "," + rest;
    LowerIs(text, i);
  }

  lemma NoSubpatterns()
    ensures Subpatterns("") == []
  {
  }

  /** The list s begins with the text, up to its end or a comma. */
  lemma FirstIsRead(text: string, s: string, rest: string)
    requires text != [] && text[0] != '!' && text <= s && ToComma(s) == |text|
    requires if s == text then rest == "" else s == text + "," + rest
    ensures Subpatterns(s) == [Subpattern(false, LowerAll(text))] + Subpatterns(rest)
    ensures Subpatterns("!" + s) == [Subpattern(true, LowerAll(text))] + Subpatterns(rest)
  {
    hide ToComma, LowerAll;
    assert s[..|text|] == text && BehindComma(s) == rest && Unmarked(s) == s && Unmarked("!" + s) == s;
  }

  lemma LowerIs(s: string, i: nat)
    requires i < |s|
    ensures LowerAll(s)[i] as int == s[i] as int + if 'A' <= s[i] <= 'Z' then 32 else 0
  {
  }

  lemma {:induction false} CommaBehind(text: string, rest: string)
    requires ',' !in text && (rest == "" || rest[0] == ',')
    ensures ToComma(text + rest) == |text|
  {
    if text == [] {
      assert text + rest == rest;
    } else {
      CommaBehind(text[1..], rest);
      assert (text + rest)[1..] == text[1..] + rest;
    }
  }

  /** A list without negation and without two stars at the end of a subpattern means the union of its subpatterns. */
  lemma PlainListMeansUnion(host: string, pattern: string)
    requires forall i :: 0 <= i < |Subpatterns(pattern)| ==>
               var sub := Subpatterns(pattern)[i];
               !sub.negated && |sub.text| <= LONGEST_SUBPATTERN && !EndsInTwoStars(sub.text)
    ensures HostnameMatches(host, None, Subpatterns(pattern)) <==>
            exists i :: 0 <= i < |Subpatterns(pattern)| && Denotes(Subpatterns(pattern)[i].text, host)
  {
    var subs := Subpatterns(pattern);
    hide Subpatterns, Accepts, Denotes, EndsInTwoStars;
    forall i | 0 <= i < |subs| ensures HostAccepted(host, None, subs[i].text) <==> Denotes(subs[i].text, host) {
      MeaningIsDecided(subs[i].text);
    }
  }
}
