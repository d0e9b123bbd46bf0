/**
 What a line of the list of known hosts says, written out: any blanks, the patterns of the host and
 three decimal numbers behind blanks; and which lines say nothing.
 */
module HostLines {
  import opened Options
  import opened Match
  import opened Hostfile
  import opened KnownHosts

  /** Spaces and tabs. */
  predicate Blanks(w: string) { forall i :: 0 <= i < |w| ==> w[i] in " \t" }

  predicate Digits(d: string) { d != [] && forall i :: 0 <= i < |d| ==> d[i] in "0123456789" }

  /** Patterns of a host: no blank, no NUL, and no comment. */
  predicate Name(n: string) {
    n != [] && n[0] !in "#\n" && forall i :: 0 <= i < |n| ==> n[i] !in " \t\0"
  }

  /** What may stand behind the last number. */
  predicate Rest(r: string) { '\0' !in r && (r == [] || r[0] !in "0123456789") }

  lemma {:induction false} DecimalDigits(d: string, c: char)
    requires c in "0123456789"
    ensures Decimal("") == 0 && Decimal(d + [c]) == 10 * Decimal(d) + (c as int - '0' as int)
  {
    assert (d + [c])[..|d|] == d;
  }

  lemma NumberBehind(w: string, d: string, r: string)
    requires Blanks(w) && Digits(d) && (r == [] || r[0] !in "0123456789")
    ensures NumberIn(w + d + r) == Some((Decimal(d), r))
  {
    hide Decimal;
    assert w + d + r == w + (d + r);
    Parts(w, d + r, Blank);
    Parts(d, r, Digit);
  }

  /** What a key line has behind the name. */
  function Numbers(w1: string, b: string, w2: string, e: string, w3: string, n: string, r: string): string {
    w1 + b + (w2 + e + (w3 + n + r))
  }

  lemma KeyBehind(w1: string, b: string, w2: string, e: string, w3: string, n: string, r: string)
    requires Blanks(w1) && Blanks(w2) && Blanks(w3) && w2 != [] && w3 != []
    requires Digits(b) && Digits(e) && Digits(n) && Rest(r)
    ensures KeyIn(Numbers(w1, b, w2, e, w3, n, r)) ==
            Some((HostKey(Decimal(b) % 0x1_0000_0000, Decimal(e), Decimal(n)), Drop(r, Blank)))
  {
    hide NumberIn, Decimal, Drop;
    NumberBehind(w3, n, r);
    var s2 := w3 + n + r;
    assert s2[0] == w3[0];
    NumberBehind(w2, e, s2);
    var s1 := w2 + e + s2;
    assert s1[0] == w2[0];
    NumberBehind(w1, b, s1);
  }

  /** A line with a name and three numbers says whether the key is that of a host that the name matches. */
  lemma LineIsRead(w0: string, name: string, w1: string, b: string, w2: string, e: string, w3: string, n: string,
                   r: string, host: string, key: HostKey)
    requires Blanks(w0) && Blanks(w1) && Blanks(w2) && Blanks(w3) && w1 != [] && w2 != [] && w3 != []
    requires Name(name) && Digits(b) && Digits(e) && Digits(n) && Rest(r)
    ensures Says(w0 + name + Numbers(w1, b, w2, e, w3, n, r), host, key) ==
            if !HostnameMatches(host, None, Subpatterns(name)) then Ignored
            else if key == HostKey(Decimal(b) % 0x1_0000_0000, Decimal(e), Decimal(n)) then Same
            else Other
  {
    KeyBehind(w1, b, w2, e, w3, n, r);
    var tail := Numbers(w1, b, w2, e, w3, n, r);
    NoNul(w1, b, w2, e, w3, n, r);
    assert tail[0] == w1[0];
    LineParts(w0, name, tail);
    hide HostnameMatches, Subpatterns, KeyIn, Numbers, Decimal, Drop, Take;
  }

  lemma NoNul(w1: string, b: string, w2: string, e: string, w3: string, n: string, r: string)
    requires Blanks(w1) && Blanks(w2) && Blanks(w3) && Digits(b) && Digits(e) && Digits(n) && Rest(r)
    ensures '\0' !in Numbers(w1, b, w2, e, w3, n, r)
  {
    var s2 := w3 + n + r;
    assert '\0' !in s2;
    var s1 := w2 + e + s2;
    assert '\0' !in s1;
  }

  lemma LineParts(w0: string, name: string, tail: string)
    requires Blanks(w0) && Name(name) && '\0' !in tail && (tail == [] || tail[0] in " \t")
    ensures var line := w0 + name + tail;
            var t := name + tail;
            && Take(line, NotNul) == line && Drop(line, Blank) == t && t != [] && t[0] !in "#\n"
            && Take(t, Wordy) == name && Drop(t, Wordy) == tail
  {
    var line := w0 + name + tail;
    assert forall i :: 0 <= i < |line| ==> NotNul(line[i]) by {
      assert '\0' !in w0 && '\0' !in name;
    }
    Parts(line, "", NotNul);
    assert line + "" == line && line == w0 + (name + tail);
    Parts(w0, name + tail, Blank);
    Parts(name, tail, Wordy);
  }

  lemma {:induction false} TakeDrop(s: string, p: char -> bool)
    ensures s == Take(s, p) + Drop(s, p) && (forall i :: 0 <= i < |Take(s, p)| ==> p(Take(s, p)[i]))
    ensures Drop(s, p) != [] ==> !p(Drop(s, p)[0])
  {
    if s != [] && p(s[0]) {
      TakeDrop(s[1..], p);
    }
  }

  lemma NumberFound(s: string) returns (w: string, d: string, r: string)
    requires NumberIn(s).Some?
    ensures Blanks(w) && Digits(d) && s == w + d + r && (r == [] || r[0] !in "0123456789")
    ensures NumberIn(s).value == (Decimal(d), r)
  {
    hide Decimal;
    TakeDrop(s, Blank);
    var t := Drop(s, Blank);
    TakeDrop(t, Digit);
    w, d, r := Take(s, Blank), Take(t, Digit), Drop(t, Digit);
    hide Take, Drop;
    assert w + d + r == w + (d + r);
  }

  lemma KeyFound(s: string) returns (w1: string, b: string, w2: string, e: string, w3: string, n: string, r: string)
    requires KeyIn(s).Some? && (s == [] || s[0] !in "0123456789")
    ensures Blanks(w1) && Blanks(w2) && Blanks(w3) && w1 != [] && w2 != [] && w3 != []
    ensures Digits(b) && Digits(e) && Digits(n) && s == Numbers(w1, b, w2, e, w3, n, r)
    ensures r == [] || r[0] !in "0123456789"
  {
    hide NumberIn, Decimal, Drop;
    var s1, s2;
    w1, b, s1 := NumberFound(s);
    w2, e, s2 := NumberFound(s1);
    w3, n, r := NumberFound(s2);
    assert s[0] == (w1 + b)[0] && s1[0] == (w2 + e)[0] && s2[0] == (w3 + n)[0];
    assert s == w1 + b + s1 && s1 == w2 + e + s2 && s2 == w3 + n + r;
  }

  /** Only such a line says something; what stands behind a NUL is not looked at. */
  lemma OnlySuchLines(line: string, host: string, key: HostKey)
    returns (w0: string, name: string, w1: string, b: string, w2: string, e: string, w3: string, n: string, r: string)
    requires Says(line, host, key) != Ignored
    ensures Blanks(w0) && Blanks(w1) && Blanks(w2) && Blanks(w3) && w1 != [] && w2 != [] && w3 != []
    ensures Name(name) && Digits(b) && Digits(e) && Digits(n) && Rest(r)
    ensures w0 + name + Numbers(w1, b, w2, e, w3, n, r) <= line
  {
    hide HostnameMatches, Subpatterns, KeyIn, Numbers;
    TakeDrop(line, NotNul);
    var text := Take(line, NotNul);
    TakeDrop(text, Blank);
    var t := Drop(text, Blank);
    TakeDrop(t, Wordy);
    w0, name := Take(text, Blank), Take(t, Wordy);
    var tail := Drop(t, Wordy);
    hide Take, Drop;
    w1, b, w2, e, w3, n, r := KeyFound(tail);
    assert w0 + name + tail == w0 + (name + tail) == text;
    RestIsWithin(w1, b, w2, e, w3, n, r);
    assert forall i :: 0 <= i < |tail| ==> tail[i] == text[|w0 + name| + i];
    assert forall i :: 0 <= i < |name| ==> name[i] == text[|w0| + i];
  }

  lemma RestIsWithin(w1: string, b: string, w2: string, e: string, w3: string, n: string, r: string)
    ensures '\0' in r ==> '\0' in Numbers(w1, b, w2, e, w3, n, r)
  {
    var s2 := w3 + n + r;
    assert '\0' in r ==> '\0' in s2;
    var s1 := w2 + e + s2;
    assert '\0' in r ==> '\0' in s1;
  }

  /** Empty lines and comments say nothing. */
  lemma NothingSaid(w: string, t: string, host: string, key: HostKey)
    requires Blanks(w) && '\0' !in t && (t == "" || t[0] in "#\n")
    ensures Says(w + t, host, key) == Ignored
  {
    hide HostnameMatches, Subpatterns, KeyIn, Take, Drop;
    LineStarts(w, t);
  }

  lemma LineStarts(w: string, t: string)
    requires Blanks(w) && '\0' !in t && (t == [] || t[0] !in " \t")
    ensures Drop(Take(w + t, NotNul), Blank) == t
  {
    assert '\0' !in w;
    Parts(w + t, "", NotNul);
    assert w + t + "" == w + t;
    Parts(w, t, Blank);
  }

  /** The entry that is added: the host, of which no more than 500 characters, and the key in decimal. */
  lemma EntryLaw(host: string, key: HostKey) returns (b: string, e: string, n: string)
    ensures Digits(b) && Digits(e) && Digits(n)
    ensures Decimal(b) == key.bits && Decimal(e) == key.e && Decimal(n) == key.n
    ensures Entry(host, key) ==
            host[..if |host| < 500 then |host| else 500] + " " + b + " " + e + " " + n + "\n"
  {
    hide Show, Decimal;
    b, e, n := Show(key.bits), Show(key.e), Show(key.n);
    ShowIsDecimal(key.bits);
    ShowIsDecimal(key.e);
    ShowIsDecimal(key.n);
    assert Shortened(host) == host[..if |host| < 500 then |host| else 500];
    hide Shortened;
  }

  /** A line ends behind a newline, and after 16383 characters at the latest. */
  lemma LineLength(s: string)
    requires s != []
    ensures var line := Lines(s)[0];
            && line != [] && line <= s && |line| <= 16383 && Lines(s)[1..] == Lines(s[|line|..])
            && (forall i :: 0 <= i < |line| - 1 ==> line[i] != '\n')
            && (line == s || |line| == 16383 || line[|line| - 1] == '\n')
  {
    LinesOfRest(s);
    GetsShape(s, LINE_SIZE - 1);
  }

  lemma {:induction false} GetsShape(s: string, room: nat)
    requires s != [] && room > 0
    ensures var line := Gets(s, room);
            && line != [] && line <= s && |line| <= room
            && (forall i :: 0 <= i < |line| - 1 ==> line[i] != '\n')
            && (line == s || |line| == room || line[|line| - 1] == '\n')
    decreases room
  {
    if s[0] != '\n' && s[1..] != [] && room > 1 {
      GetsShape(s[1..], room - 1);
      var rest := Gets(s[1..], room - 1);
      assert Gets(s, room) == [s[0]] + rest;
    } else if s[0] != '\n' {
      assert Gets(s[1..], room - 1) == [];
    }
  }
}
