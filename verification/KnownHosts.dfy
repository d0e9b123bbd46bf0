/**
 The list of known hosts (hostfile.c): the entry that add_host_to_hostfile writes, the scan of
 check_host_in_hostfile, and what the scan says about a file of such entries.  A pointer into
 a line is the rest of the line.
 */
module KnownHosts {
  import opened Options
  import opened Match
  import opened Hostfile
  import Numbers

  /** The size of the buffer for a line, and of an unsigned int. */
  const LINE_SIZE := 16384
  const UINT := 0x1_0000_0000
  /** The precision of the host name in the entry. */
  const LONGEST_HOST := 500

  datatype HostStatus = HostOk | HostNew | HostChanged
  datatype HostKey = HostKey(bits: nat, e: nat, n: nat)

  // ---------- scanning ----------

  predicate Blank(c: char) { c == ' ' || c == '\t' }

  predicate Digit(c: char) { '0' <= c <= '9' }

  predicate Wordy(c: char) { !Blank(c) }

  predicate NotNul(c: char) { c != '\0' }

  /** The longest beginning of such characters, and what is behind it. */
  function Take(s: string, p: char -> bool): (t: string)
    ensures t <= s
  {
    if s != [] && p(s[0]) then [s[0]] + Take(s[1..], p) else []
  }

  function Drop(s: string, p: char -> bool): (t: string)
    ensures |t| <= |s|
  {
    if s != [] && p(s[0]) then Drop(s[1..], p) else s
  }

  lemma {:induction false} Parts(a: string, b: string, p: char -> bool)
    requires (forall i :: 0 <= i < |a| ==> p(a[i])) && (b == [] || !p(b[0]))
    ensures Take(a + b, p) == a && Drop(a + b, p) == b
  {
    if a == [] {
      assert a + b == b;
    } else {
      assert (a + b)[1..] == a[1..] + b;
      Parts(a[1..], b, p);
    }
  }

  /** Where a loop over such characters stops. */
  lemma Stopped(s: string, p: char -> bool, len: nat)
    requires len <= |s| && (forall i :: 0 <= i < len ==> p(s[i])) && (len == |s| || !p(s[len]))
    ensures Take(s, p) == s[..len] && Drop(s, p) == s[len..]
  {
    Parts(s[..len], s[len..], p);
    assert s[..len] + s[len..] == s;
  }

  /** A character that is no such character ends the beginning, whatever follows. */
  lemma {:induction false} Ended(a: string, b: string, p: char -> bool)
    requires exists i :: 0 <= i < |a| && !p(a[i])
    ensures Take(a + b, p) == Take(a, p) && Drop(a + b, p) == Drop(a, p) + b && Drop(a, p) != []
  {
    if p(a[0]) {
      var i :| 0 <= i < |a| && !p(a[i]);
      assert a[1..][i - 1] == a[i];
      assert (a + b)[1..] == a[1..] + b;
      Ended(a[1..], b, p);
    }
  }

  lemma {:induction false} NotEnded(a: string, b: string, p: char -> bool)
    requires forall i :: 0 <= i < |a| ==> p(a[i])
    ensures Take(a + b, p) == a + Take(b, p) && Drop(a + b, p) == Drop(b, p) && Take(a, p) == a && Drop(a, p) == []
  {
    if a == [] {
      assert a + b == b;
    } else {
      assert (a + b)[1..] == a[1..] + b;
      NotEnded(a[1..], b, p);
    }
  }

  // ---------- decimal numbers ----------

  function DigitValue(c: char): (d: nat)
    ensures d < 10
  {
    if Digit(c) then (c - '0') as nat else 0
  }

  function DigitChar(d: nat): (c: char)
    requires d < 10
    ensures Digit(c) && DigitValue(c) == d
  {
    '0' + d as char
  }

  /** mpz_set_str in base 10 */
  function Decimal(s: string): nat {
    if s == [] then 0 else 10 * Decimal(s[..|s| - 1]) + DigitValue(s[|s| - 1])
  }

  /** mpz_get_str in base 10 */
  function Show(v: nat): (s: string)
    ensures s != []
  {
    if v < 10 then [DigitChar(v)] else Show(v / 10) + [DigitChar(v % 10)]
  }

  lemma {:induction false} ShowIsDecimal(v: nat)
    ensures Decimal(Show(v)) == v && forall i :: 0 <= i < |Show(v)| ==> Digit(Show(v)[i])
    decreases v
  {
    if v < 10 {
      assert [DigitChar(v)][..0] == [];
    } else {
      ShowIsDecimal(v / 10);
      assert Show(v)[..|Show(v)| - 1] == Show(v / 10);
    }
  }

  // ---------- the numbers of a key ----------

  /** A number behind blanks, and what is behind it. */
  function NumberIn(s: string): Option<(nat, string)> {
    var t := Drop(s, Blank);
    if Take(t, Digit) == [] then None else Some((Decimal(Take(t, Digit)), Drop(t, Digit)))
  }

  /** The number of bits, e and n; the bits are counted in an unsigned int. */
  function KeyIn(s: string): Option<(HostKey, string)> {
    match NumberIn(s)
    case None => None
    case Some((bits, s1)) =>
      match NumberIn(s1)
      case None => None
      case Some((e, s2)) =>
        match NumberIn(s2)
        case None => None
        case Some((n, s3)) => Some((HostKey(bits % UINT, e, n), Drop(s3, Blank)))
  }

  method SkipBlanks(s: string) returns (cp: string)
    ensures cp == Drop(s, Blank)
  {
    var i := 0;
    while i < |s| && (s[i] == ' ' || s[i] == '\t')
      invariant i <= |s| && forall k :: 0 <= k < i ==> Blank(s[k])
    {
      i := i + 1;
    }
    Stopped(s, Blank, i);
    cp := s[i..];
  }

  /** auth_rsa_read_mp_int */
  method ReadMpInt(s: string) returns (r: Option<(nat, string)>)
    ensures r == NumberIn(s)
  {
    hide Decimal;
    hide Take, Drop;
    var start := SkipBlanks(s);
    if start == [] || start[0] < '0' || start[0] > '9' {
      Stopped(start, Digit, 0);
      return None;
    }
    var len := 0;
    while len < |start| && '0' <= start[len] <= '9'
      invariant len <= |start| && forall k :: 0 <= k < len ==> Digit(start[k])
    {
      len := len + 1;
    }
    Stopped(start, Digit, len);
    r := Some((Decimal(start[..len]), start[len..]));
  }

  /** auth_rsa_read_key */
  method ReadKey(s: string) returns (r: Option<(HostKey, string)>)
    ensures r == KeyIn(s)
  {
    hide Decimal;
    var cp := SkipBlanks(s);
    if cp == [] || cp[0] < '0' || cp[0] > '9' {
      return None;
    }
    var bits;
    bits, cp := ReadBits(cp);
    var e := ReadMpInt(cp);
    if e.None? {
      return None;
    }
    var n := ReadMpInt(e.value.1);
    if n.None? {
      return None;
    }
    cp := SkipBlanks(n.value.1);
    r := Some((HostKey(bits, e.value.0, n.value.0), cp));
  }

  /** The loop over the digits of the bit count, in unsigned arithmetic. */
  method ReadBits(s: string) returns (bits: nat, cp: string)
    ensures bits == Decimal(Take(s, Digit)) % UINT && cp == Drop(s, Digit)
  {
    hide Decimal, Digit, DigitValue, Take, Drop;
    bits := 0;
    var i := 0;
    assert s[..0] == "";
    NoDigits();
    while i < |s| && Digit(s[i])
      invariant i <= |s| && bits == Decimal(s[..i]) % UINT && forall k :: 0 <= k < i ==> Digit(s[k])
    {
      DecimalMore(s, i);
      bits := (10 * bits + DigitValue(s[i])) % UINT;
      i := i + 1;
    }
    Stopped(s, Digit, i);
    cp := s[i..];
  }

  lemma NoDigits()
    ensures Decimal("") == 0
  {
  }

  lemma DecimalMore(s: string, len: nat)
    requires len < |s|
    ensures Decimal(s[..len + 1]) % UINT == (10 * (Decimal(s[..len]) % UINT) + DigitValue(s[len])) % UINT
  {
    assert s[..len + 1][..len] == s[..len];
    DigitBehind(Decimal(s[..len]), DigitValue(s[len]));
    assert Decimal(s[..len + 1]) == 10 * Decimal(s[..len]) + DigitValue(s[len]);
    hide Decimal, DigitValue;
  }

  lemma DigitBehind(a: nat, d: nat)
    ensures (10 * a + d) % UINT == (10 * (a % UINT) + d) % UINT
  {
    var b, q := 10 * (a % UINT) + d, a / UINT;
    assert 10 * a + d == b + UINT * (10 * q);
    Numbers.ModShift(b, UINT, 10 * q);
  }

  // ---------- the lines of a file ----------

  /** userfile_gets: up to a newline, at most `room` characters. */
  function Gets(s: string, room: nat): (line: string)
    ensures line <= s && (s != [] && room > 0 ==> line != [])
    decreases room
  {
    if s == [] || room == 0 then []
    else if s[0] == '\n' then [s[0]]
    else [s[0]] + Gets(s[1..], room - 1)
  }

  function Lines(s: string): seq<string>
    decreases |s|
  {
    if s == [] then [] else
    var line := Gets(s, LINE_SIZE - 1);
    [line] + Lines(s[|line|..])
  }

  lemma NoLines()
    ensures Lines("") == []
  {
  }

  lemma LinesOfRest(s: string)
    requires s != []
    ensures Lines(s) == [Gets(s, LINE_SIZE - 1)] + Lines(s[|Gets(s, LINE_SIZE - 1)|..])
  {
    hide Gets;
  }

  /** Nothing, or something that ends a line. */
  predicate AtLineStart(s: string) { s == [] || s[|s| - 1] == '\n' }

  /** The beginning of a line that has neither its newline nor the full length yet. */
  function Pending(s: string): (u: string)
    ensures |u| <= |s|
    decreases |s|
  {
    if s == [] then [] else
    var line := Gets(s, LINE_SIZE - 1);
    if |line| < |s| then Pending(s[|line|..])
    else if Complete(line, LINE_SIZE - 1) then [] else s
  }

  function Finished(s: string): string { s[..|s| - |Pending(s)|] }

  predicate Complete(line: string, room: nat) { line != [] && (line[|line| - 1] == '\n' || |line| == room) }

  /** A complete line does not depend on what follows. */
  lemma {:induction false} GetsStops(s: string, v: string, room: nat)
    requires s != [] && Complete(Gets(s, room), room)
    ensures Gets(s + v, room) == Gets(s, room)
    decreases room
  {
    if room > 1 && s[0] != '\n' {
      assert (s + v)[1..] == s[1..] + v;
      var rest := Gets(s[1..], room - 1);
      assert Gets(s, room) == [s[0]] + rest;
      if s[1..] != [] {
        assert Complete(rest, room - 1);
        GetsStops(s[1..], v, room - 1);
      }
    }
  }

  /** Reading a line that was read gives the same line. */
  lemma {:induction false} GetsAgain(s: string, room: nat)
    ensures Gets(Gets(s, room), room) == Gets(s, room)
    decreases room
  {
    if s != [] && room > 0 && s[0] != '\n' {
      GetsAgain(s[1..], room - 1);
      var rest := Gets(s[1..], room - 1);
      assert Gets(s, room) == [s[0]] + rest && ([s[0]] + rest)[1..] == rest;
    }
  }

  /** A complete line is read by itself. */
  lemma LineFirst(s: string, v: string)
    requires s != [] && Complete(Gets(s, LINE_SIZE - 1), LINE_SIZE - 1)
    ensures var line := Gets(s, LINE_SIZE - 1);
            && Lines(s + v) == [line] + Lines(s[|line|..] + v)
            && Lines(line + v) == [line] + Lines(v)
  {
    hide Lines;
    var line := Gets(s, LINE_SIZE - 1);
    GetsStops(s, v, LINE_SIZE - 1);
    GetsAgain(s, LINE_SIZE - 1);
    GetsStops(line, v, LINE_SIZE - 1);
    hide Gets;
    assert (s + v)[|line|..] == s[|line|..] + v && (line + v)[|line|..] == v;
    LinesOfRest(s + v);
    LinesOfRest(line + v);
  }

  /** What is appended continues the pending line, and leaves the finished ones alone. */
  lemma {:induction false} LinesContinue(s: string, v: string)
    ensures s == Finished(s) + Pending(s)
    ensures Lines(s + v) == Lines(Finished(s)) + Lines(Pending(s) + v)
    ensures |Pending(s)| < LINE_SIZE - 1 && forall i :: 0 <= i < |Pending(s)| ==> Pending(s)[i] != '\n'
    decreases |s|
  {
    hide Gets, Lines;
    NoLines();
    if s == [] {
      assert s + v == v && Pending(s) + v == v;
    } else {
      var line := Gets(s, LINE_SIZE - 1);
      if Complete(line, LINE_SIZE - 1) {
        ContinueBehind(s, v);
      } else {
        GetsIsShort(s, LINE_SIZE - 1);
        assert Pending(s) == s && Finished(s) == [];
      }
    }
  }

  lemma {:induction false} ContinueBehind(s: string, v: string)
    requires s != [] && Complete(Gets(s, LINE_SIZE - 1), LINE_SIZE - 1)
    ensures s == Finished(s) + Pending(s)
    ensures Lines(s + v) == Lines(Finished(s)) + Lines(Pending(s) + v)
    ensures |Pending(s)| < LINE_SIZE - 1 && forall i :: 0 <= i < |Pending(s)| ==> Pending(s)[i] != '\n'
    decreases |s|, 0
  {
    hide Gets, Lines;
    var line := Gets(s, LINE_SIZE - 1);
    var rest := s[|line|..];
    LinesContinue(rest, v);
    LineFirst(s, v);
    LineFirst(s, Finished(rest));
    assert Pending(s) == Pending(rest);
    assert Finished(s) == line + Finished(rest);
    assert [line] + (Lines(Finished(rest)) + Lines(Pending(rest) + v)) ==
           ([line] + Lines(Finished(rest))) + Lines(Pending(rest) + v);
  }

  lemma {:induction false} GetsIsShort(s: string, room: nat)
    requires s != [] && room > 0 && !Complete(Gets(s, room), room)
    ensures Gets(s, room) == s && |s| < room && forall i :: 0 <= i < |s| ==> s[i] != '\n'
    decreases room
  {
    if |s| > 1 && room > 1 && s[0] != '\n' {
      var rest := Gets(s[1..], room - 1);
      assert Gets(s, room) == [s[0]] + rest;
      GetsIsShort(s[1..], room - 1);
      assert forall i :: 1 <= i < |s| ==> s[i] == s[1..][i - 1];
    } else if s[0] != '\n' {
      assert Gets(s[1..], room - 1) == [];
    }
  }

  lemma PendingIsUnended(s: string)
    requires Pending(s) != []
    ensures !AtLineStart(s)
  {
    LinesContinue(s, []);
    var a, u := Finished(s), Pending(s);
    hide Pending, Finished, Lines;
    assert s[|s| - 1] == (a + u)[|a| + (|u| - 1)] == u[|u| - 1];
  }

  /** A file that ends its last line has none pending. */
  lemma EndedHasNonePending(s: string)
    requires AtLineStart(s)
    ensures Pending(s) == [] && Finished(s) == s
  {
    hide Pending;
    if Pending(s) != [] { PendingIsUnended(s); }
  }

  /** A line that fits is read as it is. */
  lemma {:induction false} GetsWhole(s: string, room: nat)
    requires |s| <= room && forall i :: 0 <= i < |s| - 1 ==> s[i] != '\n'
    ensures Gets(s, room) == s
    decreases room
  {
    if |s| > 1 {
      assert forall i :: 0 <= i < |s| - 2 ==> s[1..][i] == s[i + 1];
      GetsWhole(s[1..], room - 1);
    } else if |s| == 1 {
      assert s == [s[0]] && s[1..] == [];
    }
  }

  // ---------- what a line says ----------

  datatype Verdict = Ignored | Same | Other

  /** What one line says about the host and the key; it ends at a NUL. */
  function Says(line: string, host: string, key: HostKey): Verdict {
    var t := Drop(Take(line, NotNul), Blank);
    if t == [] || t[0] == '#' || t[0] == '\n' then Ignored
    else if !HostnameMatches(host, None, Subpatterns(Take(t, Wordy))) then Ignored
    else
      match KeyIn(Drop(t, Wordy))
      case None => Ignored
      case Some((k, _)) => if k == key then Same else Other
  }

  predicate Somewhere(lines: seq<string>, host: string, key: HostKey, v: Verdict) {
    exists i :: 0 <= i < |lines| && Says(lines[i], host, key) == v
  }

  /** The key on some line of the host; or other keys only; or no line of the host. */
  function StatusIn(lines: seq<string>, host: string, key: HostKey): HostStatus {
    if Somewhere(lines, host, key, Same) then HostOk
    else if Somewhere(lines, host, key, Other) then HostChanged
    else HostNew
  }

  /** The loop to the end of the host name portion. */
  method ReadName(s: string) returns (name: string, cp: string)
    ensures name == Take(s, Wordy) && cp == Drop(s, Wordy)
  {
    var i := 0;
    while i < |s| && s[i] != ' ' && s[i] != '\t'
      invariant i <= |s| && forall k :: 0 <= k < i ==> Wordy(s[k])
    {
      i := i + 1;
    }
    Stopped(s, Wordy, i);
    name, cp := s[..i], s[i..];
  }

  /** The turn of the loop for one line. */
  method ScanLine(line: string, host: string, key: HostKey) returns (v: Verdict)
    ensures v == Says(line, host, key)
  {
    hide HostnameMatches, Subpatterns, KeyIn, ToComma, LowerAll, Accepts;
    var cp := SkipBlanks(Take(line, NotNul));
    if cp == [] || cp[0] == '#' || cp[0] == '\n' {
      return Ignored;
    }
    var name;
    name, cp := ReadName(cp);
    var matched := MatchHostname(host, None, name);
    if !matched {
      return Ignored;
    }
    var k := ReadKey(cp);
    if k.None? {
      return Ignored;
    }
    v := if k.value.0 == key then Same else Other;
  }

  // ---------- the file ----------

  /** "%.500s" */
  function Shortened(host: string): string { if |host| > LONGEST_HOST then host[..LONGEST_HOST] else host }

  /** Three numbers, the last of which may be the end of the line. */
  function Shown(key: HostKey, rest: string): string {
    " " + (Show(key.bits) + (" " + (Show(key.e) + (" " + (Show(key.n) + rest)))))
  }

  /** "%.500s %u ", e, a blank, n and a newline */
  function Entry(host: string, key: HostKey): string {
    Shortened(host) + Shown(key, "\n")
  }

  class KnownHostsFile {
    /** None while the file does not exist or cannot be opened. */
    var contents: Option<string>

    /** check_host_in_hostfile */
    method Check(host: string, key: HostKey) returns (r: HostStatus)
      ensures r == if contents.None? then HostNew else StatusIn(Lines(contents.value), host, key)
    {
      if contents.None? {
        return HostNew;
      }
      hide Says, Lines, Gets, Somewhere;
      r := HostNew;
      NothingSeen(host, key);
      assert [] + Lines(contents.value) == Lines(contents.value);
      var rest := contents.value;
      ghost var seen := [];
      while rest != []
        invariant Lines(contents.value) == seen + Lines(rest)
        invariant !Somewhere(seen, host, key, Same)
        invariant r == if Somewhere(seen, host, key, Other) then HostChanged else HostNew
        decreases |rest|
      {
        LinesOfRest(rest);
        var line := Gets(rest, LINE_SIZE - 1);
        rest := rest[|line|..];
        var v := ScanLine(line, host, key);
        SeenOneMore(seen, line, host, key, Same);
        SeenOneMore(seen, line, host, key, Other);
        assert seen + ([line] + Lines(rest)) == (seen + [line]) + Lines(rest);
        seen := seen + [line];
        if v == Same {
          SeenInLonger(seen, Lines(rest), host, key);
          assert Somewhere(Lines(contents.value), host, key, Same);
          return HostOk;
        }
        if v == Other {
          r := HostChanged;
        }
      }
      assert Lines("") == [] by { NoLines(); }
      assert seen + [] == seen;
    }

    /** add_host_to_hostfile; `openable` tells whether the file could be opened or created. */
    method Add(host: string, key: HostKey, openable: bool) returns (ok: bool)
      requires key.bits < UINT
      modifies this
      ensures ok == openable
      ensures contents == if !ok then old(contents)
                          else Some((if old(contents).Some? then old(contents.value) else []) + Entry(host, key))
    {
      if !openable {
        return false;
      }
      var file := if contents.Some? then contents.value else [];
      ghost var before := file;
      file := file + (Shortened(host) + (" " + (Show(key.bits) + " ")));
      file := file + Show(key.e);
      file := file + " ";
      file := file + Show(key.n);
      file := file + "\n";
      Pieces(before, Shortened(host), Show(key.bits), Show(key.e), Show(key.n));
      contents := Some(file);
      ok := true;
    }
  }

  lemma Pieces(f: string, h: string, b: string, e: string, n: string)
    ensures ((((f + (h + (" " + (b + " ")))) + e) + " ") + n) + "\n" ==
            f + (h + (" " + (b + (" " + (e + (" " + (n + "\n")))))))
  {
  }

  lemma SeenOneMore(seen: seq<string>, line: string, host: string, key: HostKey, v: Verdict)
    ensures Somewhere(seen + [line], host, key, v) <==> Somewhere(seen, host, key, v) || Says(line, host, key) == v
  {
    hide Says;
    var all := seen + [line];
    assert all[|seen|] == line;
    assert forall i :: 0 <= i < |seen| ==> all[i] == seen[i];
  }

  lemma NothingSeen(host: string, key: HostKey)
    ensures forall v :: !Somewhere([], host, key, v)
  {
  }

  lemma SeenInLonger(seen: seq<string>, rest: seq<string>, host: string, key: HostKey)
    requires Somewhere(seen, host, key, Same)
    ensures Somewhere(seen + rest, host, key, Same)
  {
    hide Says;
    var i :| 0 <= i < |seen| && Says(seen[i], host, key) == Same;
    assert (seen + rest)[i] == seen[i];
  }

  // ---------- plain hosts ----------

  /** Characters that neither the scan nor the matcher treats in its own way. */
  predicate PlainChar(c: char) {
    !Blank(c) && c != '\n' && NotNul(c) && c != ',' && c != '*' && c != '?' && Lower(c) == c
  }

  predicate PlainHost(host: string) {
    && 0 < |host| <= LONGEST_HOST && host[0] != '#' && host[0] != '!'
    && forall i :: 0 <= i < |host| ==> PlainChar(host[i])
  }

  /** A pattern without wildcards accepts itself alone. */
  lemma {:induction false} LiteralAccepts(s: string, p: string)
    requires forall i :: 0 <= i < |p| ==> p[i] != '*' && p[i] != '?'
    ensures Accepts(s, p) <==> s == p
    decreases |p|
  {
    if p != [] && s != [] {
      LiteralAccepts(s[1..], p[1..]);
      assert s == [s[0]] + s[1..] && p == [p[0]] + p[1..];
    }
  }

  lemma PlainSubpattern(known: string)
    requires PlainHost(known)
    ensures Subpatterns(known) == [Subpattern(false, known)]
  {
    assert forall i :: 0 <= i < |known| ==> PlainChar(known[i]);
    var n := ToComma(known);
    assert n == |known|;
    assert known[..n] == known && LowerAll(known) == known;
    assert Subpatterns(BehindComma(known)) == [];
    hide ToComma, LowerAll;
  }

  lemma PlainMatches(known: string, host: string)
    requires PlainHost(known)
    ensures HostnameMatches(host, None, Subpatterns(known)) <==> host == known
  {
    PlainSubpattern(known);
    assert forall i :: 0 <= i < |known| ==> PlainChar(known[i]);
    LiteralAccepts(host, known);
    hide Subpatterns, Accepts;
    var subs := Subpatterns(known);
    assert subs[0].text == known && HostAccepted(host, None, known) == (host == known);
  }

  // ---------- what the scan says about an entry ----------

  lemma NumberShown(v: nat, rest: string)
    requires rest == [] || !Digit(rest[0])
    ensures NumberIn(" " + (Show(v) + rest)) == Some((v, rest))
  {
    ShowIsDecimal(v);
    var s := Show(v);
    hide Show, Decimal;
    assert (s + rest)[0] == s[0];
    Parts(" ", s + rest, Blank);
    Parts(s, rest, Digit);
  }

  lemma KeyShown(key: HostKey, rest: string)
    requires key.bits < UINT && (rest == [] || !Digit(rest[0]))
    ensures KeyIn(Shown(key, rest)) == Some((key, Drop(rest, Blank)))
  {
    hide NumberIn, Show, Drop;
    var s2 := " " + (Show(key.n) + rest);
    var s1 := " " + (Show(key.e) + s2);
    assert s1[0] == ' ' && s2[0] == ' ';
    NumberShown(key.bits, s1);
    NumberShown(key.e, s2);
    NumberShown(key.n, rest);
    KeyFrom(Shown(key, rest), s1, s2, rest, key);
  }

  lemma KeyFrom(s: string, s1: string, s2: string, s3: string, key: HostKey)
    requires key.bits < UINT && NumberIn(s) == Some((key.bits, s1))
    requires NumberIn(s1) == Some((key.e, s2)) && NumberIn(s2) == Some((key.n, s3))
    ensures KeyIn(s) == Some((key, Drop(s3, Blank)))
  {
    hide NumberIn, Drop;
  }

  lemma NewlineIsNoBlank()
    ensures Drop("\n", Blank) == "\n"
  {
  }

  /** The characters of the entry behind the host. */
  lemma TailChars(key: HostKey, tail: string)
    requires tail == Shown(key, "\n")
    ensures forall i :: 0 <= i < |tail| ==> NotNul(tail[i])
    ensures forall i :: 0 <= i < |tail| - 1 ==> tail[i] != '\n'
    ensures tail[|tail| - 1] == '\n'
  {
    ShowIsDecimal(key.bits);
    ShowIsDecimal(key.e);
    ShowIsDecimal(key.n);
    hide Show, Decimal;
  }

  lemma EntryParts(known: string, tail: string)
    requires PlainHost(known) && tail != [] && tail[0] == ' ' && forall i :: 0 <= i < |tail| ==> NotNul(tail[i])
    ensures var line := known + tail;
            && Drop(Take(line, NotNul), Blank) == line
            && Take(line, Wordy) == known && Drop(line, Wordy) == tail
  {
    assert forall i :: 0 <= i < |known| ==> PlainChar(known[i]);
    var line := known + tail;
    hide Take, Drop;
    Stopped(line, NotNul, |line|);
    assert line[..|line|] == line;
    Stopped(line, Blank, 0);
    Parts(known, tail, Wordy);
  }

  /** An entry speaks of its own host alone, and gives its own key. */
  lemma EntrySays(known: string, k: HostKey, host: string, key: HostKey)
    requires PlainHost(known) && k.bits < UINT
    ensures Says(Entry(known, k), host, key) == if host != known then Ignored else if k == key then Same else Other
  {
    hide KeyIn, HostnameMatches, Subpatterns, Show, Take, Drop;
    var tail := Shown(k, "\n");
    assert tail[0] == ' ';
    TailChars(k, tail);
    KeyShown(k, "\n");
    NewlineIsNoBlank();
    PlainMatches(known, host);
    EntryParts(known, tail);
    assert PlainChar(known[0]);
    assert (known + tail)[0] == known[0];
  }

  /** An entry is one line, if it fits into the buffer. */
  lemma EntryIsLine(host: string, key: HostKey)
    requires PlainHost(host) && |Entry(host, key)| < LINE_SIZE
    ensures Lines(Entry(host, key)) == [Entry(host, key)] && AtLineStart(Entry(host, key))
  {
    var tail := Shown(key, "\n");
    TailChars(key, tail);
    hide Show;
    assert forall i :: 0 <= i < |host| ==> PlainChar(host[i]);
    GetsWhole(Entry(host, key), LINE_SIZE - 1);
  }

  datatype Known = Known(host: string, key: HostKey)

  /** The better of two answers. */
  function Better(a: HostStatus, b: HostStatus): HostStatus {
    if a == HostOk || b == HostOk then HostOk
    else if a == HostChanged || b == HostChanged then HostChanged else HostNew
  }

  lemma SomewhereJoin(a: seq<string>, b: seq<string>, host: string, key: HostKey, v: Verdict)
    ensures Somewhere(a + b, host, key, v) <==> Somewhere(a, host, key, v) || Somewhere(b, host, key, v)
  {
    hide Says;
    assert forall i :: 0 <= i < |a| ==> (a + b)[i] == a[i];
    assert forall i :: 0 <= i < |b| ==> (a + b)[|a| + i] == b[i];
    if Somewhere(a + b, host, key, v) {
      var i :| 0 <= i < |a + b| && Says((a + b)[i], host, key) == v;
      assert i >= |a| ==> (a + b)[i] == b[i - |a|];
    }
  }

  /** What the scan answers for a file and something appended to it, for all of both. */
  lemma AnswerAppended(file: string, v: string, host: string, key: HostKey)
    ensures StatusIn(Lines(file + v), host, key) ==
            Better(StatusIn(Lines(Finished(file)), host, key), StatusIn(Lines(Pending(file) + v), host, key))
  {
    LinesContinue(file, v);
    var a, b := Lines(Finished(file)), Lines(Pending(file) + v);
    SomewhereJoin(a, b, host, key, Same);
    SomewhereJoin(a, b, host, key, Other);
    hide Lines, Finished, Pending, Somewhere;
  }

  // ---------- a line that was pending ----------

  /**
   What the pending line u says once an entry is written behind it: a NUL or a # cuts the entry
   off; blanks leave it as it is; an unfinished name list takes in the host and gets its key; and
   behind a finished name list the entry's host, bits and numbers run on from the numbers in u.
   */
  function Joined(u: string, added: Known, host: string, key: HostKey): Verdict
    requires added.key.bits < UINT
  {
    if '\0' in u then Says(u, host, key) else
    var t := Drop(u, Blank);
    if t == [] then (if host != added.host then Ignored else if added.key == key then Same else Other)
    else if t[0] == '#' then Ignored
    else if Take(t, Wordy) == t then
      if !HostnameMatches(host, None, Subpatterns(t + added.host)) then Ignored
      else if added.key == key then Same else Other
    else if !HostnameMatches(host, None, Subpatterns(Take(t, Wordy))) then Ignored
    else
      match KeyIn(Drop(t, Wordy) + Entry(added.host, added.key))
      case None => Ignored
      case Some((k, _)) => if k == key then Same else Other
  }

  lemma SpeaksOf(line: string, t: string, host: string, key: HostKey)
    requires Drop(Take(line, NotNul), Blank) == t && t != [] && t[0] != '#' && t[0] != '\n'
    ensures Says(line, host, key) ==
            if !HostnameMatches(host, None, Subpatterns(Take(t, Wordy))) then Ignored
            else match KeyIn(Drop(t, Wordy))
                 case None => Ignored
                 case Some((k, _)) => if k == key then Same else Other
  {
    hide Take, Drop, HostnameMatches, Subpatterns, KeyIn;
  }

  lemma JoinedSays(u: string, added: Known, host: string, key: HostKey)
    requires PlainHost(added.host) && added.key.bits < UINT && forall i :: 0 <= i < |u| ==> u[i] != '\n'
    ensures Says(u + Entry(added.host, added.key), host, key) == Joined(u, added, host, key)
  {
    var k := added.key;
    var tail := Shown(k, "\n");
    var entry := added.host + tail;
    assert tail[0] == ' ';
    TailChars(k, tail);
    KeyShown(k, "\n");
    NewlineIsNoBlank();
    EntryParts(added.host, tail);
    EntrySays(added.host, k, host, key);
    assert PlainChar(added.host[0]) && entry[0] == added.host[0];
    hide KeyIn, HostnameMatches, Subpatterns, Show, Take, Drop, PlainHost, Says;
    assert entry == Entry(added.host, k);
    EntryHasNoNul(added.host, tail);
    if '\0' in u {
      CutOff(u, entry, host, key);
    } else {
      NotEnded(u, entry, NotNul);
      NotEnded(entry, [], NotNul);
      assert entry + [] == entry;
      BehindPending(u, entry, tail, added, host, key);
    }
  }

  lemma EntryHasNoNul(host: string, tail: string)
    requires PlainHost(host) && forall i :: 0 <= i < |tail| ==> NotNul(tail[i])
    ensures forall i :: 0 <= i < |host + tail| ==> NotNul((host + tail)[i])
  {
    assert forall i :: 0 <= i < |host| ==> PlainChar(host[i]);
  }

  lemma CutOff(u: string, v: string, host: string, key: HostKey)
    requires '\0' in u
    ensures Says(u + v, host, key) == Says(u, host, key)
  {
    var i :| 0 <= i < |u| && u[i] == '\0';
    assert !NotNul(u[i]);
    Ended(u, v, NotNul);
    hide Take, Drop, HostnameMatches, Subpatterns, KeyIn;
  }

  lemma BehindPending(u: string, entry: string, tail: string, added: Known, host: string, key: HostKey)
    requires '\0' !in u && (forall i :: 0 <= i < |u| ==> u[i] != '\n') && added.key.bits < UINT
    requires entry == Entry(added.host, added.key) && entry == added.host + tail && entry != [] && PlainChar(entry[0])
    requires Drop(entry, Blank) == entry && Take(entry, Wordy) == added.host && Drop(entry, Wordy) == tail
    requires KeyIn(tail) == Some((added.key, "\n"))
    requires Says(entry, host, key) == if host != added.host then Ignored else if added.key == key then Same else Other
    requires Take(u + entry, NotNul) == u + entry && Take(entry, NotNul) == entry
    ensures Says(u + entry, host, key) == Joined(u, added, host, key)
  {
    hide KeyIn, HostnameMatches, Subpatterns, Take, Drop, Entry;
    var t := Drop(u, Blank);
    BlanksOrNot(u, entry);
    if t != [] {
      assert (t + entry)[0] == t[0] && t[0] != '\n';
      if t[0] != '#' {
        SpeaksOf(u + entry, t + entry, host, key);
        hide Says;
        WordOrNot(t, entry);
        assert t + tail == t + tail;
      }
    }
  }

  /** Skipping blanks: all of u, or up to the same character with or without what follows. */
  lemma BlanksOrNot(u: string, v: string)
    ensures Drop(u, Blank) == [] ==> Drop(u + v, Blank) == Drop(v, Blank)
    ensures Drop(u, Blank) != [] ==> Drop(u + v, Blank) == Drop(u, Blank) + v && Drop(u, Blank)[0] in u
  {
    if exists i :: 0 <= i < |u| && !Blank(u[i]) {
      Ended(u, v, Blank);
      DropIsWithin(u, Blank);
    } else {
      NotEnded(u, v, Blank);
    }
  }

  lemma {:induction false} DropIsWithin(s: string, p: char -> bool)
    requires Drop(s, p) != []
    ensures Drop(s, p)[0] in s
  {
    if p(s[0]) { DropIsWithin(s[1..], p); }
  }

  lemma WordOrNot(t: string, v: string)
    ensures Take(t, Wordy) == t ==> Take(t + v, Wordy) == t + Take(v, Wordy) && Drop(t + v, Wordy) == Drop(v, Wordy)
    ensures Take(t, Wordy) != t ==> Take(t + v, Wordy) == Take(t, Wordy) && Drop(t + v, Wordy) == Drop(t, Wordy) + v
  {
    if exists i :: 0 <= i < |t| && !Wordy(t[i]) {
      Ended(t, v, Wordy);
      if Take(t, Wordy) == t {
        TakeIsAll(t, Wordy);
      }
    } else {
      NotEnded(t, v, Wordy);
    }
  }

  lemma {:induction false} TakeIsAll(s: string, p: char -> bool)
    requires Take(s, p) == s
    ensures forall i :: 0 <= i < |s| ==> p(s[i])
  {
    if s != [] {
      TakeIsAll(s[1..], p);
      assert forall i :: 1 <= i < |s| ==> s[i] == s[1..][i - 1];
    }
  }

  // ---------- adding a host to any file ----------

  /** The entry fits into the line buffer behind what is pending. */
  predicate FitsBehind(file: string, added: Known) {
    PlainHost(added.host) && added.key.bits < UINT && |Pending(file)| + |Entry(added.host, added.key)| < LINE_SIZE
  }

  function AsStatus(v: Verdict): HostStatus {
    match v case Same => HostOk case Other => HostChanged case Ignored => HostNew
  }

  lemma OneLine(line: string, host: string, key: HostKey)
    ensures StatusIn([line], host, key) == AsStatus(Says(line, host, key))
    ensures StatusIn([], host, key) == HostNew
  {
    hide Says;
    SeenOneMore([], line, host, key, Same);
    SeenOneMore([], line, host, key, Other);
    assert [] + [line] == [line];
  }

  /** A line in pieces that fit into the line buffer. */
  function CutUp(line: string): seq<string>
    decreases |line|
  {
    if |line| < LINE_SIZE then [line] else [line[..LINE_SIZE - 1]] + CutUp(line[LINE_SIZE - 1..])
  }

  predicate OneNewline(line: string) {
    line != [] && forall i :: 0 <= i < |line| - 1 ==> line[i] != '\n'
  }

  lemma {:induction false} GetsRoom(s: string, room: nat)
    requires room < |s| && OneNewline(s)
    ensures Gets(s, room) == s[..room]
    decreases room
  {
    if room > 0 {
      GetsRoom(s[1..], room - 1);
      assert [s[0]] + s[1..][..room - 1] == s[..room];
    }
  }

  lemma {:induction false} LongLine(line: string)
    requires OneNewline(line)
    ensures Lines(line) == CutUp(line)
    decreases |line|
  {
    hide Gets;
    LinesOfRest(line);
    if |line| < LINE_SIZE {
      GetsWhole(line, LINE_SIZE - 1);
      assert line[|line|..] == [];
      NoLines();
    } else {
      GetsRoom(line, LINE_SIZE - 1);
      LongLine(line[LINE_SIZE - 1..]);
    }
  }

  /**
   The answer that what was pending gives with an entry behind it.  When both do not fit into the
   line buffer, each piece counts as a line of its own.
   */
  function Behind(u: string, added: Known, host: string, key: HostKey): HostStatus
    requires added.key.bits < UINT
  {
    if |u| + |Entry(added.host, added.key)| < LINE_SIZE then AsStatus(Joined(u, added, host, key))
    else StatusIn(CutUp(u + Entry(added.host, added.key)), host, key)
  }

  lemma JoinedIsOneLine(file: string, added: Known)
    requires PlainHost(added.host)
    ensures OneNewline(Pending(file) + Entry(added.host, added.key))
    ensures forall i :: 0 <= i < |Pending(file)| ==> Pending(file)[i] != '\n'
  {
    hide Show, Pending, Lines, Finished, Shown;
    LinesContinue(file, []);
    var u, tail := Pending(file), Shown(added.key, "\n");
    TailChars(added.key, tail);
    assert forall i :: 0 <= i < |added.host| ==> PlainChar(added.host[i]);
    assert u + Entry(added.host, added.key) == u + added.host + tail;
    hide Entry;
  }

  /** The answer about any host, after an entry was added to any file. */
  lemma AddedAnswer(file: string, added: Known, host: string, key: HostKey)
    requires PlainHost(added.host) && added.key.bits < UINT
    ensures StatusIn(Lines(file + Entry(added.host, added.key)), host, key) ==
            Better(StatusIn(Lines(Finished(file)), host, key), Behind(Pending(file), added, host, key))
  {
    hide Lines, Finished, Pending, Joined, Entry, Says, Somewhere, PlainHost;
    AnswerAppended(file, Entry(added.host, added.key), host, key);
    JoinedIsOneLine(file, added);
    LongLine(Pending(file) + Entry(added.host, added.key));
    if FitsBehind(file, added) {
      JoinedSays(Pending(file), added, host, key);
      OneLine(Pending(file) + Entry(added.host, added.key), host, key);
    }
  }

  /** The answer before. */
  lemma AnswerBefore(file: string, host: string, key: HostKey)
    ensures StatusIn(Lines(file), host, key) ==
            Better(StatusIn(Lines(Finished(file)), host, key),
                   if Pending(file) == [] then HostNew else AsStatus(Says(Pending(file), host, key)))
  {
    AnswerAppended(file, [], host, key);
    LinesContinue(file, []);
    PendingIsLine(file);
    OneLine(Pending(file), host, key);
    hide Lines, Finished, Pending, Says, Somewhere;
    assert file + [] == file && Pending(file) + [] == Pending(file);
    NoLines();
  }

  lemma PendingIsLine(file: string)
    ensures Pending(file) != [] ==> Lines(Pending(file)) == [Pending(file)]
  {
    LinesContinue(file, []);
    var u := Pending(file);
    hide Pending, Finished, Lines;
    if u != [] {
      GetsWhole(u, LINE_SIZE - 1);
      hide Gets;
      LinesOfRest(u);
      assert u[|u|..] == [];
      NoLines();
    }
  }

  /**
   The host just added is found exactly when a finished line had its key already, or what was
   pending gives that answer with the entry behind it; as it does when nothing was pending and the
   entry fits into the line buffer.
   */
  lemma AddedIsKnown(file: string, host: string, key: HostKey)
    requires PlainHost(host) && key.bits < UINT
    ensures StatusIn(Lines(file + Entry(host, key)), host, key) == HostOk <==>
            || StatusIn(Lines(Finished(file)), host, key) == HostOk
            || Behind(Pending(file), Known(host, key), host, key) == HostOk
    ensures Pending(file) == [] && |Entry(host, key)| < LINE_SIZE ==>
              Behind(Pending(file), Known(host, key), host, key) == HostOk
  {
    AddedAnswer(file, Known(host, key), host, key);
    hide Lines, Finished, Entry, Somewhere, Says;
    assert Drop("", Blank) == "";
    hide Pending;
  }

  /**
   The answer about any host and key stays the same exactly when a finished line gave the best
   answer already, or what was pending gives with the entry the answer it gave without, or neither
   is better than what the finished lines say.
   */
  lemma AddedElsewhere(file: string, added: Known, host: string, key: HostKey)
    requires PlainHost(added.host) && added.key.bits < UINT
    ensures var finished := StatusIn(Lines(Finished(file)), host, key);
            var before := if Pending(file) == [] then HostNew else AsStatus(Says(Pending(file), host, key));
            var after := Behind(Pending(file), added, host, key);
            StatusIn(Lines(file + Entry(added.host, added.key)), host, key) == StatusIn(Lines(file), host, key) <==>
            finished == HostOk || before == after || (finished == HostChanged && before != HostOk && after != HostOk)
  {
    AddedAnswer(file, added, host, key);
    AnswerBefore(file, host, key);
    hide Lines, Finished, Pending, Behind, Entry, Somewhere, Says;
  }

  /** Behind a file without a pending line only the added host's answer can change, and only for the better. */
  lemma AddedToFinished(file: string, added: Known, host: string, key: HostKey)
    requires FitsBehind(file, added) && AtLineStart(file)
    ensures StatusIn(Lines(file + Entry(added.host, added.key)), host, key) ==
            Better(StatusIn(Lines(file), host, key),
                   if host != added.host then HostNew else if key == added.key then HostOk else HostChanged)
    ensures AtLineStart(file + Entry(added.host, added.key))
  {
    EndedHasNonePending(file);
    AddedAnswer(file, added, host, key);
    EntryEnds(added.host, added.key);
    hide Lines, Finished, Pending, Entry, Somewhere, Says;
    assert Drop("", Blank) == "";
  }

  lemma EntryEnds(host: string, key: HostKey)
    ensures Entry(host, key) != [] && Entry(host, key)[|Entry(host, key)| - 1] == '\n'
  {
    hide Show;
  }

  /** An unfinished plain name swallows the host: it is found only if a finished line has it already. */
  lemma UnfinishedNameHides(file: string, host: string, key: HostKey)
    requires FitsBehind(file, Known(host, key)) && Pending(file) != [] && PlainHost(Pending(file) + host)
    ensures StatusIn(Lines(file + Entry(host, key)), host, key) == HostOk <==>
            StatusIn(Lines(Finished(file)), host, key) == HostOk
  {
    AddedIsKnown(file, host, key);
    JoinedName(Pending(file), host, key);
    hide Lines, Finished, Pending, Entry, Somewhere, Says, Joined;
  }

  lemma JoinedName(u: string, host: string, key: HostKey)
    requires u != [] && PlainHost(u + host) && key.bits < UINT
    ensures Joined(u, Known(host, key), host, key) == Ignored
  {
    PlainMatches(u + host, host);
    assert |u + host| > |host| && (u + host)[0] == u[0];
    assert forall i :: 0 <= i < |u + host| ==> PlainChar((u + host)[i]);
    assert forall i :: 0 <= i < |u| ==> (u + host)[i] == u[i];
    hide HostnameMatches, Subpatterns, Says, KeyIn, Entry;
    Stopped(u, Blank, 0);
    Stopped(u, Wordy, |u|);
    hide Take, Drop;
    assert u[0..] == u && u[..|u|] == u;
    assert '\0' !in u;
  }

  // ---------- the file after any number of additions ----------

  predicate Fits(k: Known) {
    PlainHost(k.host) && k.key.bits < UINT && |Entry(k.host, k.key)| < LINE_SIZE
  }

  function FileOf(list: seq<Known>): string {
    if list == [] then [] else
    var k := list[|list| - 1];
    FileOf(list[..|list| - 1]) + Entry(k.host, k.key)
  }

  /** The status that a list of additions gives a host and a key. */
  predicate Listed(list: seq<Known>, host: string) { exists i :: 0 <= i < |list| && list[i].host == host }

  /** For a file of added entries the scan answers what the list of additions says. */
  lemma {:induction false} FileAnswers(list: seq<Known>, host: string, key: HostKey)
    requires forall i :: 0 <= i < |list| ==> Fits(list[i])
    ensures AtLineStart(FileOf(list))
    ensures StatusIn(Lines(FileOf(list)), host, key) ==
            if Known(host, key) in list then HostOk else if Listed(list, host) then HostChanged else HostNew
    decreases |list|
  {
    hide Fits, Entry, Says;
    if list == [] {
    } else {
      var before, k := list[..|list| - 1], list[|list| - 1];
      assert list == before + [k];
      FileAnswers(before, host, key);
      ListedOneMore(before, k, host);
      var file := FileOf(before);
      FitsAtStart(file, k);
      AddedToFinished(file, k, host, key);
      hide Lines, Somewhere, Listed;
    }
  }

  lemma FitsAtStart(file: string, k: Known)
    requires Fits(k) && AtLineStart(file)
    ensures FitsBehind(file, k)
  {
    EndedHasNonePending(file);
  }

  lemma ListedOneMore(list: seq<Known>, k: Known, host: string)
    ensures Listed(list + [k], host) <==> Listed(list, host) || k.host == host
  {
    var all := list + [k];
    assert all[|list|] == k;
    assert forall i :: 0 <= i < |list| ==> all[i] == list[i];
  }

  /** A last line without its newline: the host just added is not found. */
  lemma UnfinishedLineHides()
    ensures StatusIn(Lines("x" + Entry("a", HostKey(1, 3, 5))), "a", HostKey(1, 3, 5)) == HostNew
  {
    var key := HostKey(1, 3, 5);
    hide Show, Lines, Says;
    assert "x" + Entry("a", key) == Entry("xa", key);
    ShortEntry();
    EntryIsLine("xa", key);
    EntrySays("xa", key, "a", key);
  }

  lemma ShortEntry()
    ensures Entry("xa", HostKey(1, 3, 5)) == "xa 1 3 5\n"
  {
    assert Show(1) == "1" && Show(3) == "3" && Show(5) == "5";
  }

  /** And the key of another host on that line: with 7 behind it the modulus 5 becomes 57. */
  lemma UnfinishedNumberChanges()
    ensures StatusIn(Lines("b 1 3 5"), "b", HostKey(1, 3, 5)) == HostOk
    ensures StatusIn(Lines("b 1 3 5" + Entry("7", HostKey(1, 3, 5))), "b", HostKey(1, 3, 5)) == HostChanged
  {
    LinesOfB();
    hide StatusIn, Lines, Entry, Shown;
    StatusOfB("b 1 3 5", HostKey(1, 3, 5), "", HostKey(1, 3, 5));
    StatusOfB("b 1 3 57 1 3 5\n", HostKey(1, 3, 57), " 1 3 5\n", HostKey(1, 3, 5));
  }

  lemma StatusOfB(line: string, k: HostKey, rest: string, key: HostKey)
    requires k.bits < UINT && (rest == [] || !Digit(rest[0])) && line == "b" + Shown(k, rest)
    requires |line| < LINE_SIZE - 1 && forall i :: 0 <= i < |line| ==> NotNul(line[i])
    requires forall i :: 0 <= i < |line| - 1 ==> line[i] != '\n'
    ensures StatusIn(Lines(line), "b", key) == if k == key then HostOk else HostChanged
  {
    LineOfB(line, k, rest, key);
    hide Says, Lines, Shown, Somewhere;
    ShortLine(line);
    OneLine(line, "b", key);
  }

  lemma LinesOfB()
    ensures "b 1 3 5" + Entry("7", HostKey(1, 3, 5)) == "b 1 3 57 1 3 5\n"
    ensures "b 1 3 5" == "b" + Shown(HostKey(1, 3, 5), "")
    ensures "b 1 3 57 1 3 5\n" == "b" + Shown(HostKey(1, 3, 57), " 1 3 5\n")
  {
    assert Show(1) == "1" && Show(3) == "3" && Show(5) == "5";
    assert Show(57) == Show(5) + [DigitChar(7)] && DigitChar(7) == '7';
    hide Show;
  }

  lemma LineOfB(line: string, k: HostKey, rest: string, key: HostKey)
    requires k.bits < UINT && (rest == [] || !Digit(rest[0])) && line == "b" + Shown(k, rest)
    requires forall i :: 0 <= i < |line| ==> NotNul(line[i])
    ensures Says(line, "b", key) == if k == key then Same else Other
  {
    var tail := Shown(k, rest);
    KeyShown(k, rest);
    PlainMatches("b", "b");
    assert PlainChar('b');
    forall i | 0 <= i < |tail| ensures NotNul(tail[i]) {
      assert tail[i] == line[1 + i];
    }
    assert tail[0] == ' ';
    hide Shown, KeyIn, HostnameMatches, Subpatterns;
    EntryParts("b", tail);
  }

  lemma ShortLine(line: string)
    requires 0 < |line| < LINE_SIZE - 1 && forall i :: 0 <= i < |line| - 1 ==> line[i] != '\n'
    ensures Lines(line) == [line]
  {
    GetsWhole(line, LINE_SIZE - 1);
    hide Gets, Lines;
    LinesOfRest(line);
    assert line[|line|..] == [];
    NoLines();
  }
}
