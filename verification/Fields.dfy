/** What each header line of a chunk means, field by field. */
module Fields {
  import opened Text
  import opened Wire

  /** A letter in its other case. */
  predicate OtherCase(c: char, d: char) {
    || ('A' <= c <= 'Z' && d as int == c as int + 32)
    || ('A' <= d <= 'Z' && c as int == d as int + 32)
  }

  predicate SameButCase(a: string, b: string) {
    |a| == |b| && forall i :: 0 <= i < |a| ==> a[i] == b[i] || OtherCase(a[i], b[i])
  }

  lemma LowerPairs(c: char, d: char)
    ensures Lower(c) == Lower(d) <==> c == d || OtherCase(c, d)
  {
  }

  /** Field names are compared without regard to case. */
  lemma NamedIs(line: string, name: string)
    ensures Named(line, name) <==> |name| <= |line| && SameButCase(line[..|name|], name)
  {
    forall i | 0 <= i < |name| && i < |line|
      ensures Lower(line[i]) == Lower(name[i]) <==> line[i] == name[i] || OtherCase(line[i], name[i])
    {
      LowerPairs(line[i], name[i]);
    }
    if |name| <= |line| {
      assert forall i :: 0 <= i < |name| ==> line[..|name|][i] == line[i];
      if SameButCase(line[..|name|], name) {
        forall i | 0 <= i < |name|
          ensures Lower(line[i]) == Lower(name[i])
        {
          assert line[..|name|][i] == name[i] || OtherCase(line[..|name|][i], name[i]);
        }
      }
    }
  }

  lemma {:induction false} UpToNulNone(s: string)
    requires NUL !in s
    ensures UpToNul(s) == s
  {
    UpToNulUnique(s, s);
  }

  /** A line that starts with a name, in any case. */
  lemma Starts(n: string, name: string, v: string)
    requires SameButCase(n, name) && name != ""
    ensures var line := n + v;
            && line != "" && line[|name|..] == v && Named(line, name)
            && forall i :: 0 <= i < |name| ==> Lower(line[i]) == Lower(name[i])
  {
    var line := n + v;
    assert line[..|name|] == n;
    NamedIs(line, name);
  }

  lemma StrLine(h: Headers, line: string, f: StrField, skip: nat, v: string)
    requires Classify(line) == Str(f, skip) && line[skip..] == v && NUL !in v
    ensures Apply(h, line) == h.(strs := h.strs[f := v])
  {
    hide Classify, UpToNul;
    UpToNulNone(v);
  }

  lemma NumLine(h: Headers, line: string, f: NumField, skip: nat, v: int)
    requires Classify(line) == Num(f, skip) && line[skip..] == Dec(v)
    requires -0x8000_0000 <= v <= INT_MAX || (f == Skb && -TWO_63 <= v < TWO_63)
    ensures Apply(h, line) == h.(nums := h.nums[f := v])
  {
    hide Classify, UpToNul, ScanDec, Dec;
    ScanDecOfDec(v);
    UpToNulNone(Dec(v));
  }

  // ---- strings ----------------------------------------------------------------------

  lemma SidLine(h: Headers, n: string, v: string)
    requires SameButCase(n, "SID: ") && NUL !in v
    ensures Apply(h, n + v) == h.(strs := h.strs[Sid := v])
  {
    hide Apply, Named;
    Starts(n, "SID: ", v);
    StrLine(h, n + v, Sid, 5, v);
  }

  /** Two names that differ in a letter. */
  lemma NotNamed(line: string, name: string, i: nat)
    requires i < |line| && i < |name| && Lower(line[i]) != Lower(name[i])
    ensures !Named(line, name)
  {
  }

  lemma NoopLine(h: Headers, n: string, v: string)
    requires SameButCase(n, "NOOP: ") && NUL !in v
    ensures Apply(h, n + v) == h.(strs := h.strs[Noop := v])
  {
    hide Apply, Named;
    Starts(n, "NOOP: ", v);
    StrLine(h, n + v, Noop, 6, v);
  }

  lemma PingLine(h: Headers, n: string, v: string)
    requires SameButCase(n, "PING: ") && NUL !in v
    ensures Apply(h, n + v) == h.(strs := h.strs[Ping := v])
  {
    hide Apply, Named;
    Starts(n, "PING: ", v);
    NotNamed(n + v, "NOOP: ", 0);
    StrLine(h, n + v, Ping, 6, v);
  }

  /** The protocol that is asked for. */
  lemma ProtoLine(h: Headers, n: string, v: string)
    requires SameButCase(n, "Proto: ") && NUL !in v
    ensures Apply(h, n + v) == h.(strs := h.strs[Proto := v])
  {
    hide Apply, Named;
    Starts(n, "Proto: ", v);
    NotNamed(n + v, "NOOP: ", 0);
    NotNamed(n + v, "PING: ", 1);
    StrLine(h, n + v, Proto, 7, v);
  }

  lemma EofLine(h: Headers, n: string, v: string)
    requires SameButCase(n, "EOF: ") && NUL !in v
    ensures Apply(h, n + v) == h.(strs := h.strs[Eof := v])
  {
    hide Apply, Named;
    Starts(n, "EOF: ", v);
    NotNamed(n + v, "NOOP: ", 0);
    StrLine(h, n + v, Eof, 5, v);
  }

  /** The address of who asks. */
  lemma RipLine(h: Headers, n: string, v: string)
    requires SameButCase(n, "RIP: ") && NUL !in v
    ensures Apply(h, n + v) == h.(strs := h.strs[Rip := v])
  {
    hide Apply, Named;
    Starts(n, "RIP: ", v);
    NotNamed(n + v, "NOOP: ", 0);
    NotNamed(n + v, "EOF: ", 0);
    StrLine(h, n + v, Rip, 5, v);
  }

  lemma RtlsLine(h: Headers, n: string, v: string)
    requires SameButCase(n, "RTLS: ") && NUL !in v
    ensures Apply(h, n + v) == h.(strs := h.strs[Rtls := v])
  {
    hide Apply, Named;
    Starts(n, "RTLS: ", v);
    NotNamed(n + v, "NOOP: ", 0);
    NotNamed(n + v, "EOF: ", 0);
    NotNamed(n + v, "RIP: ", 1);
    NotNamed(n + v, "RPort: ", 1);
    StrLine(h, n + v, Rtls, 6, v);
  }

  /** The host that is asked for. */
  lemma HostLine(h: Headers, n: string, v: string)
    requires SameButCase(n, "Host: ") && NUL !in v
    ensures Apply(h, n + v) == h.(strs := h.strs[Host := v])
  {
    hide Apply, Named;
    Starts(n, "Host: ", v);
    NotNamed(n + v, "NOOP: ", 0);
    NotNamed(n + v, "EOF: ", 0);
    StrLine(h, n + v, Host, 6, v);
  }

  // ---- numbers ----------------------------------------------------------------------

  /** Flow control: 64 bits, where the others have 32. */
  lemma SkbLine(h: Headers, n: string, v: int)
    requires SameButCase(n, "SKB: ") && -TWO_63 <= v < TWO_63
    ensures Apply(h, n + Dec(v)) == h.(nums := h.nums[Skb := v])
  {
    hide Apply, Named, Dec;
    Starts(n, "SKB: ", Dec(v));
    NotNamed(n + Dec(v), "SID: ", 1);
    NumLine(h, n + Dec(v), Skb, 5, v);
  }

  lemma SpdLine(h: Headers, n: string, v: int)
    requires SameButCase(n, "SPD: ") && -0x8000_0000 <= v <= INT_MAX
    ensures Apply(h, n + Dec(v)) == h.(nums := h.nums[Spd := v])
  {
    hide Apply, Named, Dec;
    Starts(n, "SPD: ", Dec(v));
    NotNamed(n + Dec(v), "SID: ", 1);
    NotNamed(n + Dec(v), "SKB: ", 1);
    NumLine(h, n + Dec(v), Spd, 5, v);
  }

  lemma PortLine(h: Headers, n: string, v: int)
    requires SameButCase(n, "Port: ") && -0x8000_0000 <= v <= INT_MAX
    ensures Apply(h, n + Dec(v)) == h.(nums := h.nums[Port := v])
  {
    hide Apply, Named, Dec;
    Starts(n, "Port: ", Dec(v));
    NotNamed(n + Dec(v), "NOOP: ", 0);
    NotNamed(n + Dec(v), "PING: ", 1);
    NotNamed(n + Dec(v), "Proto: ", 1);
    NumLine(h, n + Dec(v), Port, 6, v);
  }

  lemma RPortLine(h: Headers, n: string, v: int)
    requires SameButCase(n, "RPort: ") && -0x8000_0000 <= v <= INT_MAX
    ensures Apply(h, n + Dec(v)) == h.(nums := h.nums[RPort := v])
  {
    hide Apply, Named, Dec;
    Starts(n, "RPort: ", Dec(v));
    NotNamed(n + Dec(v), "NOOP: ", 0);
    NotNamed(n + Dec(v), "EOF: ", 0);
    NotNamed(n + Dec(v), "RIP: ", 1);
    NumLine(h, n + Dec(v), RPort, 7, v);
  }

  lemma QDaysLine(h: Headers, n: string, v: int)
    requires SameButCase(n, "QDays: ") && -0x8000_0000 <= v <= INT_MAX
    ensures Apply(h, n + Dec(v)) == h.(nums := h.nums[QDays := v])
  {
    hide Apply, Named, Dec;
    Starts(n, "QDays: ", Dec(v));
    NotNamed(n + Dec(v), "NOOP: ", 0);
    NotNamed(n + Dec(v), "EOF: ", 0);
    NotNamed(n + Dec(v), "Host: ", 0);
    NumLine(h, n + Dec(v), QDays, 7, v);
  }

  lemma QConnsLine(h: Headers, n: string, v: int)
    requires SameButCase(n, "QConns: ") && -0x8000_0000 <= v <= INT_MAX
    ensures Apply(h, n + Dec(v)) == h.(nums := h.nums[QConns := v])
  {
    hide Apply, Named, Dec;
    Starts(n, "QConns: ", Dec(v));
    NotNamed(n + Dec(v), "NOOP: ", 0);
    NotNamed(n + Dec(v), "EOF: ", 0);
    NotNamed(n + Dec(v), "Host: ", 0);
    NotNamed(n + Dec(v), "QDays: ", 1);
    NumLine(h, n + Dec(v), QConns, 8, v);
  }

  lemma QuotaLine(h: Headers, n: string, v: int)
    requires SameButCase(n, "Quota: ") && -0x8000_0000 <= v <= INT_MAX
    ensures Apply(h, n + Dec(v)) == h.(nums := h.nums[Quota := v])
  {
    hide Apply, Named, Dec;
    Starts(n, "Quota: ", Dec(v));
    NotNamed(n + Dec(v), "NOOP: ", 0);
    NotNamed(n + Dec(v), "EOF: ", 0);
    NotNamed(n + Dec(v), "Host: ", 0);
    NotNamed(n + Dec(v), "QDays: ", 1);
    NotNamed(n + Dec(v), "QConns: ", 1);
    NumLine(h, n + Dec(v), Quota, 7, v);
  }

  // ---- numbers as others may write them ---------------------------------------------

  predicate Blank(s: string) {
    forall i :: 0 <= i < |s| ==> s[i] in [' ', '\t', '\n', '\r', 11 as char, 12 as char]
  }

  lemma {:induction false} SkipBlank(b: string, s: string)
    requires Blank(b) && s != "" && !IsSpace(s[0])
    ensures SkipSpaces(b + s) == s
  {
    if b == "" {
      assert b + s == s;
    } else {
      assert (b + s)[1..] == b[1..] + s && IsSpace(b[0]);
      SkipBlank(b[1..], s);
    }
  }

  lemma {:induction false} RunEnds(digits: string, junk: string, base: nat)
    requires base == 10 || base == 16
    requires AllDigits(digits, base) && (junk != "" ==> DigitValue(junk[0], base) < 0)
    ensures DigitRun(digits + junk, base) == digits
  {
    hide DigitValue;
    if digits == "" {
      assert digits + junk == junk;
    } else {
      assert (digits + junk)[1..] == digits[1..] + junk && digits == [digits[0]] + digits[1..];
      assert AllDigits(digits[1..], base);
      RunEnds(digits[1..], junk, base);
    }
  }

  lemma CaseOfDigit(c: char, d: char)
    requires (c == d || OtherCase(c, d)) && DigitValue(d, 16) >= 0
    ensures DigitValue(c, 16) == DigitValue(d, 16)
  {
  }

  lemma {:induction false} CaseOfDigits(a: string, b: string)
    requires SameButCase(a, b) && AllDigits(b, 16)
    ensures AllDigits(a, 16) && RunValue(a, 16) == RunValue(b, 16)
  {
    hide DigitValue, OtherCase;
    forall i | 0 <= i < |a|
      ensures DigitValue(a[i], 16) == DigitValue(b[i], 16) >= 0
    {
      CaseOfDigit(a[i], b[i]);
    }
    if a != "" {
      var n := |a| - 1;
      assert SameButCase(a[..n], b[..n]) && AllDigits(b[..n], 16);
      CaseOfDigits(a[..n], b[..n]);
    }
  }

  /** A length may have blanks and a sign in front of it, digits in either case, and anything behind
      it that is no digit; an x behind a single 0 would be a prefix. */
  lemma HexReads(blank: string, sign: string, n: nat, digits: string, junk: string)
    requires Blank(blank) && sign in ["", "+", "-"] && SameButCase(digits, Hex(n)) && n < TWO_63
    requires junk != "" ==> DigitValue(junk[0], 16) < 0 && junk[0] != 'x' && junk[0] != 'X'
    ensures ScanHex(blank + (sign + (digits + junk))) == Some(if sign == "-" then 0 - n else n)
  {
    hide Hex, DigitRun, RunValue, SkipSpaces, AllDigits, SameButCase, ScanHex, Blank, IsSpace;
    HexStarts(n, digits, junk);
    var u := digits + junk;
    SignedReads(blank, sign, u);
    var s := blank + (sign + u);
    HexIs(s, SkipSpaces(s), u, digits);
  }

  lemma HexStarts(n: nat, digits: string, junk: string)
    requires SameButCase(digits, Hex(n))
    requires junk != "" ==> DigitValue(junk[0], 16) < 0 && junk[0] != 'x' && junk[0] != 'X'
    ensures digits != "" && AllDigits(digits, 16) && RunValue(digits, 16) == n && DigitRun(digits + junk, 16) == digits
    ensures var u := digits + junk;
            && u != "" && !IsSpace(u[0]) && u[0] != '-' && u[0] != '+'
            && (|u| >= 2 ==> u[1] != 'x' && u[1] != 'X')
  {
    hide DigitRun, RunValue, AllDigits, IsSpace;
    HexDigitsAreHex(n);
    CaseOfDigits(digits, Hex(n));
    RunEnds(digits, junk, 16);
    DigitsAreOrdinary(digits, 16);
    NoPrefix(digits, junk);
    hide Hex;
    assert (digits + junk)[0] == digits[0];
  }

  lemma HexIs(s: string, t: string, u: string, digits: string)
    requires SkipSpaces(s) == t && t != "" && u == if t[0] == '-' || t[0] == '+' then t[1..] else t
    requires |u| >= 2 ==> u[1] != 'x' && u[1] != 'X'
    requires DigitRun(u, 16) == digits && digits != ""
    ensures ScanHex(s) == Some(HexValue(t[0] == '-', RunValue(digits, 16)))
  {
    hide SkipSpaces, DigitRun, RunValue, AllDigits, HexValue;
  }

  lemma DecIs(s: string, t: string, u: string, digits: string)
    requires SkipSpaces(s) == t && t != "" && u == if t[0] == '-' || t[0] == '+' then t[1..] else t
    requires DigitRun(u, 10) == digits && digits != ""
    ensures ScanDec(s) == Some(DecValue(t[0] == '-', RunValue(digits, 10)))
  {
    hide SkipSpaces, DigitRun, RunValue, AllDigits, DecValue;
  }

  lemma NoPrefix(digits: string, junk: string)
    requires AllDigits(digits, 16) && digits != "" && (junk != "" ==> junk[0] != 'x' && junk[0] != 'X')
    ensures |digits + junk| >= 2 ==> (digits + junk)[1] != 'x' && (digits + junk)[1] != 'X'
  {
    if |digits| > 1 {
      assert DigitValue(digits[1], 16) >= 0 && (digits + junk)[1] == digits[1];
    } else if junk != "" {
      assert (digits + junk)[1] == junk[0];
    }
  }

  lemma SignedReads(blank: string, sign: string, u: string)
    requires Blank(blank) && sign in ["", "+", "-"] && u != "" && !IsSpace(u[0]) && u[0] != '-' && u[0] != '+'
    ensures var t := SkipSpaces(blank + (sign + u));
            && t != "" && (t[0] == '-' <==> sign == "-")
            && u == if t[0] == '-' || t[0] == '+' then t[1..] else t
  {
    SkipBlank(blank, sign + u);
    hide SkipSpaces;
    if sign != "" {
      assert (sign + u)[1..] == u;
    } else {
      assert sign + u == u;
    }
  }

  /** So may a number. */
  lemma DecReads(blank: string, sign: string, n: nat, junk: string)
    requires Blank(blank) && sign in ["", "+", "-"] && n < TWO_63 && (junk != "" ==> DigitValue(junk[0], 10) < 0)
    ensures ScanDec(blank + (sign + (DecDigits(n) + junk))) == Some(if sign == "-" then 0 - n else n)
  {
    DecDigitsAreDec(n);
    var digits := DecDigits(n);
    RunEnds(digits, junk, 10);
    DigitsAreOrdinary(digits, 10);
    var u := digits + junk;
    assert u[0] == digits[0];
    SignedReads(blank, sign, u);
    var s := blank + (sign + u);
    DecIs(s, SkipSpaces(s), u, digits);
    hide DecDigits, DigitRun, RunValue, SkipSpaces, AllDigits, ScanDec, Blank, IsSpace;
  }

  // ---- everything else --------------------------------------------------------------

  const NAMES := ["SID: ", "SKB: ", "SPD: ", "NOOP: ", "PING: ", "Proto: ", "Port: ", "EOF: ",
                  "RIP: ", "RPort: ", "RTLS: ", "Host: ", "QDays: ", "QConns: ", "Quota: "]

  ghost predicate Known(line: string) {
    exists k :: 0 <= k < |NAMES| && |NAMES[k]| <= |line| && SameButCase(line[..|NAMES[k]|], NAMES[k])
  }

  /** A line that is none of these is dropped when it starts like one of them, and otherwise
      remembered while there is room for it. */
  lemma OtherLine(h: Headers, line: string)
    requires line != "" && !Known(line)
    ensures Apply(h, line) ==
            if line[0] in "SsPpRrQq" || |h.others| >= 64 then h else h.(others := h.others + [UpToNul(line)])
  {
    hide Named;
    forall k | 0 <= k < |NAMES|
      ensures !Named(line, NAMES[k])
    {
      NamedIs(line, NAMES[k]);
    }
    assert NAMES[0] == "SID: " && NAMES[1] == "SKB: " && NAMES[2] == "SPD: " && NAMES[3] == "NOOP: ";
    assert NAMES[4] == "PING: " && NAMES[5] == "Proto: " && NAMES[6] == "Port: " && NAMES[7] == "EOF: ";
    assert NAMES[8] == "RIP: " && NAMES[9] == "RPort: " && NAMES[10] == "RTLS: " && NAMES[11] == "Host: ";
    assert NAMES[12] == "QDays: " && NAMES[13] == "QConns: " && NAMES[14] == "Quota: ";
    LowerPairs(line[0], 's');
    LowerPairs(line[0], 'p');
    LowerPairs(line[0], 'r');
    LowerPairs(line[0], 'q');
  }
}
