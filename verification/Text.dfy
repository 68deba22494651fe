/** C text as the wire code sees it: `char` buffers, CRLF searches, C strings, and the
    number formats that `sscanf` and `sprintf` read and write. A byte is one `char`. */
module Text {

  datatype Option<+T> = None | Some(value: T)

  const NUL := '\0'
  const CRLF := "\r\n"
  const INT_MAX: int := 0x7fff_ffff
  const TWO_63: int := 0x8000_0000_0000_0000
  const TWO_64: int := 0x1_0000_0000_0000_0000

  /** All pieces in order, joined. */
  function Concat(pieces: seq<string>): string {
    if pieces == [] then "" else pieces[0] + Concat(pieces[1..])
  }

  lemma {:induction false} ConcatAppend(a: seq<string>, b: seq<string>)
    ensures Concat(a + b) == Concat(a) + Concat(b)
  {
    if a == [] {
      assert a + b == b;
    } else {
      assert (a + b)[0] == a[0] && (a + b)[1..] == a[1..] + b;
      ConcatAppend(a[1..], b);
    }
  }

  /** Sequences that agree from m on agree in every part there. */
  lemma TailOf(q: string, r: string, m: nat, i: nat, j: nat)
    requires |q| == |r| && m <= i <= j <= |q| && q[m..] == r[m..]
    ensures q[i..j] == r[i..j]
  {
    forall x | 0 <= x < j - i
      ensures q[i..j][x] == r[i..j][x]
    {
      assert q[m..][i - m + x] == r[m..][i - m + x];
    }
  }

  lemma HeadOf(q: string, r: string, m: nat, i: nat, j: nat)
    requires |q| == |r| && i <= j <= m <= |q| && q[..m] == r[..m]
    ensures q[i..j] == r[i..j]
  {
    forall x | 0 <= x < j - i
      ensures q[i..j][x] == r[i..j][x]
    {
      assert q[..m][i + x] == r[..m][i + x];
    }
  }

  /** A stretch of a buffer in two parts. */
  lemma TwoParts(a: array<char>, i: nat, j: nat, d: string, k: nat)
    requires i <= j <= a.Length && a[i..j] == d && k <= |d|
    ensures a[i..i + k] == d[..k] && a[i + k..j] == d[k..]
  {
    forall x | 0 <= x < j - i
      ensures a[i + x] == d[x]
    {
      assert a[i + x] == a[i..j][x];
    }
  }

  // ---- CRLF -------------------------------------------------------------------------

  ghost predicate NoCrlf(s: string) {
    forall i :: 0 <= i < |s| - 1 ==> !(s[i] == '\r' && s[i + 1] == '\n')
  }

  /** What `zero_first_crlf` returns: the index just after the first CRLF, or 0. */
  function CrlfEnd(s: string): (n: nat)
    ensures n == 0 || 2 <= n <= |s|
  {
    if |s| < 2 then 0
    else if s[0] == '\r' && s[1] == '\n' then 2
    else
      var m := CrlfEnd(s[1..]);
      if m == 0 then 0 else m + 1
  }

  lemma {:induction false} CrlfEndFinds(s: string)
    ensures CrlfEnd(s) == 0 ==> NoCrlf(s)
    ensures var n := CrlfEnd(s);
            n != 0 ==> s[n - 2] == '\r' && s[n - 1] == '\n' && NoCrlf(s[..n - 1])
  {
    if |s| < 2 {
    } else if s[0] == '\r' && s[1] == '\n' {
      assert NoCrlf(s[..1]);
    } else {
      var t := s[1..];
      var m := CrlfEnd(t);
      CrlfEndFinds(t);
      if m == 0 {
        forall i | 0 <= i < |s| - 1
          ensures !(s[i] == '\r' && s[i + 1] == '\n')
        {
          assert i > 0 ==> s[i] == t[i - 1] && s[i + 1] == t[i];
        }
      } else {
        var u, v := s[..m], t[..m - 1];
        forall i | 0 <= i < |u| - 1
          ensures !(u[i] == '\r' && u[i + 1] == '\n')
        {
          assert i > 0 ==> u[i] == v[i - 1] && u[i + 1] == v[i];
        }
        assert u == s[..CrlfEnd(s) - 1] && s[m - 1] == t[m - 2] && s[m] == t[m - 1];
      }
    }
  }

  /** The first CRLF is determined by being a CRLF with none before it. */
  lemma {:induction false} CrlfEndUnique(s: string, k: nat)
    requires k + 2 <= |s| && s[k] == '\r' && s[k + 1] == '\n' && NoCrlf(s[..k + 1])
    ensures CrlfEnd(s) == k + 2
  {
    if k > 0 {
      var t, u := s[1..], s[..k + 1];
      assert t[..k] == u[1..];
      assert s[0] == u[0] && s[1] == u[1];
      CrlfEndUnique(t, k - 1);
    }
  }

  /** Bytes after the first CRLF do not move it. */
  lemma CrlfEndPrefix(s: string, m: nat)
    requires m <= |s|
    ensures CrlfEnd(s) != 0 && CrlfEnd(s) <= m ==> CrlfEnd(s[..m]) == CrlfEnd(s)
    ensures CrlfEnd(s[..m]) != 0 ==> CrlfEnd(s) == CrlfEnd(s[..m])
  {
    hide CrlfEnd, NoCrlf;
    var n, p := CrlfEnd(s), CrlfEnd(s[..m]);
    CrlfEndFinds(s);
    CrlfEndFinds(s[..m]);
    if n != 0 && n <= m {
      assert s[..m][..n - 1] == s[..n - 1];
      CrlfEndUnique(s[..m], n - 2);
    }
    if p != 0 {
      assert s[..m][..p - 1] == s[..p - 1];
      CrlfEndUnique(s, p - 2);
    }
  }

  /** `zero_first_crlf`: overwrites the first CRLF of a[from..from+length] with NULs. */
  method ZeroFirstCrlf(a: array<char>, from: nat, length: int) returns (n: nat)
    requires 0 <= length ==> from + length <= a.Length
    modifies a
    ensures n == if length < 0 then 0 else CrlfEnd(old(a[from..from + length]))
    ensures n == 0 ==> a[..] == old(a[..])
    ensures n != 0 ==> a[from + n - 2] == a[from + n - 1] == NUL
    ensures n != 0 ==> a[..from + n - 2] == old(a[..from + n - 2]) && a[from + n..] == old(a[from + n..])
  {
    ghost var s := if length < 0 then "" else a[from..from + length];
    var i := 0;
    while i < length - 1
      invariant 0 <= i && (0 < length ==> i < length) && (length <= 0 ==> i == 0)
      invariant a[..] == old(a[..])
      invariant forall k :: 0 <= k < i ==> !(s[k] == '\r' && s[k + 1] == '\n')
    {
      if a[from + i] == '\r' && a[from + i + 1] == '\n' {
        CrlfEndUnique(s, i);
        a[from + i], a[from + i + 1] := NUL, NUL;
        return i + 2;
      }
      i := i + 1;
    }
    CrlfEndFinds(s);
    return 0;
  }

  /** Copies text into a buffer: memcpy. */
  method Print(buf: array<char>, at: nat, text: string)
    requires at + |text| <= buf.Length
    modifies buf
    ensures buf[..at] == old(buf[..at]) && buf[at..at + |text|] == text
    ensures buf[at + |text|..] == old(buf[at + |text|..])
  {
    var i := 0;
    while i < |text|
      invariant i <= |text|
      invariant forall j :: 0 <= j < i ==> buf[at + j] == text[j]
      invariant forall j :: 0 <= j < at || at + i <= j < buf.Length ==> buf[j] == old(buf[j])
    {
      buf[at + i] := text[i];
      i := i + 1;
    }
  }

  /** `sprintf` to a place in a buffer: the text, and a NUL behind it. */
  method Sprintf(buf: array<char>, at: nat, text: string)
    requires at + |text| < buf.Length
    modifies buf
    ensures buf[..at] == old(buf[..at]) && buf[at..at + |text|] == text && buf[at + |text|] == NUL
    ensures buf[at + |text| + 1..] == old(buf[at + |text| + 1..])
  {
    var n := at + |text|;
    ghost var was := buf[..];
    Print(buf, at, text);
    ghost var now := buf[..];
    TailOf(now, was, n, n + 1, buf.Length);
    buf[n] := NUL;
    assert buf[..] == now[n := NUL];
    assert buf[..n] == now[..n] && buf[n + 1..] == now[n + 1..];
    assert buf[..at] == now[..n][..at] && buf[at..n] == now[..n][at..];
  }

  // ---- C strings --------------------------------------------------------------------

  /** The C string that starts at the front of s. */
  function UpToNul(s: string): (r: string)
    ensures |r| <= |s|
  {
    if s == "" || s[0] == NUL then "" else [s[0]] + UpToNul(s[1..])
  }

  lemma {:induction false} UpToNulUnique(s: string, r: string)
    requires r <= s && NUL !in r && (|r| < |s| ==> s[|r|] == NUL)
    ensures UpToNul(s) == r
  {
    if r != "" {
      assert s[0] == r[0];
      UpToNulUnique(s[1..], r[1..]);
    }
  }

  /** The C string at offset p of a buffer. */
  function CString(b: string, p: nat): string
    requires p <= |b|
  {
    UpToNul(b[p..])
  }

  // ---- numbers ----------------------------------------------------------------------

  predicate IsSpace(c: char) {
    c == ' ' || '\t' <= c <= '\r'
  }

  function SkipSpaces(s: string): (r: string)
    ensures |r| <= |s|
    ensures r != "" ==> !IsSpace(r[0])
    ensures s != "" && !IsSpace(s[0]) ==> r == s
  {
    if s != "" && IsSpace(s[0]) then SkipSpaces(s[1..]) else s
  }

  /** The value of one digit in base 10 or 16, or -1. */
  function DigitValue(c: char, base: nat): (v: int)
    requires base == 10 || base == 16
    ensures -1 <= v < base
  {
    if '0' <= c <= '9' then c as int - '0' as int
    else if base == 16 && 'a' <= c <= 'f' then c as int - 'a' as int + 10
    else if base == 16 && 'A' <= c <= 'F' then c as int - 'A' as int + 10
    else -1
  }

  predicate AllDigits(s: string, base: nat)
    requires base == 10 || base == 16
  {
    forall i :: 0 <= i < |s| ==> DigitValue(s[i], base) >= 0
  }

  /** The longest run of digits at the front of s. */
  function DigitRun(s: string, base: nat): (r: string)
    requires base == 10 || base == 16
    ensures r <= s && AllDigits(r, base)
  {
    if s != "" && DigitValue(s[0], base) >= 0 then [s[0]] + DigitRun(s[1..], base) else ""
  }

  /** The number a run of digits denotes, most significant digit first. */
  function RunValue(r: string, base: nat): (v: nat)
    requires base == 10 || base == 16
    requires AllDigits(r, base)
  {
    if r == "" then 0 else RunValue(r[..|r| - 1], base) * base + DigitValue(r[|r| - 1], base)
  }

  function ToSigned64(u: nat): int {
    if u >= TWO_63 then u - TWO_64 else u
  }

  function ToSigned32(v: int): int {
    var u := v % 0x1_0000_0000;
    if u > INT_MAX then u - 0x1_0000_0000 else u
  }

  /** `sscanf(s, "%lx", &x)` into a signed 64-bit x; None when nothing is converted.
      Too large a number saturates at ULONG_MAX, which reads back as -1. */
  function ScanHex(s: string): (v: Option<int>) {
    var t := SkipSpaces(s);
    var neg := t != "" && t[0] == '-';
    var u := if t != "" && (t[0] == '-' || t[0] == '+') then t[1..] else t;
    var prefixed := |u| >= 2 && u[0] == '0' && (u[1] == 'x' || u[1] == 'X');
    var r := DigitRun(if prefixed then u[2..] else u, 16);
    if r == "" && !prefixed then None
    else Some(HexValue(neg, RunValue(r, 16)))
  }

  function HexValue(neg: bool, n: nat): int {
    if n >= TWO_64 then -1 else ToSigned64(if neg then (TWO_64 - n) % TWO_64 else n)
  }

  /** `sscanf(s, "%ld", &x)`; None when nothing is converted. Saturates. */
  function ScanDec(s: string): (v: Option<int>) {
    var t := SkipSpaces(s);
    var neg := t != "" && t[0] == '-';
    var u := if t != "" && (t[0] == '-' || t[0] == '+') then t[1..] else t;
    var r := DigitRun(u, 10);
    if r == "" then None else Some(DecValue(neg, RunValue(r, 10)))
  }

  function DecValue(neg: bool, n: nat): int {
    if neg then if n > TWO_63 then -TWO_63 else -(n as int) else if n >= TWO_63 then TWO_63 - 1 else n
  }

  function HexDigit(d: nat): char
    requires d < 16
  {
    (if d < 10 then '0' as int + d else 'a' as int + d - 10) as char
  }

  /** `%zx` */
  function Hex(n: nat): (s: string)
    ensures 0 < |s|
  {
    (if n < 16 then "" else Hex(n / 16)) + [HexDigit(n % 16)]
  }

  function DecDigits(n: nat): (s: string)
    ensures 0 < |s|
  {
    (if n < 10 then "" else DecDigits(n / 10)) + [HexDigit(n % 10)]
  }

  /** `%d` */
  function Dec(n: int): (s: string)
    ensures 0 < |s|
  {
    if n < 0 then "-" + DecDigits(-n) else DecDigits(n)
  }

  lemma RunValueSnoc(t: string, c: char, base: nat)
    requires base == 10 || base == 16
    requires AllDigits(t, base) && DigitValue(c, base) >= 0
    ensures AllDigits(t + [c], base)
    ensures RunValue(t + [c], base) == RunValue(t, base) * base + DigitValue(c, base)
  {
    assert (t + [c])[..|t|] == t;
  }

  lemma EmptyRun(base: nat)
    requires base == 10 || base == 16
    ensures AllDigits("", base) && RunValue("", base) == 0
  {
  }

  lemma HexDigitValue(d: nat)
    requires d < 16
    ensures DigitValue(HexDigit(d), 16) == d && (d < 10 ==> DigitValue(HexDigit(d), 10) == d)
    ensures HexDigit(d) != 'x' && HexDigit(d) != 'X'
  {
  }

  lemma {:induction false} HexDigitsAreHex(n: nat)
    ensures AllDigits(Hex(n), 16) && RunValue(Hex(n), 16) == n
    ensures 'x' !in Hex(n) && 'X' !in Hex(n)
  {
    hide HexDigit, DigitValue, RunValue, AllDigits;
    var q, c := n / 16, HexDigit(n % 16);
    HexDigitValue(n % 16);
    EmptyRun(16);
    if n < 16 {
      assert Hex(n) == "" + [c];
      RunValueSnoc("", c, 16);
    } else {
      HexDigitsAreHex(q);
      RunValueSnoc(Hex(q), c, 16);
    }
  }

  lemma {:induction false} DecDigitsAreDec(n: nat)
    ensures AllDigits(DecDigits(n), 10) && RunValue(DecDigits(n), 10) == n
  {
    hide HexDigit, DigitValue, RunValue, AllDigits;
    var q, c := n / 10, HexDigit(n % 10);
    HexDigitValue(n % 10);
    EmptyRun(10);
    if n < 10 {
      assert DecDigits(n) == "" + [c];
      RunValueSnoc("", c, 10);
    } else {
      DecDigitsAreDec(q);
      RunValueSnoc(DecDigits(q), c, 10);
    }
  }

  lemma {:induction false} DigitRunOfDigits(s: string, base: nat)
    requires base == 10 || base == 16
    requires AllDigits(s, base)
    ensures DigitRun(s, base) == s
  {
    if s != "" {
      DigitRunOfDigits(s[1..], base);
      assert s == [s[0]] + s[1..];
    }
  }

  lemma DigitsAreOrdinary(s: string, base: nat)
    requires base == 10 || base == 16
    requires AllDigits(s, base)
    ensures NUL !in s && '\r' !in s
    ensures s != "" ==> !IsSpace(s[0]) && s[0] != '-' && s[0] != '+'
  {
    assert s != "" ==> DigitValue(s[0], base) >= 0;
    assert forall i :: 0 <= i < |s| ==> DigitValue(s[i], base) >= 0 && s[i] != NUL && s[i] != '\r';
  }

  lemma SmallHex(n: nat)
    requires n < TWO_63
    ensures HexValue(false, n) == n
  {
  }

  /** Digits without a sign or a prefix. */
  lemma PlainHex(s: string)
    requires s != "" && AllDigits(s, 16) && !IsSpace(s[0]) && s[0] != '-' && s[0] != '+' && 'x' !in s && 'X' !in s
    ensures ScanHex(s) == Some(HexValue(false, RunValue(s, 16)))
  {
    hide RunValue, AllDigits, DigitRun, DigitValue, SkipSpaces, HexValue, IsSpace;
    DigitRunOfDigits(s, 16);
    var t := SkipSpaces(s);
    assert t == s && t[0] != '-' && t[0] != '+';
    assert |t| >= 2 ==> t[1] in s;
  }

  /** What `%zx` prints, `%lx` reads back. */
  lemma ScanHexOfHex(n: nat)
    requires n < TWO_63
    ensures ScanHex(Hex(n)) == Some(n)
    ensures NUL !in Hex(n) && '\r' !in Hex(n)
  {
    HexDigitsAreHex(n);
    DigitsAreOrdinary(Hex(n), 16);
    hide Hex, RunValue, AllDigits, ScanHex, HexValue;
    PlainHex(Hex(n));
    SmallHex(n);
  }

  lemma ScanPlain(d: string)
    requires d != "" && AllDigits(d, 10)
    ensures RunValue(d, 10) < TWO_63 ==> ScanDec(d) == Some(RunValue(d, 10))
  {
    DigitsAreOrdinary(d, 10);
    DigitRunOfDigits(d, 10);
    hide RunValue, AllDigits, DigitRun, DigitValue, SkipSpaces, IsSpace;
  }

  lemma MinusIsNoSpace(d: string)
    ensures SkipSpaces("-" + d) == "-" + d && ("-" + d)[1..] == d
  {
  }

  lemma ScanNegative(d: string, t: string)
    requires d != "" && AllDigits(d, 10) && t == "-" + d
    ensures RunValue(d, 10) <= TWO_63 ==> ScanDec(t) == Some(-(RunValue(d, 10) as int))
  {
    DigitRunOfDigits(d, 10);
    MinusIsNoSpace(d);
    hide RunValue, AllDigits, DigitRun, DigitValue, SkipSpaces, IsSpace;
  }

  /** What `%d` prints, `%ld` reads back, for every value a signed 64-bit integer holds. */
  lemma ScanDecOfDec(n: int)
    requires -TWO_63 <= n < TWO_63
    ensures ScanDec(Dec(n)) == Some(n)
    ensures NUL !in Dec(n) && '\r' !in Dec(n)
  {
    hide ScanDec, DecDigits;
    var m := if n < 0 then -n else n;
    DecDigitsAreDec(m);
    DigitsAreOrdinary(DecDigits(m), 10);
    ScanPlain(DecDigits(m));
    ScanNegative(DecDigits(m), "-" + DecDigits(m));
  }
}
