/** The log ring of pkstate.c: lines of text in a buffer that wraps around, from which the oldest
    lines are dropped to make room for new ones. */
module LogRing {
  import opened Text

  const SIZE := 64 * 1024

  function Wrap(p: nat): (q: nat)
    requires p < 2 * SIZE
    ensures q < SIZE
  {
    if p >= SIZE then p - SIZE else p
  }

  /** How many bytes are in use between start and end. */
  function Used(start: nat, end: nat): (n: nat)
    requires start < SIZE && end < SIZE
    ensures n < SIZE && Wrap(start + n) == end
  {
    if start <= end then end - start else end + SIZE - start
  }

  /** The text between start and end, around the end of the ring. */
  function Data(r: string, start: nat, end: nat): (d: string)
    requires |r| == SIZE + 1 && start < SIZE && end < SIZE
    ensures |d| == Used(start, end)
  {
    if start <= end then r[start..end] else r[start..SIZE] + r[..end]
  }

  lemma DataAt(r: string, start: nat, end: nat, k: nat)
    requires |r| == SIZE + 1 && start < SIZE && end < SIZE && k < Used(start, end)
    ensures Data(r, start, end)[k] == r[Wrap(start + k)] && Wrap(start + k) != end
  {
  }

  /** Moving start forward drops text from the front. */
  lemma DataDrop(r: string, start: nat, end: nat, k: nat)
    requires |r| == SIZE + 1 && start < SIZE && end < SIZE && k <= Used(start, end)
    ensures Data(r, Wrap(start + k), end) == Data(r, start, end)[k..]
  {
    var d := Data(r, start, end);
    if start <= end {
      assert d[k..] == r[start + k..end];
    } else if start + k < SIZE {
      assert d[k..] == r[start + k..SIZE] + r[..end];
    } else {
      assert d[k..] == r[start + k - SIZE..end];
    }
  }

  /** The first test of `pks_logcopy`: n more bytes would reach start. */
  predicate TooFull(start: nat, end: nat, n: nat) {
    (end < start && end + n >= start) || (end > start && end + n >= start + SIZE)
  }

  /** That is, the text that is there and n bytes more would fill the ring. */
  lemma TooFullIs(start: nat, end: nat, n: nat)
    requires start < SIZE && end < SIZE
    ensures TooFull(start, end, n) <==> start != end && Used(start, end) + n >= SIZE
    ensures n < SIZE ==> (TooFull(start, end, n) <==> Used(start, end) + n >= SIZE)
  {
  }

  /** The second: the copy goes around the end of the ring. */
  predicate GoesAround(start: nat, end: nat, len: nat) {
    end > start && end + len >= SIZE
  }

  /** A line the ring is made for: no NUL, not only newlines, shorter than a third of the ring. */
  predicate GoodLine(src: string) {
    NUL !in src && (exists i :: 0 <= i < |src| && src[i] != '\n') && 3 * (|src| + 1) < SIZE
  }

  // ---- writing ----------------------------------------------------------------------

  lemma CopyBehind(r: string, q: string, start: nat, end: nat, src: string)
    requires |r| == |q| == SIZE + 1 && start <= end && end + |src| < SIZE
    requires q[..end] == r[..end] && q[end..end + |src|] == src
    ensures q[start..end + |src|] == r[start..end] + src
  {
    assert q[start..end] == q[..end][start..] == r[..end][start..] == r[start..end];
    assert q[start..end + |src|] == q[start..end] + q[end..end + |src|];
  }

  lemma CopyBefore(r: string, q: string, start: nat, end: nat, src: string)
    requires |r| == |q| == SIZE + 1 && end + |src| < start < SIZE
    requires q[..end] == r[..end] && q[end..end + |src|] == src && q[end + |src|..] == r[end + |src|..]
    ensures q[start..SIZE] + q[..end + |src|] == r[start..SIZE] + r[..end] + src
  {
    var m := end + |src|;
    assert q[start..SIZE] == q[m..][start - m..SIZE - m] == r[m..][start - m..SIZE - m] == r[start..SIZE];
    assert q[..m] == q[..end] + q[end..m];
  }

  /** The ring after src was copied to `end` in one piece. */
  lemma CopyStraight(r: string, q: string, start: nat, end: nat, src: string)
    requires |r| == |q| == SIZE + 1 && start < SIZE && end < SIZE
    requires Used(start, end) + |src| + 1 < SIZE && end + |src| < SIZE
    requires q[..end] == r[..end] && q[end..end + |src|] == src && q[end + |src|..] == r[end + |src|..]
    ensures Data(q, start, end + |src|) == Data(r, start, end) + src
  {
    if start <= end {
      CopyBehind(r, q, start, end, src);
    } else {
      CopyBefore(r, q, start, end, src);
    }
  }

  /** The ring after src was copied to `end` in two pieces. */
  lemma CopyAround(r: string, q: string, start: nat, end: nat, src: string)
    requires |r| == |q| == SIZE + 1 && start < end < SIZE
    requires Used(start, end) + |src| + 1 < SIZE && end + |src| >= SIZE
    requires var n := SIZE - end;
             q[end..SIZE] == src[..n] && q[..|src| - n] == src[n..] && q[|src| - n..end] == r[|src| - n..end]
    ensures Data(q, start, |src| - (SIZE - end)) == Data(r, start, end) + src
  {
    var n := SIZE - end;
    var e := |src| - n;
    assert q[start..end] == q[e..end][start - e..] == r[e..end][start - e..] == r[start..end];
    assert q[start..SIZE] == q[start..end] + q[end..SIZE];
    assert src == src[..n] + src[n..];
  }

  /** One more byte at the end. */
  lemma WriteByte(r: string, start: nat, end: nat, c: char)
    requires |r| == SIZE + 1 && start < SIZE && end < SIZE && Used(start, end) + 1 < SIZE
    ensures Data(r[end := c], start, Wrap(end + 1)) == Data(r, start, end) + [c]
  {
    var q := r[end := c];
    if start <= end {
      assert q[start..end + 1] == r[start..end] + [c];
    } else {
      assert q[..end + 1] == r[..end] + [c];
    }
  }

  /** A byte that is not part of the text. */
  lemma WriteOutside(r: string, start: nat, end: nat, c: char)
    requires |r| == SIZE + 1 && start < SIZE && end < SIZE
    ensures Data(r[end := c], start, end) == Data(r, start, end)
  {
  }

  // ---- what the text is -------------------------------------------------------------

  /** The text kept is a suffix of all lines ever logged: all of them, or what follows some
      newline; it holds the last byte that is not a newline, which is in the last message, the
      last `last` bytes. */
  ghost predicate Kept(data: string, history: string, last: nat) {
    && |data| <= |history| && last <= |history| && 3 * last < SIZE
    && data == history[|history| - |data|..] && NUL !in data
    && (|data| < |history| ==> history[|history| - |data| - 1] == '\n')
    && (last < |history| ==> history[|history| - last - 1] == '\n')
    && (history != "" ==> last > 0 && history[|history| - 1] == '\n' && Ink(data, last))
  }

  /** No newline from n up to m, and nothing else from there up to k. */
  ghost predicate LineEnds(d: string, n: nat, m: nat, k: nat) {
    && n <= m < k <= |d|
    && (forall i :: n <= i < m ==> d[i] != '\n') && (forall i :: m <= i < k ==> d[i] == '\n')
  }

  /** k is where the first line after byte n starts: past the next newlines. */
  ghost predicate NextLine(d: string, n: nat, k: nat) {
    k < |d| && d[k] != '\n' && exists m :: LineEnds(d, n, m, k)
  }

  /** The last n bytes are not all newlines. */
  ghost predicate Ink(s: string, n: nat) {
    exists i :: 0 <= i < |s| && |s| - n <= i && s[i] != '\n'
  }

  lemma InkAtEnd(a: string, src: string)
    requires GoodLine(src)
    ensures Ink(a + src + "\n", |src| + 1)
  {
    var i :| 0 <= i < |src| && src[i] != '\n';
    assert (a + src + "\n")[|a| + i] == src[i];
  }

  lemma KeptMore(data: string, history: string, last: nat, src: string)
    requires Kept(data, history, last) && GoodLine(src)
    ensures Kept(data + src + "\n", history + src + "\n", |src| + 1)
  {
    var d, h := data + src + "\n", history + src + "\n";
    assert h[|h| - |d|..] == history[|history| - |data|..] + src + "\n";
    InkAtEnd(data, src);
    assert |d| < |h| ==> h[|h| - |d| - 1] == history[|history| - |data| - 1];
    assert 0 < |history| ==> h[|history| - 1] == history[|history| - 1];
  }

  /** Text may be dropped up to a byte after a newline, while some ink is left. */
  lemma KeptLess(data: string, history: string, last: nat, k: nat)
    requires Kept(data, history, last) && 0 < k <= |data| && data[k - 1] == '\n'
    requires exists i :: k <= i < |data| && |data| - last <= i && data[i] != '\n'
    ensures Kept(data[k..], history, last)
  {
    var i :| k <= i < |data| && |data| - last <= i && data[i] != '\n';
    KeptAt(data, history, last, k, i);
  }

  lemma KeptAt(data: string, history: string, last: nat, k: nat, i: nat)
    requires Kept(data, history, last) && 0 < k <= i < |data| && data[k - 1] == '\n'
    requires |data| - last <= i && data[i] != '\n'
    ensures Kept(data[k..], history, last)
  {
    assert history[|history| - |data| + k - 1] == data[k - 1];
    assert data[k..][i - k] == data[i];
  }

  // ---- what one call does -----------------------------------------------------------

  /** The ring buffer with its two pointers. */
  datatype Log = Log(r: string, start: nat, end: nat)

  ghost predicate Shaped(g: Log) {
    |g.r| == SIZE + 1 && g.start < SIZE && g.end < SIZE && g.r[g.end] == NUL
  }

  function Content(g: Log): string
    requires |g.r| == SIZE + 1 && g.start < SIZE && g.end < SIZE
  {
    Data(g.r, g.start, g.end)
  }

  /** From p on to the first newline, or to the end of the text. */
  function Seek(r: string, p: nat, end: nat): (q: nat)
    requires |r| == SIZE + 1 && p < SIZE && end < SIZE
    ensures q < SIZE && (r[q] == '\n' || q == end)
    decreases Used(p, end)
  {
    if r[p] == '\n' || p == end then p else Seek(r, Wrap(p + 1), end)
  }

  /** From p on past newlines; the NUL at the end of the text is none. */
  function Skip(r: string, p: nat, end: nat): (q: nat)
    requires |r| == SIZE + 1 && p < SIZE && end < SIZE && r[end] == NUL
    ensures q < SIZE && r[q] != '\n'
    decreases Used(p, end)
  {
    if r[p] == '\n' then Skip(r, Wrap(p + 1), end) else p
  }

  /** Where the text starts once room was made for n bytes. */
  function Cleared(g: Log, n: nat): (start: nat)
    requires Shaped(g) && n < SIZE
    ensures start < SIZE
  {
    if TooFull(g.start, g.end, n) then Skip(g.r, Seek(g.r, Wrap(g.start + n), g.end), g.end) else g.start
  }

  /** A copy in one piece that does not end inside the buffer. */
  predicate Leaves(start: nat, end: nat, n: nat) {
    !GoesAround(start, end, n) && end + n > SIZE + 1
  }

  function Copied(g: Log, src: string): (c: Log)
    requires Shaped(g) && |src| + 1 < SIZE && !Leaves(g.start, g.end, |src|)
    ensures |c.r| == SIZE + 1 && c.end <= SIZE + 1 && c.start == g.start
  {
    var n := SIZE - g.end;
    if GoesAround(g.start, g.end, |src|) then
      Log(src[n..] + g.r[|src| - n..g.end] + src[..n] + g.r[SIZE..], g.start, |src| - n)
    else Log(g.r[..g.end] + src + g.r[g.end + |src|..], g.start, g.end + |src|)
  }

  /** A newline, and a NUL behind it. */
  function Ended(g: Log): (e: Log)
    requires |g.r| == SIZE + 1 && g.start < SIZE && g.end <= SIZE + 1
    ensures Shaped(e)
  {
    var p := Wrap(g.end);
    var q := Wrap(p + 1);
    Log(g.r[p := '\n'][q := NUL], g.start, q)
  }

  /** `pks_logcopy`; None if its copy leaves the ring. */
  function Logged(g: Log, src: string): (h: Option<Log>)
    requires Shaped(g)
    ensures h.Some? ==> Shaped(h.value)
  {
    if |src| + 1 >= SIZE then Some(g)
    else
      var c := g.(start := Cleared(g, |src| + 1));
      if Leaves(c.start, c.end, |src|) then None else Some(Ended(Copied(c, src)))
  }

  /** The text is what it should be, and the ring ends in a NUL, which the readers rely on. */
  ghost predicate Ready(g: Log, history: string, last: nat) {
    && Shaped(g) && g.r[SIZE] == NUL && Kept(Content(g), history, last)
    && (history == "" ==> g.start == g.end == 0)
  }

  lemma {:induction false} SeekFinds(r: string, s0: nat, end: nat, from: nat, stop: nat) returns (k: nat)
    requires |r| == SIZE + 1 && s0 < SIZE && end < SIZE
    requires from <= stop < Used(s0, end) && Data(r, s0, end)[stop] == '\n'
    ensures from <= k <= stop && Seek(r, Wrap(s0 + from), end) == Wrap(s0 + k) && Data(r, s0, end)[k] == '\n'
    ensures forall i :: from <= i < k ==> Data(r, s0, end)[i] != '\n'
    decreases stop - from
  {
    hide Data;
    DataAt(r, s0, end, from);
    if r[Wrap(s0 + from)] == '\n' {
      k := from;
    } else {
      k := SeekFinds(r, s0, end, from + 1, stop);
    }
  }

  lemma {:induction false} SkipFinds(r: string, s0: nat, end: nat, from: nat, stop: nat) returns (k: nat)
    requires |r| == SIZE + 1 && s0 < SIZE && end < SIZE && r[end] == NUL
    requires from <= stop < Used(s0, end) && Data(r, s0, end)[stop] != '\n'
    ensures from <= k <= stop && Skip(r, Wrap(s0 + from), end) == Wrap(s0 + k) && Data(r, s0, end)[k] != '\n'
    ensures forall i :: from <= i < k ==> Data(r, s0, end)[i] == '\n'
    decreases stop - from
  {
    hide Data;
    DataAt(r, s0, end, from);
    if r[Wrap(s0 + from)] == '\n' {
      k := SkipFinds(r, s0, end, from + 1, stop);
    } else {
      k := from;
    }
  }

  lemma NewlineBeforeLast(d: string, history: string, last: nat)
    requires Kept(d, history, last)
    ensures 3 * last < SIZE && (last < |d| ==> d[|d| - last - 1] == '\n')
  {
  }

  lemma SomeInk(d: string, history: string, last: nat) returns (i: nat)
    requires Kept(d, history, last) && history != ""
    ensures i < |d| && |d| - last <= i && d[i] != '\n'
  {
    i :| 0 <= i < |d| && |d| - last <= i && d[i] != '\n';
  }

  /** Whole lines are dropped until n bytes fit: up to the first line that starts behind byte n. */
  lemma RoomIsMade(g: Log, history: string, last: nat, n: nat) returns (dropped: nat)
    requires Ready(g, history, last) && TooFull(g.start, g.end, n) && 3 * n < SIZE
    ensures var c := g.(start := Cleared(g, n));
            && Ready(c, history, last) && Used(c.start, c.end) + n < SIZE
            && NextLine(Content(g), n, dropped) && Content(c) == Content(g)[dropped..]
  {
    hide Data, Kept, Seek, Skip;
    var d := Content(g);
    var ink := SomeInk(d, history, last);
    NewlineBeforeLast(d, history, last);
    assert n + last < |d|;
    var m := SeekFinds(g.r, g.start, g.end, n, |d| - last - 1);
    dropped := SkipFinds(g.r, g.start, g.end, m, ink);
    assert LineEnds(d, n, m, dropped);
    DataDrop(g.r, g.start, g.end, dropped);
    KeptLess(d, history, last, dropped);
  }

  lemma NotTooFull(g: Log, history: string, last: nat, n: nat)
    requires Ready(g, history, last) && !TooFull(g.start, g.end, n) && n < SIZE
    ensures Used(g.start, g.end) + n < SIZE
  {
    if g.start == g.end {
      StartApart(g, history, last);
    }
  }

  /** Only an empty ring has start and end in the same place. */
  lemma StartApart(g: Log, history: string, last: nat)
    requires Ready(g, history, last) && g.start == g.end
    ensures g.start == 0
  {
    var d := Content(g);
    assert d == "" && !Ink(d, last);
  }

  lemma Slices(a: string, b: string, c: string, d: string)
    ensures var s := a + b + c + d;
            && s[..|a|] == a && s[|a|..|a| + |b|] == b && s[|a| + |b|..|a| + |b| + |c|] == c
            && s[|a| + |b| + |c|..] == d
            && s[|a|..] == b + c + d
  {
  }

  /** Where there is room the copy stays inside, and appends. */
  lemma CopyAppends(g: Log, src: string)
    requires Shaped(g) && g.r[SIZE] == NUL && Used(g.start, g.end) + |src| + 1 < SIZE
    requires g.start == g.end ==> g.start == 0
    ensures !Leaves(g.start, g.end, |src|)
    ensures var c := Copied(g, src);
            c.end < SIZE && Content(c) == Content(g) + src && c.r[SIZE] == NUL
  {
    if GoesAround(g.start, g.end, |src|) {
      AroundAppends(g, src);
    } else {
      StraightAppends(g, src);
    }
  }

  lemma AroundAppends(g: Log, src: string)
    requires Shaped(g) && g.r[SIZE] == NUL && Used(g.start, g.end) + |src| + 1 < SIZE
    requires GoesAround(g.start, g.end, |src|)
    ensures var c := Copied(g, src);
            c.end < SIZE && Content(c) == Content(g) + src && c.r[SIZE] == NUL
  {
    hide Data;
    var c, n := Copied(g, src), SIZE - g.end;
    var m := |src| - n;
    Slices(src[n..], g.r[m..g.end], src[..n], g.r[SIZE..]);
    CopyAround(g.r, c.r, g.start, g.end, src);
  }

  lemma StraightAppends(g: Log, src: string)
    requires Shaped(g) && g.r[SIZE] == NUL && Used(g.start, g.end) + |src| + 1 < SIZE
    requires g.start == g.end ==> g.start == 0
    requires !GoesAround(g.start, g.end, |src|)
    ensures !Leaves(g.start, g.end, |src|)
    ensures var c := Copied(g, src);
            c.end < SIZE && Content(c) == Content(g) + src && c.r[SIZE] == NUL
  {
    hide Data;
    var c := Copied(g, src);
    Slices(g.r[..g.end], src, g.r[g.end + |src|..], "");
    assert c.r == c.r + "" && c.r[SIZE] == g.r[g.end + |src|..][SIZE - g.end - |src|];
    CopyStraight(g.r, c.r, g.start, g.end, src);
  }

  lemma EndAppends(g: Log)
    requires |g.r| == SIZE + 1 && g.start < SIZE && g.end < SIZE && Used(g.start, g.end) + 1 < SIZE && g.r[SIZE] == NUL
    ensures Content(Ended(g)) == Content(g) + "\n" && Ended(g).r[SIZE] == NUL
  {
    hide Data;
    WriteByte(g.r, g.start, g.end, '\n');
    WriteOutside(g.r[g.end := '\n'], g.start, Wrap(g.end + 1), NUL);
  }

  lemma ContentLength(g: Log)
    requires Shaped(g)
    ensures |Content(g)| == Used(g.start, g.end)
  {
  }

  /** One good line: nothing leaves the ring, and the line is appended to what is kept. */
  lemma GoodStep(g: Log, history: string, last: nat, src: string) returns (dropped: nat)
    requires Ready(g, history, last) && GoodLine(src)
    ensures Logged(g, src).Some?
    ensures Ready(Logged(g, src).value, history + src + "\n", |src| + 1)
    ensures dropped <= |Content(g)| && Content(Logged(g, src).value) == Content(g)[dropped..] + src + "\n"
    ensures if |Content(g)| + |src| + 1 >= SIZE then NextLine(Content(g), |src| + 1, dropped) else dropped == 0
  {
    var n := |src| + 1;
    TooFullIs(g.start, g.end, n);
    ContentLength(g);
    hide Data, Kept, NextLine, Cleared, Copied, Ended, TooFull;
    dropped := 0;
    var c := g.(start := Cleared(g, n));
    if TooFull(g.start, g.end, n) {
      dropped := RoomIsMade(g, history, last, n);
      assert NextLine(Content(g), n, dropped);
      DroppedInside(Content(g), n, dropped);
    } else {
      ClearedNot(g, n);
      NotTooFull(g, history, last, n);
    }
    if c.start == c.end {
      StartApart(c, history, last);
    }
    KeptMore(Content(c), history, last, src);
    CopyAppends(c, src);
    EndAppends(Copied(c, src));
    assert Content(c) == Content(g)[dropped..];
  }

  lemma DroppedInside(d: string, n: nat, k: nat)
    requires NextLine(d, n, k)
    ensures k < |d|
  {
  }

  lemma ClearedNot(g: Log, n: nat)
    requires Shaped(g) && n < SIZE && !TooFull(g.start, g.end, n)
    ensures Cleared(g, n) == g.start
  {
  }

  // ---- runs, and how long lines may be ----------------------------------------------

  const EMPTY := Log(seq(SIZE + 1, _ => NUL), 0, 0)

  /** In a run over these lines every copy stays inside the ring, and the NUL at its end stays. */
  ghost predicate Survives(g: Log, lines: seq<string>)
    requires Shaped(g)
    decreases |lines|
  {
    lines != [] ==>
      && Logged(g, lines[0]).Some? && Logged(g, lines[0]).value.r[SIZE] == NUL
      && Survives(Logged(g, lines[0]).value, lines[1..])
  }

  /** Lines of text of n bytes at most. */
  ghost predicate LinesUpTo(lines: seq<string>, n: nat) {
    forall k :: 0 <= k < |lines| ==> LineUpTo(lines[k], n)
  }

  ghost predicate LineUpTo(x: string, n: nat) {
    |x| <= n && NUL !in x && exists i :: 0 <= i < |x| && x[i] != '\n'
  }

  lemma {:induction false} GoodRun(g: Log, history: string, last: nat, lines: seq<string>, n: nat)
    requires Ready(g, history, last) && LinesUpTo(lines, n) && 3 * (n + 1) < SIZE
    ensures Survives(g, lines)
    decreases |lines|
  {
    hide Logged, Kept;
    if lines != [] {
      assert LineUpTo(lines[0], n);
      assert GoodLine(lines[0]);
      hide LineUpTo;
      assert LinesUpTo(lines[1..], n);
      var _ := GoodStep(g, history, last, lines[0]);
      GoodRun(Logged(g, lines[0]).value, history + lines[0] + "\n", |lines[0]| + 1, lines[1..], n);
    }
  }

  /** A stretch without newlines, which does not meet the end of the text. */
  lemma {:induction false} SeekOver(r: string, p: nat, q: nat, end: nat)
    requires |r| == SIZE + 1 && p <= q < end < SIZE && r[q] == '\n' && forall i :: p <= i < q ==> r[i] != '\n'
    ensures Seek(r, p, end) == q
    decreases q - p
  {
    if p < q {
      SeekOver(r, p + 1, q, end);
    }
  }

  /** What is in the ring after a first line of n bytes, or after one behind which there is room. */
  lemma PlainStep(g: Log, x: string)
    requires Shaped(g) && g.r[SIZE] == NUL && g.start == 0 && g.end + |x| + 1 < SIZE && NUL !in x && '\n' !in x
    ensures Logged(g, x).Some?
    ensures var h := Logged(g, x).value;
            && h.start == 0 && h.end == g.end + |x| + 1 && h.r[SIZE] == NUL && h.r[h.end - 1] == '\n'
            && h.r[..g.end] == g.r[..g.end] && h.r[g.end..g.end + |x|] == x
  {
    var c := Copied(g, x);
    assert c == Log(g.r[..g.end] + x + g.r[g.end + |x|..], 0, g.end + |x|);
  }

  /** Three lines of n bytes where three do not fit: making room for the third drops everything,
      the ring looks empty in its middle, and the copy overwrites the NUL at the end of the ring
      or leaves it. */
  lemma ThreeLinesOverrun(x: string)
    requires NUL !in x && '\n' !in x && 2 * (|x| + 1) < SIZE <= 3 * (|x| + 1)
    ensures Logged(EMPTY, x).Some? && Logged(Logged(EMPTY, x).value, x).Some?
    ensures var g := Logged(Logged(EMPTY, x).value, x).value;
            && Cleared(g, |x| + 1) == g.end == 2 * (|x| + 1)
            && (if 3 * (|x| + 1) > SIZE + 2 then Logged(g, x).None?
                else Logged(g, x).Some? && Logged(g, x).value.r[SIZE] != NUL)
  {
    hide Logged, Seek;
    PlainStep(EMPTY, x);
    var f := Logged(EMPTY, x).value;
    PlainStep(f, x);
    var g, n := Logged(f, x).value, |x| + 1;
    forall i | n <= i < 2 * n - 1
      ensures g.r[i] != '\n'
    {
      assert g.r[i] == g.r[n..n + |x|][i - n] == x[i - n];
    }
    SeekOver(g.r, n, 2 * n - 1, g.end);
    ThirdCopy(g, x);
  }

  lemma ThirdCopy(g: Log, x: string)
    requires Shaped(g) && g.start == 0 && g.end == 2 * (|x| + 1) < SIZE <= 3 * (|x| + 1) && NUL !in x
    requires g.r[g.end - 1] == '\n' && Seek(g.r, |x| + 1, g.end) == g.end - 1
    ensures Cleared(g, |x| + 1) == g.end
    ensures if 3 * (|x| + 1) > SIZE + 2 then Logged(g, x).None?
            else Logged(g, x).Some? && Logged(g, x).value.r[SIZE] != NUL
  {
    SkipLast(g.r, g.end);
    hide Seek, Skip, Ended;
    assert Cleared(g, |x| + 1) == g.end;
    var c := g.(start := g.end);
    if 3 * (|x| + 1) <= SIZE + 2 {
      OverTheEnd(c, x);
    }
  }

  lemma SkipLast(r: string, end: nat)
    requires |r| == SIZE + 1 && 0 < end < SIZE && r[end] == NUL && r[end - 1] == '\n'
    ensures Skip(r, end - 1, end) == end
  {
  }

  /** The copy ends just behind the ring: its last byte stays there. */
  lemma OverTheEnd(c: Log, x: string)
    requires Shaped(c) && c.start == c.end && c.end + |x| == SIZE + 1 && 0 < |x| && |x| + 1 < SIZE && NUL !in x
    ensures !Leaves(c.start, c.end, |x|) && Ended(Copied(c, x)).r[SIZE] != NUL
  {
    var d := Copied(c, x);
    assert d.r[SIZE] == x[|x| - 1];
  }

  /** Runs over lines of n bytes at most never leave the ring if and only if the lines, each with
      its newline, are shorter than a third of it. */
  lemma BoundIsExact(n: nat)
    ensures (forall lines :: LinesUpTo(lines, n) ==> Survives(EMPTY, lines)) <==> 3 * (n + 1) < SIZE
  {
    hide LinesUpTo, Survives, Ready;
    if 3 * (n + 1) < SIZE {
      EmptyIsReady();
      forall lines | LinesUpTo(lines, n)
        ensures Survives(EMPTY, lines)
      {
        GoodRun(EMPTY, "", 0, lines, n);
      }
    } else {
      var lines := LinesTooLong(n);
    }
  }

  /** A third of the ring is too long a line. */
  lemma LinesTooLong(n: nat) returns (lines: seq<string>)
    requires 3 * (n + 1) >= SIZE
    ensures LinesUpTo(lines, n) && !Survives(EMPTY, lines)
  {
    hide Logged, Survives;
    var x := seq(SIZE / 3, _ => 'x');
    lines := [x, x, x];
    assert x[0] == 'x';
    assert LineUpTo(x, n);
    ThreeLinesOverrun(x);
    NotSurvived(x);
  }

  lemma NotSurvived(x: string)
    requires Logged(EMPTY, x).Some? && Logged(Logged(EMPTY, x).value, x).Some?
    requires var g := Logged(Logged(EMPTY, x).value, x).value;
             Logged(g, x).Some? ==> Logged(g, x).value.r[SIZE] != NUL
    ensures !Survives(EMPTY, [x, x, x])
  {
    hide Logged, Survives;
    var f := Logged(EMPTY, x).value;
    SurvivesIs(EMPTY, x, [x, x]);
    SurvivesIs(f, x, [x]);
    SurvivesIs(Logged(f, x).value, x, []);
    assert [x] + [x, x] == [x, x, x] && [x] + [x] == [x, x] && [x] + [] == [x];
  }

  lemma SurvivesIs(g: Log, x: string, rest: seq<string>)
    requires Shaped(g)
    ensures Survives(g, [x] + rest) <==>
            && Logged(g, x).Some? && Logged(g, x).value.r[SIZE] == NUL && Survives(Logged(g, x).value, rest)
  {
    hide Logged;
    assert ([x] + rest)[0] == x && ([x] + rest)[1..] == rest;
  }

  lemma EmptyIsReady()
    ensures Ready(EMPTY, "", 0)
  {
    assert Content(EMPTY) == "";
  }

  class Ring {
    const buffer: array<char>
    var start: nat
    var end: nat
    /** Every line logged so far, and how long the last one is with its newline. */
    ghost var history: string
    ghost var last: nat

    ghost function State(): Log
      reads this, buffer
    {
      Log(buffer[..], start, end)
    }

    ghost predicate Valid()
      reads this, buffer
    {
      Ready(State(), history, last)
    }

    ghost function Lines(): string
      reads this, buffer
      requires Shaped(State())
    {
      Content(State())
    }

    /** `pks_global_init` */
    constructor ()
      ensures Valid() && State() == EMPTY && history == "" && fresh(buffer)
    {
      buffer := new char[SIZE + 1](_ => NUL);
      start, end, history, last := 0, 0, "", 0;
      new;
      EmptyIsReady();
      assert buffer[..] == EMPTY.r;
    }

    /** Moves start on to a newline. */
    method ToNewline()
      requires Shaped(State())
      modifies this`start
      ensures start == Seek(buffer[..], old(start), end)
    {
      hide Data;
      while buffer[start] != '\n' && start != end
        invariant start < SIZE && Seek(buffer[..], start, end) == Seek(buffer[..], old(start), end)
        decreases Used(start, end)
      {
        start := Wrap(start + 1);
      }
    }

    /** Moves start on past newlines. */
    method PastNewlines()
      requires Shaped(State())
      modifies this`start
      ensures start == Skip(buffer[..], old(start), end)
    {
      hide Data;
      while buffer[start] == '\n'
        invariant start < SIZE && Skip(buffer[..], start, end) == Skip(buffer[..], old(start), end)
        decreases Used(start, end)
      {
        start := Wrap(start + 1);
      }
    }

    /** The first part of `pks_logcopy`: whole lines are dropped until n bytes fit. */
    method MakeRoom(n: nat)
      requires Shaped(State()) && n < SIZE
      modifies this`start
      ensures start == Cleared(old(State()), n)
    {
      hide Seek, Skip;
      if TooFull(start, end, n) {
        start := Wrap(start + n);
        ToNewline();
        PastNewlines();
      }
    }

    /** The second part, in two pieces. */
    method CopyAroundEnd(src: string)
      requires Shaped(State()) && |src| + 1 < SIZE && GoesAround(start, end, |src|)
      modifies this`end, buffer
      ensures end < SIZE && State() == Copied(old(State()), src)
    {
      ghost var was, e := buffer[..], end;
      var n := SIZE - end;
      var front, back := src[..n], src[n..];
      Print(buffer, end, front);
      ghost var mid := buffer[..];
      assert e + |front| == SIZE && 0 + |back| == |src| - n;
      Print(buffer, 0, back);
      TwoPieces(was, mid, buffer[..], e, src);
      end := |src| - n;
    }

    /** The second part: the text, in one piece or two. */
    method CopyIn(src: string)
      requires Shaped(State()) && |src| + 1 < SIZE && !Leaves(start, end, |src|)
      modifies this`end, buffer
      ensures end <= SIZE + 1 && State() == Copied(old(State()), src)
    {
      ghost var was := buffer[..];
      if GoesAround(start, end, |src|) {
        hide Copied;
        CopyAroundEnd(src);
      } else {
        Print(buffer, end, src);
        OnePiece(was, buffer[..], end, src);
        end := end + |src|;
      }
    }

    lemma OnePiece(was: string, now: string, e: nat, src: string)
      requires |was| == |now| && e + |src| <= |was|
      requires now[..e] == was[..e] && now[e..e + |src|] == src && now[e + |src|..] == was[e + |src|..]
      ensures now == was[..e] + src + was[e + |src|..]
    {
      assert now == now[..e] + now[e..e + |src|] + now[e + |src|..];
    }

    lemma TwoPieces(was: string, mid: string, now: string, e: nat, src: string)
      requires |was| == |mid| == |now| == SIZE + 1 && e < SIZE && SIZE - e <= |src| && |src| - (SIZE - e) <= e
      requires mid[..e] == was[..e] && mid[e..SIZE] == src[..SIZE - e] && mid[SIZE..] == was[SIZE..]
      requires var m := |src| - (SIZE - e);
               now[0..m] == src[SIZE - e..] && now[m..] == mid[m..]
      ensures now == src[SIZE - e..] + was[|src| - (SIZE - e)..e] + src[..SIZE - e] + was[SIZE..]
    {
      var m := |src| - (SIZE - e);
      TailOf(now, mid, m, m, e);
      TailOf(now, mid, m, e, SIZE);
      TailOf(now, mid, m, SIZE, SIZE + 1);
      HeadOf(mid, was, e, m, e);
      assert now == now[0..m] + now[m..e] + now[e..SIZE] + now[SIZE..];
      assert now[SIZE..] == now[SIZE..SIZE + 1] == mid[SIZE..SIZE + 1] == mid[SIZE..];
    }

    /** The third: a newline and a NUL. */
    method Finish()
      requires buffer.Length == SIZE + 1 && start < SIZE && end <= SIZE + 1
      modifies this`end, buffer
      ensures State() == Ended(old(State()))
    {
      end := Wrap(end);
      buffer[end] := '\n';
      end := Wrap(end + 1);
      buffer[end] := NUL;
    }

    /** `pks_logcopy`, for any text: it says if its copy would leave the ring, and stops there.
        As long as the lines are good that does not happen: the line is appended to what is kept,
        of which whole lines are dropped from the front to make room. */
    method LogCopy(src: string) returns (rv: int, overrun: bool, ghost dropped: nat)
      requires Shaped(State())
      modifies this, buffer
      ensures overrun <==> Logged(old(State()), src).None?
      ensures !overrun ==> State() == Logged(old(State()), src).value && rv == if |src| + 1 < SIZE then |src| else -1
      ensures old(Valid()) && |src| + 1 >= SIZE ==> Valid() && history == old(history) && Lines() == old(Lines())
      ensures old(Valid()) && GoodLine(src) ==>
                && !overrun && Valid() && history == old(history) + src + "\n"
                && dropped <= |old(Lines())| && Lines() == old(Lines())[dropped..] + src + "\n"
                && if |old(Lines())| + |src| + 1 >= SIZE then NextLine(old(Lines()), |src| + 1, dropped)
                   else dropped == 0
    {
      hide Cleared, Copied, Ended, Leaves, TooFull, Ready, Content, NextLine;
      dropped := 0;
      ghost var g := State();
      var len := |src| + 1;
      if len >= SIZE {
        return -1, false, 0;
      }
      if Ready(g, history, last) && GoodLine(src) {
        dropped := GoodStep(g, history, last, src);
      }
      MakeRoom(len);
      if Leaves(start, end, |src|) {
        return -1, true, dropped;
      }
      CopyIn(src);
      Finish();
      history, last := history + src + "\n", len;
      return |src|, false, dropped;
    }

    /** `pks_copylog` into a buffer of SIZE bytes: what it copies is the text kept. */
    method CopyLog() returns (dest: string)
      requires Valid()
      ensures dest == Lines() && |dest| < SIZE && dest <= history[|history| - |dest|..]
      ensures dest == history || (|dest| < |history| && history[|history| - |dest| - 1] == '\n')
    {
      ghost var r := buffer[..];
      dest := CString(buffer[..], start);
      if end < start {
        TextUpTo(r, start, SIZE);
        TextUpTo(r, 0, end);
        dest := dest + CString(buffer[..], 0);
      } else {
        TextUpTo(r, start, end);
      }
    }

    lemma TextUpTo(r: string, p: nat, e: nat)
      requires p <= e < |r| && NUL !in r[p..e] && r[e] == NUL
      ensures CString(r, p) == r[p..e]
    {
      UpToNulUnique(r[p..], r[p..e]);
    }
  }
}
