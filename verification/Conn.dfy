/** The write path of pkconn.c on a clear-data connection: data goes straight to the kernel when
    nothing is buffered, into the output buffer when it fits, and out by a blocking flush when it
    does not. The kernel answers each system call as it likes. */
module Conn {
  import opened Text
  import opened Printers

  datatype Errno = NoError | Eintr | Eagain | OtherError

  type Positive = n: int | 0 < n witness 1

  /** The answer to one write of a non-empty buffer: some of it was taken, or an error. */
  datatype Answer = Took(count: Positive) | Failed(errno: Errno)

  datatype Mode = NonBlocking | Blocking

  /** How a flush ended: well, without a socket, after too many turns of its first loop, or with
      an error. */
  datatype Reason = Sent | NoSocket | TooMany | Error(errno: Errno)

  const IO_BUFFER_SIZE := 16 * 1024
  const FLUSH_LOOPS := 1000
  const REPORT_INCREMENT := 16

  /** What the kernel says next; when it has nothing left to say, that the call would block. */
  function Next(kernel: seq<Answer>): Answer {
    if kernel == [] then Failed(Eagain) else kernel[0]
  }

  /** One answer is used up. */
  function Rest(kernel: seq<Answer>): seq<Answer> {
    if kernel == [] then [] else kernel[1..]
  }

  /** The errors that mark a connection closed for writing. */
  predicate Closes(e: Errno) {
    e != Eagain && e != NoError
  }

  predicate Marks(why: Reason) {
    why.Error? && Closes(why.errno)
  }

  /** The errors that a write is tried again for. */
  predicate Retried(e: Errno) {
    e == Eintr || e == NoError
  }

  /** Which of the three flushes of a chunk failed, if one did. */
  function Failure(whys: (Reason, Reason, Reason)): Reason {
    if whys.0 != Sent then whys.0 else whys.2
  }

  /** The answers left when `later` is what remains of `kernel`. */
  ghost predicate Tail(kernel: seq<Answer>, later: seq<Answer>) {
    |later| <= |kernel| && later == kernel[|kernel| - |later|..]
  }

  /** The last answer of those between kernel and later was the error e. */
  ghost predicate LastWord(kernel: seq<Answer>, later: seq<Answer>, e: Errno) {
    || (|later| < |kernel| && kernel[|kernel| - |later| - 1] == Failed(e))
    || (later == [] && e == Eagain)
  }

  /** What the kernel said for a blocking flush to end like this: an error that is not retried,
      or a thousand answers and no end. */
  ghost predicate Because(why: Reason, sockfd: int, kernel: seq<Answer>, later: seq<Answer>) {
    match why
    case Sent => true
    case NoSocket => sockfd < 0
    case TooMany => |kernel| - |later| >= FLUSH_LOOPS
    case Error(e) =>
      (!Retried(e) && LastWord(kernel, later, e)) || (e == OtherError && |kernel| - |later| > FLUSH_LOOPS)
  }

  /** An answer after which a blocking flush goes on: some bytes were taken, or a signal came. */
  predicate GoesOnAfter(a: Answer) {
    a.Took? || a == Failed(Eintr) || a == Failed(NoError)
  }

  /** The answers between kernel and later were all of that kind. */
  ghost predicate GoOn(kernel: seq<Answer>, later: seq<Answer>) {
    forall i :: 0 <= i < |kernel| - |later| ==> GoesOnAfter(kernel[i])
  }

  /** All but the last of them. */
  ghost predicate GoOnTillLast(kernel: seq<Answer>, later: seq<Answer>) {
    forall i :: 0 <= i < |kernel| - |later| - 1 ==> GoesOnAfter(kernel[i])
  }

  /** How many of them were errors. */
  ghost function Failures(kernel: seq<Answer>, later: seq<Answer>): nat
    decreases |kernel| - |later|
  {
    if |later| >= |kernel| then 0
    else Failures(kernel, [kernel[|kernel| - |later| - 1]] + later)
         + if kernel[|kernel| - |later| - 1].Failed? then 1 else 0
  }

  lemma OneFailure(a: seq<Answer>, b: seq<Answer>)
    requires Tail(a, b)
    ensures Failures(a, a) == 0
    ensures Failures(a, Rest(b)) <= Failures(a, b) + if Next(b).Failed? then 1 else 0
  {
    if b != [] {
      assert a[|a| - |b|] == b[0] && [b[0]] + b[1..] == b;
    }
  }

  lemma GoOnTwice(a: seq<Answer>, b: seq<Answer>, c: seq<Answer>)
    requires Tail(a, b) && Tail(b, c) && GoOn(a, b)
    ensures GoOn(b, c) ==> GoOn(a, c)
    ensures GoOnTillLast(b, c) ==> GoOnTillLast(a, c)
  {
    forall i | |a| - |b| <= i < |a|
      ensures a[i] == b[i - (|a| - |b|)]
    {
    }
  }

  lemma GoOnStep(a: seq<Answer>, b: seq<Answer>)
    requires Tail(a, b) && GoOn(a, b)
    ensures GoOnTillLast(a, Rest(b))
    ensures b != [] && GoesOnAfter(b[0]) ==> GoOn(a, Rest(b))
  {
    assert b != [] ==> a[|a| - |b|] == b[0];
  }

  /** By name: which errors are tried again, and which ends of a flush mark a connection. */
  lemma RetriedAre(e: Errno)
    ensures Retried(e) <==> e == Eintr || e == NoError
  {
  }

  lemma MarksAre(why: Reason)
    ensures Marks(why) <==> why == Error(Eintr) || why == Error(OtherError)
  {
  }

  function Min(a: nat, b: nat): nat {
    if a < b then a else b
  }

  lemma TailTwice(a: seq<Answer>, b: seq<Answer>, c: seq<Answer>)
    requires Tail(a, b) && Tail(b, c)
    ensures Tail(a, c) && forall e :: LastWord(b, c, e) ==> LastWord(a, c, e)
  {
    assert |c| < |b| ==> a[|a| - |c| - 1] == b[|b| - |c| - 1];
  }

  /** A reason that lies in the later answers. */
  lemma LaterReason(why: Reason, sockfd: int, a: seq<Answer>, b: seq<Answer>, c: seq<Answer>)
    requires Tail(a, b) && Tail(b, c) && Because(why, sockfd, b, c)
    ensures Because(why, sockfd, a, c)
  {
    TailTwice(a, b, c);
  }

  lemma TailRest(kernel: seq<Answer>)
    ensures Tail(kernel, kernel) && Tail(kernel, Rest(kernel)) && |Rest(kernel)| <= |kernel|
    ensures kernel != [] ==> |Rest(kernel)| < |kernel|
    ensures Next(kernel).Failed? ==> LastWord(kernel, Rest(kernel), Next(kernel).errno)
  {
  }

  /** One answer more was used up. */
  lemma TailStep(a: seq<Answer>, b: seq<Answer>)
    requires Tail(a, b)
    ensures Tail(a, Rest(b)) && |Rest(b)| == if b == [] then 0 else |b| - 1
    ensures b == [] ==> Next(b) == Failed(Eagain)
    ensures Next(b).Failed? ==> LastWord(a, Rest(b), Next(b).errno)
  {
    TailRest(b);
    TailTwice(a, b, Rest(b));
  }

  lemma SplitStream(taken: string, was: string, n: nat)
    requires n <= |was|
    ensures taken + was == taken + was[..n] + was[n..]
  {
    assert was == was[..n] + was[n..];
  }

  lemma PrefixJoin(stream: string, data: string, i: nat, k: nat)
    requires i + k <= |data|
    ensures stream + data[..i] + data[i..][..k] == stream + data[..i + k]
  {
    assert data[..i] + data[i..][..k] == data[..i + k];
  }

  class PkConn {
    /** out_buffer, and one cell more: the byte behind it, which belongs to the next field. */
    const out: array<char>
    var outPos: nat
    var sockfd: int
    /** CONN_STATUS_CLS_WRITE */
    var clsWrite: bool
    var errno: Errno
    /** How much was written, less the kilobytes that were reported. */
    var wroteBytes: nat
    var reportedKb: nat
    /** The answers to come, and every byte the kernel took so far. */
    var kernel: seq<Answer>
    var accepted: string

    /** The write counters account for every byte the kernel took. */
    ghost predicate Valid()
      reads this`outPos, this`wroteBytes, this`reportedKb, this`accepted
    {
      && outPos <= IO_BUFFER_SIZE && out.Length == IO_BUFFER_SIZE + 1
      && reportedKb * 1024 + wroteBytes == |accepted|
    }

    /** Everything written to this connection, in order: taken by the kernel, or buffered. */
    ghost function Stream(): string
      reads this`outPos, this`wroteBytes, this`reportedKb, this`accepted, out
      requires Valid()
    {
      accepted + out[..outPos]
    }

    /** PKC_OUT_FREE */
    function Free(): (n: nat)
      reads this`outPos
      requires outPos <= IO_BUFFER_SIZE
    {
      IO_BUFFER_SIZE - outPos
    }

    /** The byte behind the buffer. */
    ghost function Behind(): char
      reads out
      requires out.Length == IO_BUFFER_SIZE + 1
    {
      out[IO_BUFFER_SIZE]
    }

    /** How a non-blocking flush will end: one system call if anything is buffered. */
    ghost function FirstReason(): Reason
      reads this`outPos, this`sockfd, this`kernel
    {
      if outPos == 0 then Sent
      else if sockfd < 0 then NoSocket
      else if Next(kernel).Failed? then Error(Next(kernel).errno)
      else Sent
    }

    constructor (fd: int, answers: seq<Answer>)
      ensures Valid() && Stream() == "" && !clsWrite && sockfd == fd && kernel == answers && fresh(out)
    {
      out := new char[IO_BUFFER_SIZE + 1];
      outPos, sockfd, clsWrite, errno, wroteBytes, reportedKb := 0, fd, false, NoError, 0, 0;
      kernel, accepted := answers, "";
    }

    /** `pkc_raw_write`: one system call, and none for no data. */
    method RawWrite(data: string) returns (wrote: int)
      requires Valid()
      modifies this`errno, this`wroteBytes, this`kernel, this`accepted
      ensures Valid()
      ensures data == "" ==> wrote == 0 && errno == NoError && kernel == old(kernel)
      ensures data != "" && Next(old(kernel)).Took? ==>
                0 < wrote == Min(Next(old(kernel)).count, |data|) && errno == NoError
      ensures data != "" && Next(old(kernel)).Failed? ==> wrote == -1 && errno == Next(old(kernel)).errno
      ensures data != "" ==> kernel == Rest(old(kernel))
      ensures wrote <= |data| && accepted == old(accepted) + if wrote < 0 then "" else data[..wrote]
    {
      wrote, errno := 0, NoError;
      if data != "" {
        match Next(kernel) {
          case Took(n) => wrote := if n > |data| then |data| else n;
          case Failed(e) => wrote, errno := -1, e;
        }
        kernel := Rest(kernel);
      }
      if wrote > 0 {
        wroteBytes := wroteBytes + wrote;
        accepted := accepted + data[..wrote];
      }
      assert accepted == old(accepted) + if wrote < 0 then "" else data[..wrote];
    }

    /** memmove of what the kernel did not take to the front of the buffer */
    method Discard(wrote: nat)
      requires Valid() && wrote <= outPos
      modifies this`outPos, out
      ensures Valid() && outPos == old(outPos) - wrote && out[..outPos] == old(out[wrote..outPos])
      ensures Behind() == old(Behind())
    {
      var i := 0;
      while i < outPos - wrote
        invariant i <= outPos - wrote
        invariant forall j :: 0 <= j < i ==> out[j] == old(out[wrote + j])
        invariant forall j :: i <= j < out.Length ==> out[j] == old(out[j])
        modifies out
      {
        out[i] := out[wrote + i];
        i := i + 1;
      }
      outPos := outPos - wrote;
    }

    /** One turn of the first loop of `pkc_flush`. */
    method FlushOnce() returns (wrote: int)
      requires Valid()
      modifies this`errno, this`wroteBytes, this`kernel, this`accepted, this`outPos, out
      ensures Valid() && Stream() == old(Stream()) && old(accepted) <= accepted && Behind() == old(Behind())
      ensures |accepted| - |old(accepted)| == old(outPos) - outPos == if wrote < 0 then 0 else wrote
      ensures old(outPos) == 0 ==> wrote == 0 && errno == NoError && kernel == old(kernel)
      ensures old(outPos) > 0 && Next(old(kernel)).Took? ==>
                0 < wrote == Min(Next(old(kernel)).count, old(outPos)) && errno == NoError
      ensures old(outPos) > 0 && Next(old(kernel)).Failed? ==> wrote == -1 && errno == Next(old(kernel)).errno
      ensures old(outPos) > 0 ==> kernel == Rest(old(kernel))
      ensures wrote < 0 ==> accepted == old(accepted)
    {
      hide Next, Rest;
      var data := out[..outPos];
      ghost var taken := accepted;
      wrote := RawWrite(data);
      if wrote > 0 {
        Discard(wrote);
        assert out[..outPos] == data[wrote..];
        SplitStream(taken, data, wrote);
      }
    }

    /** Something is buffered, and what the last turn met is no reason to stop. */
    ghost predicate GoesOn(wrote: int)
      reads this`outPos, this`errno
    {
      outPos > 0 && (0 < wrote || Retried(errno))
    }

    /** Bytes went from the buffer to the kernel, and nothing else happened to the stream. */
    ghost predicate Flushed(stream: string, taken: string, pos: nat, behind: char)
      reads this`outPos, this`wroteBytes, this`reportedKb, this`accepted, out
    {
      && Valid() && Stream() == stream && taken <= accepted && Behind() == behind
      && |accepted| - |taken| == pos - outPos
    }

    /** One of the other turns. */
    method FlushTurn(ghost stream: string, ghost taken: string, ghost pos: nat, ghost behind: char) returns (wrote: int)
      requires Flushed(stream, taken, pos, behind) && outPos > 0
      modifies this`errno, this`wroteBytes, this`kernel, this`accepted, this`outPos, out
      ensures Flushed(stream, taken, pos, behind) && kernel == Rest(old(kernel))
      ensures if Next(old(kernel)).Took? then 0 < wrote && errno == NoError && old(kernel) != []
              else wrote == -1 && outPos > 0 && errno == Next(old(kernel)).errno
    {
      wrote := FlushOnce();
    }

    /** The other turns, in a blocking flush; `first` is what the first turn wrote. */
    method FlushAgain(first: int, ghost stream: string, ghost taken: string, ghost pos: nat, ghost behind: char)
      returns (wrote: int, loops: int)
      requires Flushed(stream, taken, pos, behind)
      requires (0 <= first && outPos > 0 ==> 0 < first) && (first < 0 ==> outPos > 0)
      modifies this`errno, this`wroteBytes, this`kernel, this`accepted, this`outPos, out
      ensures Flushed(stream, taken, pos, behind) && loops <= FLUSH_LOOPS
      ensures loops > 0 && 0 <= wrote ==> outPos == 0
      ensures loops > 0 && wrote < 0 ==> !Retried(errno)
      ensures if old(GoesOn(first)) then
                && |old(kernel)| - |kernel| >= FLUSH_LOOPS - loops - 1
                && (wrote < 0 ==> LastWord(old(kernel), kernel, errno))
              else
                && loops == FLUSH_LOOPS && wrote == first && errno == old(errno)
                && kernel == old(kernel) && accepted == old(accepted)
      ensures Tail(old(kernel), kernel)
      ensures GoOnTillLast(old(kernel), kernel)
      ensures old(GoesOn(first)) && 0 <= wrote ==> GoOn(old(kernel), kernel)
    {
      hide Flushed, Tail, LastWord, Rest, Next, GoOn, GoOnTillLast;
      ghost var answers, again := kernel, GoesOn(first);
      wrote, loops := first, FLUSH_LOOPS;
      TailRest(answers);
      GoOnNothing(answers);
      while outPos > 0 && (0 < wrote || Retried(errno)) && loops > 0
        invariant Flushed(stream, taken, pos, behind) && 0 <= loops <= FLUSH_LOOPS
        invariant if wrote < 0 then outPos > 0 else outPos == 0 || 0 < wrote
        invariant loops == FLUSH_LOOPS ==>
                    && wrote == first && errno == old(errno) && kernel == answers
                    && accepted == old(accepted) && outPos == old(outPos)
        invariant loops < FLUSH_LOOPS ==> again && (wrote < 0 ==> LastWord(answers, kernel, errno))
        invariant Tail(answers, kernel)
        invariant |answers| - |kernel| >= FLUSH_LOOPS - loops - if GoesOn(wrote) then 0 else 1
        invariant GoOnTillLast(answers, kernel) && (0 <= wrote || GoesOn(wrote) ==> GoOn(answers, kernel))
        decreases loops
      {
        ghost var k := kernel;
        TailStep(answers, k);
        wrote := FlushTurn(stream, taken, pos, behind);
        NextGoesOn(answers, k, wrote);
        loops := loops - 1;
      }
    }

    lemma GoOnNothing(a: seq<Answer>)
      ensures GoOn(a, a) && GoOnTillLast(a, a)
    {
    }

    /** The answer that was just used up was one of those, if it is no reason to stop. */
    lemma NextGoesOn(a: seq<Answer>, k: seq<Answer>, wrote: int)
      requires Tail(a, k) && GoOn(a, k)
      requires if Next(k).Took? then k != [] else wrote == -1 && errno == Next(k).errno
      ensures GoOnTillLast(a, Rest(k)) && (0 <= wrote || GoesOn(wrote) ==> GoOn(a, Rest(k)))
    {
      GoOnStep(a, k);
      RetriedAre(errno);
    }

    lemma GoOnBoth(a: seq<Answer>, b: seq<Answer>, c: seq<Answer>)
      requires Tail(a, b) && Tail(b, c)
      ensures GoOn(a, b) && GoOn(b, c) ==> GoOn(a, c)
      ensures GoOn(a, b) && GoOnTillLast(b, c) ==> GoOnTillLast(a, c)
      ensures b == c ==> (GoOnTillLast(a, b) ==> GoOnTillLast(a, c))
    {
      if GoOn(a, b) {
        GoOnTwice(a, b, c);
      }
    }

    /** The first loop of `pkc_flush`: what is in the buffer goes first. `loops` is what is left
        of the tries. */
    method FlushBuffer(mode: Mode) returns (wrote: int, loops: int)
      requires Valid()
      modifies this`errno, this`wroteBytes, this`kernel, this`accepted, this`outPos, out
      ensures Valid() && Stream() == old(Stream()) && old(accepted) <= accepted && Behind() == old(Behind())
      ensures |accepted| - |old(accepted)| == old(outPos) - outPos
      ensures loops > 0 && 0 <= wrote && mode == Blocking ==> outPos == 0
      ensures loops <= FLUSH_LOOPS && (old(outPos) == 0 ==> wrote == 0 && loops == FLUSH_LOOPS && kernel == old(kernel))
      ensures mode == NonBlocking ==>
                && loops == FLUSH_LOOPS
                && (old(outPos) > 0 && Next(old(kernel)).Failed? <==> wrote < 0)
                && (wrote < 0 ==> errno == Next(old(kernel)).errno && outPos == old(outPos))
                && (Next(old(kernel)).Took? ==> outPos == old(outPos) - Min(Next(old(kernel)).count, old(outPos)))
      ensures mode == Blocking ==>
                GoOnTillLast(old(kernel), kernel) && (0 <= wrote ==> GoOn(old(kernel), kernel))
      ensures old(kernel) == [] ==>
                && kernel == [] && accepted == old(accepted)
                && (old(outPos) > 0 ==> wrote < 0 && errno == Eagain && loops > 0)
      ensures Tail(old(kernel), kernel) && |old(kernel)| - |kernel| >= FLUSH_LOOPS - loops
      ensures mode == Blocking && wrote < 0 && loops > 0 ==> !Retried(errno) && LastWord(old(kernel), kernel, errno)
    {
      hide Stream, Tail, LastWord, GoOn, GoOnTillLast;
      ghost var answers := kernel;
      TailRest(answers);
      GoOnNothing(answers);
      ghost var nothing := outPos == 0;
      wrote := FlushOnce();
      loops := FLUSH_LOOPS;
      if mode == Blocking {
        ghost var mid := kernel;
        if !nothing {
          NextGoesOn(answers, answers, wrote);
        }
        wrote, loops := FlushAgain(wrote, Stream(), accepted, outPos, Behind());
        TailTwice(answers, mid, kernel);
        GoOnBoth(answers, mid, kernel);
      }
    }

    /** One turn of the second loop of `pkc_flush`; `tries` is how often an interruption may still
        be put up with. */
    method WriteOnce(data: string, tries: nat) returns (bytes: int, more: bool)
      requires Valid() && data != ""
      modifies this`errno, this`wroteBytes, this`kernel, this`accepted
      ensures Valid() && bytes <= |data| && kernel == Rest(old(kernel))
      ensures accepted == old(accepted) + if bytes < 0 then "" else data[..bytes]
      ensures bytes <= 0 ==> bytes < 0 && Next(old(kernel)).Failed?
      ensures 0 < bytes ==> more && Next(old(kernel)).Took?
      ensures more && bytes < 0 ==> 0 < tries && old(kernel) != []
      ensures more ==> old(kernel) != [] && GoesOnAfter(old(kernel)[0])
      ensures !more ==>
                || (!Retried(errno) && Next(old(kernel)) == Failed(errno))
                || (errno == OtherError && tries == 0 && old(kernel) != [])
    {
      more := true;
      bytes := RawWrite(data);
      RetriedAre(errno);
      if bytes <= 0 {
        if !Retried(errno) {
          more := false;
        } else if tries == 0 {
          errno := OtherError;
          more := false;
        }
      }
    }

    /** The second loop of `pkc_flush`: new data, straight to the kernel. */
    method WriteThrough(data: string, tries: int) returns (bytes: int, took: nat)
      requires Valid() && outPos == 0 && 0 < tries <= FLUSH_LOOPS
      modifies this`errno, this`wroteBytes, this`kernel, this`accepted
      ensures Valid() && took <= |data| && accepted == old(accepted) + data[..took]
      ensures took < |data| <==> bytes < 0
      ensures old(kernel) == [] ==> kernel == [] && took == 0 && (data != "" ==> bytes < 0 && errno == Eagain)
      ensures Tail(old(kernel), kernel)
      ensures bytes < 0 ==> Failing(errno, old(kernel), kernel, tries)
      ensures GoOnTillLast(old(kernel), kernel) && Failures(old(kernel), kernel) <= tries + 1
    {
      hide Tail, Failing, LastWord, Rest, Next, Retried, GoOn, GoOnTillLast, GoesOnAfter, Failures;
      GoOnNothing(kernel);
      ghost var answers, stream := kernel, accepted;
      var wrote, loops, more: bool := 0, tries, true;
      bytes := 0;
      TailRest(answers);
      OneFailure(answers, answers);
      assert accepted == stream + data[..0];
      while |data| > wrote && more
        invariant Valid() && 0 <= wrote <= |data| && 0 <= loops <= tries && accepted == stream + data[..wrote]
        invariant more && wrote == |data| ==> 0 <= bytes
        invariant !more ==> wrote < |data| && bytes < 0 && Failing(errno, answers, kernel, tries)
        invariant answers == [] ==> kernel == [] && wrote == 0 && (!more ==> errno == Eagain)
        invariant Tail(answers, kernel) && (more ==> |answers| - |kernel| >= tries - loops)
        invariant GoOnTillLast(answers, kernel) && (more ==> GoOn(answers, kernel))
        invariant Failures(answers, kernel) <= tries - loops + if more then 0 else 1
        decreases |data| - wrote, |kernel|, more
      {
        ghost var k := kernel;
        TailStep(answers, k);
        bytes, more := WriteOnce(data[wrote..], loops);
        OnceGoesOn(answers, k, more);
        OneFailure(answers, k);
        if bytes > 0 {
          PrefixJoin(stream, data, wrote, bytes);
          wrote := wrote + bytes;
        } else {
          if !more {
            StopsHere(errno, answers, k, kernel, tries, loops);
          }
          loops := if more then loops - 1 else loops;
        }
      }
      took := wrote;
    }

    /** Why the second loop gives up. */
    ghost predicate Failing(e: Errno, a: seq<Answer>, b: seq<Answer>, tries: int) {
      (!Retried(e) && LastWord(a, b, e)) || (e == OtherError && |a| - |b| > tries)
    }

    lemma StopsHere(e: Errno, a: seq<Answer>, b: seq<Answer>, c: seq<Answer>, tries: int, loops: nat)
      requires Tail(a, b) && c == Rest(b) && |a| - |b| >= tries - loops
      requires (!Retried(e) && Next(b) == Failed(e)) || (e == OtherError && loops == 0 && b != [])
      ensures Failing(e, a, c, tries)
    {
      TailRest(b);
      TailTwice(a, b, c);
    }

    lemma OnceGoesOn(a: seq<Answer>, k: seq<Answer>, more: bool)
      requires Tail(a, k) && GoOn(a, k) && (more ==> k != [] && GoesOnAfter(k[0]))
      ensures GoOnTillLast(a, Rest(k)) && (more ==> GoOn(a, Rest(k)))
    {
      GoOnStep(a, k);
    }

    /** The new data of a blocking flush, once the buffer is empty. */
    method FlushData(data: string, tries: int) returns (flushed: int, took: nat, ghost why: Reason)
      requires Valid() && outPos == 0 && 0 < tries <= FLUSH_LOOPS
      modifies this`errno, this`wroteBytes, this`kernel, this`accepted, this`clsWrite
      ensures Valid() && took <= |data| && Stream() == old(Stream()) + data[..took] && old(accepted) <= accepted
      ensures flushed == if took < |data| then -1 else |data|
      ensures why == (if flushed < 0 then Error(errno) else Sent) && clsWrite == (old(clsWrite) || Marks(why))
      ensures old(kernel) == [] ==>
                kernel == [] && took == 0 && accepted == old(accepted) && (data != "" ==> why == Error(Eagain))
      ensures Tail(old(kernel), kernel)
      ensures flushed < 0 ==> Failing(errno, old(kernel), kernel, tries)
      ensures GoOnTillLast(old(kernel), kernel)
    {
      hide Tail, Failing, GoOnTillLast;
      ghost var taken := accepted;
      assert Stream() == taken;
      var bytes;
      bytes, took := WriteThrough(data, tries);
      assert Stream() == accepted;
      flushed := if bytes < 0 then -1 else |data|;
      why := Sent;
      if bytes < 0 {
        clsWrite := clsWrite || Closes(errno);
        why := Error(errno);
      }
    }

    /** `pkc_flush`: the buffer first, then, if blocking, the new data. `took` tells how much of
        the new data the kernel has, and `why` how it ended. */
    method Flush(data: Option<string>, mode: Mode) returns (flushed: int, took: nat, ghost why: Reason)
      requires Valid()
      modifies this`errno, this`wroteBytes, this`kernel, this`accepted, this`outPos, this`clsWrite, out
      ensures Valid() && took <= (if data.Some? then |data.value| else 0)
      ensures Stream() == old(Stream()) + if data.Some? then data.value[..took] else ""
      ensures old(accepted) <= accepted && outPos <= old(outPos) && Behind() == old(Behind())
      ensures flushed < 0 <==> why != Sent
      ensures mode == Blocking && why == Sent ==> outPos == 0 && (data.Some? ==> took == |data.value|)
      ensures data.Some? && why != Sent && data.value != "" ==> took < |data.value|
      ensures clsWrite == (old(clsWrite) || Marks(why))
      ensures mode == NonBlocking && old(outPos) > 0 ==> why == old(FirstReason())
      ensures mode == Blocking ==> Because(why, sockfd, old(kernel), kernel)
      ensures old(kernel) == [] ==>
                && kernel == [] && outPos == old(outPos) && accepted == old(accepted) && took == 0
                && (0 <= sockfd && mode == Blocking && (old(outPos) > 0 || (data.Some? && data.value != "")) ==>
                      why == Error(Eagain))
      ensures Tail(old(kernel), kernel)
      ensures why.Error? ==> errno == why.errno
      ensures why == TooMany ==> errno == OtherError
      ensures flushed == if why != Sent then -1 else if mode == Blocking && data.Some? then |data.value|
                         else old(outPos) - outPos
      ensures why == Error(OtherError) || why == Error(Eintr) ==> clsWrite
      ensures why != Error(OtherError) && why != Error(Eintr) ==> clsWrite == old(clsWrite)
      ensures mode == Blocking ==> why != Error(Eintr) && why != Error(NoError) && GoOnTillLast(old(kernel), kernel)
      ensures mode == NonBlocking && old(outPos) > 0 && 0 <= sockfd ==>
                if old(kernel) == [] then why == Error(Eagain) && outPos == old(outPos)
                else
                  match old(kernel)[0]
                  case Failed(e) => why == Error(e) && outPos == old(outPos)
                  case Took(n) => why == Sent && outPos == old(outPos) - Min(n, old(outPos))
    {
      hide Stream, Tail, LastWord, Closes, Retried, GoOn, GoOnTillLast;
      flushed, took, why := 0, 0, Sent;
      errno := NoError;
      ghost var stream, answers := Stream(), kernel;
      assert stream == stream + "";
      TailRest(answers);
      GoOnNothing(answers);
      if sockfd < 0 {
        return -1, 0, NoSocket;
      }
      var before := outPos;
      var wrote, loops := FlushBuffer(mode);
      if loops <= 0 {
        errno := OtherError;
        return -1, 0, TooMany;
      }
      flushed := before - outPos;
      if wrote < 0 {
        flushed := -1;
        clsWrite := clsWrite || Closes(errno);
        why := Error(errno);
        MarksAre(why);
        RetriedAre(errno);
      } else if data.Some? && mode == Blocking && outPos == 0 {
        ghost var mid := kernel;
        flushed, took, why := FlushData(data.value, loops);
        TailTwice(answers, mid, kernel);
        GoOnBoth(answers, mid, kernel);
        MarksAre(why);
        RetriedAre(errno);
      }
    }

    /** memcpy(PKC_OUT, data, |data|) */
    method Buffer(data: string)
      requires Valid() && |data| <= Free()
      modifies this`outPos, out
      ensures Valid() && Stream() == old(Stream()) + data && outPos == old(outPos) + |data| && Behind() == old(Behind())
    {
      ghost var head, tail, took := out[..outPos], out[outPos + |data|..], accepted;
      assert tail[IO_BUFFER_SIZE - outPos - |data|] == Behind();
      Print(out, outPos, data);
      Copied(out, outPos, data, head, tail);
      outPos := outPos + |data|;
      assert took + (head + data) == took + head + data;
    }

    lemma Copied(a: array<char>, at: nat, data: string, head: string, tail: string)
      requires at + |data| <= IO_BUFFER_SIZE && a.Length == IO_BUFFER_SIZE + 1
      requires a[..at] == head && a[at..at + |data|] == data && a[at + |data|..] == tail
      ensures a[..at + |data|] == head + data && a[IO_BUFFER_SIZE] == tail[IO_BUFFER_SIZE - at - |data|]
    {
      assert a[..at + |data|] == a[..at] + a[at..at + |data|];
    }

    /** One try of the zero-copy attempt of `pkc_write`. */
    method TryDirect(data: string) returns (wrote: int, more: bool)
      requires Valid()
      modifies this`errno, this`wroteBytes, this`kernel, this`accepted
      ensures Valid() && wrote <= |data| && accepted == old(accepted) + if wrote < 0 then "" else data[..wrote]
      ensures (more || data != "") ==> kernel == Rest(old(kernel))
      ensures data == "" ==> kernel == old(kernel)
      ensures wrote < 0 ==> data != "" && Next(old(kernel)).Failed?
      ensures more ==> wrote < 0 && old(kernel) != [] && GoesOnAfter(old(kernel)[0])
      ensures !more && wrote < 0 ==> Next(old(kernel)) == Failed(Eagain) || Next(old(kernel)) == Failed(OtherError)
      ensures data != "" && Next(old(kernel)).Took? ==> wrote == Min(Next(old(kernel)).count, |data|)
      ensures old(kernel) == [] && data != "" ==> wrote < 0
    {
      wrote := RawWrite(data);
      RetriedAre(errno);
      more := wrote < 0 && Retried(errno);
    }

    /** The zero-copy attempt of `pkc_write`: retried while a signal interrupts it. */
    method WriteDirect(data: string) returns (wrote: int)
      requires Valid() && outPos == 0
      modifies this`errno, this`wroteBytes, this`kernel, this`accepted
      ensures Valid() && wrote <= |data| && (wrote < 0 ==> data != "")
      ensures accepted == old(accepted) + if wrote < 0 then "" else data[..wrote]
      ensures old(kernel) == [] ==> kernel == [] && (data != "" ==> wrote < 0)
      ensures Tail(old(kernel), kernel) && GoOnTillLast(old(kernel), kernel)
      ensures wrote < 0 ==> LastWord(old(kernel), kernel, Eagain) || LastWord(old(kernel), kernel, OtherError)
      ensures data != "" && Next(old(kernel)).Took? ==> wrote == Min(Next(old(kernel)).count, |data|)
    {
      hide Tail, LastWord, GoOn, GoOnTillLast, GoesOnAfter;
      ghost var taken, answers := accepted, kernel;
      TailRest(answers);
      GoOnNothing(answers);
      TailItself(answers);
      OnceGoesOn(answers, answers, answers != [] && GoesOnAfter(answers[0]));
      var more;
      wrote, more := TryDirect(data);
      while more
        invariant Valid() && wrote <= |data| && (wrote < 0 ==> data != "") && (more ==> wrote < 0 && answers != [])
        invariant accepted == taken + if wrote < 0 then "" else data[..wrote]
        invariant answers == [] ==> kernel == [] && (data != "" ==> wrote < 0)
        invariant Tail(answers, kernel) && GoOnTillLast(answers, kernel) && (more ==> GoOn(answers, kernel))
        invariant !more && wrote < 0 ==> LastWord(answers, kernel, Eagain) || LastWord(answers, kernel, OtherError)
        invariant data != "" && Next(answers).Took? ==> wrote == Min(Next(answers).count, |data|) && !more
        decreases |kernel|, more
      {
        ghost var k := kernel;
        TailRest(k);
        OnceGoesOn(answers, k, k != [] && GoesOnAfter(k[0]));
        wrote, more := TryDirect(data);
        TailTwice(answers, k, kernel);
      }
    }

    /** The end of `pkc_write`: what the kernel did not take is buffered if there is room,
        flushed with everything else if there is not. */
    method WriteRest(rest: string) returns (ok: bool, took: nat, ghost why: Reason)
      requires Valid() && rest != ""
      modifies this`errno, this`wroteBytes, this`kernel, this`accepted, this`outPos, this`clsWrite, out
      ensures Valid() && took <= |rest| && Stream() == old(Stream()) + rest[..took] && Behind() == old(Behind())
      ensures (ok <==> took == |rest|) && (ok <==> why == Sent)
      ensures old(accepted) <= accepted && clsWrite == (old(clsWrite) || Marks(why))
      ensures old(kernel) == [] ==>
                kernel == [] && accepted == old(accepted) && (ok <==> |rest| <= old(Free()))
                && (!ok ==> took == 0 && (0 <= sockfd ==> why == Error(Eagain)))
      ensures Tail(old(kernel), kernel) && Because(why, sockfd, old(kernel), kernel)
      ensures why != Error(Eintr) && why != Error(NoError)
    {
      hide Tail, LastWord, Stream, Behind, Marks, GoOnTillLast;
      TailRest(kernel);
      NoReason(kernel);
      ok, why := true, Sent;
      if |rest| <= Free() {
        Buffer(rest);
        took := |rest|;
        assert rest[..took] == rest;
      } else {
        var flushed;
        flushed, took, why := Flush(Some(rest), Blocking);
        ok := 0 <= flushed;
      }
    }

    /** The answer of the kernel's that comes first closes the connection: it is one to what is
        buffered, which goes first. */
    predicate FirstIsHard()
      reads this`outPos, this`sockfd, this`kernel
    {
      outPos > 0 && 0 <= sockfd && kernel != [] && (kernel[0] == Failed(OtherError) || kernel[0] == Failed(Eintr))
    }

    /** What the kernel takes at its first answer. */
    function TakenFirst(length: nat): nat
      reads this`outPos, this`sockfd, this`kernel
    {
      if kernel == [] || kernel[0].Failed? || (outPos > 0 && sockfd < 0) then 0
      else Min(kernel[0].count, if outPos > 0 then outPos else length)
    }

    /** The start of `pkc_write`: what is buffered goes first, and new data only after it. */
    method WriteNow(data: string) returns (wrote: nat)
      requires Valid()
      modifies this`errno, this`wroteBytes, this`kernel, this`accepted, this`outPos, this`clsWrite, out
      ensures Valid() && wrote <= |data| && Stream() == old(Stream()) + data[..wrote] && Behind() == old(Behind())
      ensures old(accepted) <= accepted && clsWrite == (old(clsWrite) || Marks(old(FirstReason())))
      ensures old(kernel) == [] ==> kernel == [] && outPos == old(outPos) && accepted == old(accepted) && wrote == 0
      ensures Tail(old(kernel), kernel) && clsWrite == (old(clsWrite) || old(FirstIsHard()))
      ensures |accepted| >= |old(accepted)| + old(TakenFirst(|data|))
    {
      hide Tail, LastWord, Because, Stream, GoOn, GoOnTillLast, Marks;
      wrote := 0;
      ghost var answers, stream := kernel, Stream();
      TailRest(answers);
      MarksAre(FirstReason());
      Lengths();
      if outPos > 0 {
        var _, _, _ := Flush(None, NonBlocking);
        assert stream + "" == stream;
      }
      Lengths();
      ghost var mid := kernel;
      NoneWritten(Stream(), data);
      if outPos == 0 {
        NothingBuffered();
        var n := WriteDirect(data);
        TailTwice(answers, mid, kernel);
        wrote := if n < 0 then 0 else n;
        NothingBuffered();
      }
    }

    lemma Lengths()
      requires Valid()
      ensures |Stream()| == |accepted| + outPos
    {
    }

    lemma NoneWritten(stream: string, data: string)
      ensures stream + data[..0] == stream
    {
    }

    lemma NothingBuffered()
      requires Valid() && outPos == 0
      ensures Stream() == accepted
    {
    }

    /** `pkc_write`. `took` is how much of the data found its way to the kernel or the buffer, and
        `why` how the blocking flush ended, if there was one. A write that fails marks the
        connection closed exactly if that flush, or the one that goes first, met a closing error. */
    method Write(data: string) returns (r: int, took: nat, ghost why: Reason)
      requires Valid()
      modifies this`errno, this`wroteBytes, this`kernel, this`accepted, this`outPos, this`clsWrite, out
      ensures Valid() && took <= |data| && Stream() == old(Stream()) + data[..took] && Behind() == old(Behind())
      ensures r == (if took < |data| then -1 else |data|) && (r == -1 <==> why != Sent)
      ensures old(accepted) <= accepted
      ensures clsWrite == (old(clsWrite) || Marks(old(FirstReason())) || Marks(why))
      ensures Because(why, sockfd, old(kernel), kernel)
      ensures old(kernel) == [] ==>
                kernel == [] && accepted == old(accepted) && (r == -1 <==> |data| > old(Free()))
                && (r == -1 ==> took == 0 && (0 <= sockfd ==> why == Error(Eagain)))
      ensures Tail(old(kernel), kernel)
      ensures old(FirstIsHard()) || why == Error(OtherError) ==> clsWrite
      ensures !old(FirstIsHard()) && why != Error(OtherError) ==> clsWrite == old(clsWrite)
      ensures why != Error(Eintr) && why != Error(NoError)
      ensures |accepted| >= |old(accepted)| + old(TakenFirst(|data|))
    {
      hide Stream, Tail, LastWord, Because, Marks, FirstIsHard, TakenFirst;
      ghost var stream, answers := Stream(), kernel;
      var wrote := WriteNow(data);
      ghost var mid := kernel;
      took, why := wrote, Sent;
      r := |data|;
      NoReason(answers);
      if wrote < |data| {
        var ok, k, w := WriteRest(data[wrote..]);
        took, why := wrote + k, w;
        MarksAre(why);
        TailTwice(answers, mid, kernel);
        LaterReason(why, sockfd, answers, mid, kernel);
        PrefixJoin(stream, data, wrote, k);
        if !ok {
          r := -1;
        }
      }
    }

    lemma NoReason(answers: seq<Answer>)
      ensures Because(Sent, sockfd, answers, kernel) && !Marks(Sent)
    {
    }

    /** `pkc_report_progress`: tells the other end, over the tunnel, how much was written. */
    method ReportProgress(sid: string, tunnel: PkConn) returns (took: nat)
      requires Valid() && tunnel.Valid() && tunnel != this && tunnel.out != out
      modifies this`wroteBytes, this`reportedKb
      modifies tunnel`errno, tunnel`wroteBytes, tunnel`kernel, tunnel`accepted, tunnel`outPos, tunnel`clsWrite
      modifies tunnel.out
      ensures Valid() && tunnel.Valid() && Stream() == old(Stream()) && accepted == old(accepted)
      ensures reportedKb * 1024 <= |accepted| < (reportedKb + REPORT_INCREMENT) * 1024
      ensures old(wroteBytes) < REPORT_INCREMENT * 1024 ==>
                reportedKb == old(reportedKb) && tunnel.Stream() == old(tunnel.Stream())
      ensures old(wroteBytes) >= REPORT_INCREMENT * 1024 ==>
                && reportedKb == |accepted| / 1024 && took <= |SkbFrame(sid, reportedKb)|
                && tunnel.Stream() == old(tunnel.Stream()) + SkbFrame(sid, reportedKb)[..took]
    {
      hide Because, Marks, Tail;
      took := 0;
      if wroteBytes >= REPORT_INCREMENT * 1024 {
        reportedKb := reportedKb + wroteBytes / 1024;
        wroteBytes := wroteBytes % 1024;
        var _, k, _ := tunnel.Write(SkbFrame(sid, reportedKb));
        took := k;
      }
    }

    /** `pkm_write_chunked`: the header goes into the buffer, the data after it. `whys` are the
        outcomes of the flush that makes room, the one that goes before the data and the one that
        takes it; the connection is marked closed if one of them met a closing error.
        The room is checked for the header alone: when it just fits, its NUL lands behind the
        buffer, and only then. */
    method WriteChunked(sid: string, data: string) returns (r: int, took: nat, ghost whys: (Reason, Reason, Reason))
      requires Valid() && |ReplyHeader(sid, |data|)| <= IO_BUFFER_SIZE
      modifies this`errno, this`wroteBytes, this`kernel, this`accepted, this`outPos, this`clsWrite, out
      ensures Valid() && took <= |Reply(sid, data)| && Stream() == old(Stream()) + Reply(sid, data)[..took]
      ensures r == if took < |Reply(sid, data)| then -1 else |data|
      ensures if whys.0 == Sent then |ReplyHeader(sid, |data|)| <= took else took == 0
      ensures r == -1 <==> Failure(whys) != Sent
      ensures Because(Failure(whys), sockfd, old(kernel), kernel)
      ensures old(accepted) <= accepted
      ensures clsWrite == (old(clsWrite) || Marks(whys.0) || Marks(whys.1) || Marks(whys.2))
      ensures Behind() == if old(Free()) == |ReplyHeader(sid, |data|)|
                             || (whys.0 == Sent && old(Free()) < IO_BUFFER_SIZE == |ReplyHeader(sid, |data|)|)
                          then NUL else old(Behind())
      ensures old(kernel) == [] && 0 <= sockfd && |ReplyHeader(sid, |data|)| <= old(Free()) ==>
                && whys.0 == Sent
                && (r == -1 <==> |Reply(sid, data)| > old(Free()))
                && (r == -1 ==> took == |ReplyHeader(sid, |data|)| && whys.1 == whys.2 == Error(Eagain))
      ensures var hard := {Error(OtherError), Error(Eintr)};
              clsWrite == (old(clsWrite) || whys.0 in hard || whys.1 in hard || whys.2 in hard)
      ensures |ReplyHeader(sid, |data|)| <= old(Free()) && 0 <= sockfd ==>
                whys.0 == Sent && whys.1 == FirstAnswer(old(kernel))
      ensures whys.0 != Error(Eintr) && whys.2 != Error(Eintr)
    {
      hide ReplyHeader, Reply, Because, Tail, Marks, Stream, Behind, GoOnTillLast;
      ReplyLength(sid, data);
      ghost var answers := kernel;
      var overhead := ReplyOverhead(sid, |data|);
      var ok, w := MakeRoom(overhead);
      MarksAre(w);
      if !ok {
        NothingTaken(Stream(), Reply(sid, data));
        return -1, 0, (w, Sent, Sent);
      }
      ghost var mid := kernel;
      ghost var first, why;
      r, took, first, why := WriteBehindHeader(sid, data, overhead);
      LaterReason(why, sockfd, answers, mid, kernel);
      whys := (Sent, first, why);
      MarksAre(first);
      MarksAre(why);
    }

    /** How a flush of one system call ends. */
    function FirstAnswer(kernel: seq<Answer>): Reason {
      if kernel == [] then Error(Eagain) else if kernel[0].Failed? then Error(kernel[0].errno) else Sent
    }

    lemma ReplyLength(sid: string, data: string)
      ensures |Reply(sid, data)| == |ReplyHeader(sid, |data|)| + |data| && 0 < |ReplyHeader(sid, |data|)|
    {
    }

    lemma NothingTaken(stream: string, reply: string)
      ensures stream == stream + reply[..0] && !Marks(Sent)
    {
    }

    /** A blocking flush, if there is no room for so many bytes. */
    method MakeRoom(bytes: nat) returns (ok: bool, ghost why: Reason)
      requires Valid() && bytes <= IO_BUFFER_SIZE
      modifies this`errno, this`wroteBytes, this`kernel, this`accepted, this`outPos, this`clsWrite, out
      ensures Valid() && Stream() == old(Stream()) && old(accepted) <= accepted && Behind() == old(Behind())
      ensures (ok <==> why == Sent) && (ok ==> Free() == if old(Free()) < bytes then IO_BUFFER_SIZE else old(Free()))
      ensures !ok ==> old(Free()) < bytes
      ensures clsWrite == (old(clsWrite) || Marks(why)) && Because(why, sockfd, old(kernel), kernel)
      ensures old(Free()) >= bytes ==> kernel == old(kernel)
      ensures Tail(old(kernel), kernel) && why != Error(Eintr)
    {
      hide Because, Tail, Marks, Stream, Behind, GoOnTillLast;
      ghost var stream := Stream();
      ok, why := true, Sent;
      NothingTaken(stream, "");
      NoReason(kernel);
      TailItself(kernel);
      if Free() < bytes {
        var flushed, _, w := Flush(None, Blocking);
        assert stream + "" == stream;
        ok, why := 0 <= flushed, w;
      }
    }

    lemma TailItself(answers: seq<Answer>)
      ensures Tail(answers, answers)
    {
    }

    /** The rest of `pkm_write_chunked`, when there is room for the header. */
    method WriteBehindHeader(sid: string, data: string, overhead: nat)
      returns (r: int, took: nat, ghost first: Reason, ghost why: Reason)
      requires Valid() && overhead == |ReplyHeader(sid, |data|)| <= Free()
      modifies this`errno, this`wroteBytes, this`kernel, this`accepted, this`outPos, this`clsWrite, out
      ensures Valid() && |ReplyHeader(sid, |data|)| <= took <= |Reply(sid, data)|
      ensures Stream() == old(Stream()) + Reply(sid, data)[..took] && old(accepted) <= accepted
      ensures r == (if took < |Reply(sid, data)| then -1 else |data|) && (r == -1 <==> why != Sent)
      ensures clsWrite == (old(clsWrite) || Marks(first) || Marks(why))
      ensures Because(why, sockfd, old(kernel), kernel) && Tail(old(kernel), kernel)
      ensures Behind() == if old(Free()) == |ReplyHeader(sid, |data|)| then NUL else old(Behind())
      ensures old(kernel) == [] && 0 <= sockfd ==>
                && (r == -1 <==> |Reply(sid, data)| > old(Free()))
                && (r == -1 ==> took == |ReplyHeader(sid, |data|)| && first == why == Error(Eagain))
      ensures why != Error(Eintr) && (0 <= sockfd ==> first == FirstAnswer(old(kernel)))
    {
      hide ReplyHeader, Because, Tail, Marks;
      ghost var header, stream := ReplyHeader(sid, |data|), Stream();
      PutHeader(sid, |data|);
      HeaderNotEmpty(sid, |data|);
      first := FirstReason();
      var k;
      r, k, why := Write(data);
      took := overhead + k;
      assert Reply(sid, data)[..took] == header + data[..k];
      assert stream + header + data[..k] == stream + (header + data[..k]);
    }

    lemma HeaderNotEmpty(sid: string, bytes: nat)
      ensures 0 < |ReplyHeader(sid, bytes)|
    {
    }

    /** `pk_format_reply` into the output buffer: it takes a byte more than it counts. */
    method PutHeader(sid: string, bytes: nat)
      requires Valid() && |ReplyHeader(sid, bytes)| <= Free()
      modifies this`outPos, out
      ensures Valid() && Stream() == old(Stream()) + ReplyHeader(sid, bytes)
      ensures outPos == old(outPos) + |ReplyHeader(sid, bytes)|
      ensures Behind() == if old(Free()) == |ReplyHeader(sid, bytes)| then NUL else old(Behind())
    {
      hide FrameText, Hex;
      ghost var header, was, took := ReplyHeader(sid, bytes), out[..], accepted;
      var n := FormatFrame(out, outPos, "SID: ", sid, "\r\n\r\n", bytes);
      ghost var now := out[..];
      Appended(was, now, outPos, header);
      outPos := outPos + n;
      assert took + (was[..outPos - n] + header) == took + was[..outPos - n] + header;
    }

    /** A text and its NUL were printed at `at`. */
    lemma Appended(was: string, now: string, at: nat, text: string)
      requires |was| == |now| == IO_BUFFER_SIZE + 1 && at + |text| <= IO_BUFFER_SIZE
      requires now[..at] == was[..at] && now[at..at + |text|] == text && now[at + |text|] == NUL
      requires now[at + |text| + 1..] == was[at + |text| + 1..]
      ensures now[..at + |text|] == was[..at] + text
      ensures now[IO_BUFFER_SIZE] == if at + |text| == IO_BUFFER_SIZE then NUL else was[IO_BUFFER_SIZE]
    {
      var n := at + |text|;
      assert now[..n] == now[..at] + now[at..n];
      if n < IO_BUFFER_SIZE {
        assert now[n + 1..][IO_BUFFER_SIZE - n - 1] == was[n + 1..][IO_BUFFER_SIZE - n - 1];
      }
    }
  }

  /** A buffer that is filled up to the length of a header, with a byte behind it that is not
      NUL: writing a chunk changes that byte. */
  method HeaderOverruns(sid: string, data: string, behind: char) returns (free: nat, after: char)
    requires |ReplyHeader(sid, |data|)| <= IO_BUFFER_SIZE && behind != NUL
    ensures free == |ReplyHeader(sid, |data|)| && after == NUL != behind
  {
    hide ReplyHeader;
    var conn := new PkConn(1, []);
    conn.out[IO_BUFFER_SIZE] := behind;
    var overhead := ReplyOverhead(sid, |data|);
    var _, _, _ := conn.Write(seq(IO_BUFFER_SIZE - overhead, _ => 'x'));
    free := conn.Free();
    assert conn.out[IO_BUFFER_SIZE] == behind;
    var _, _, _ := conn.WriteChunked(sid, data);
    after := conn.out[IO_BUFFER_SIZE];
  }
}
