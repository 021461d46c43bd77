/**
 One benchmark connection: the worker builds its fixed request message, then
 alternates writing it and reading the echo until the stop flag is seen, a
 write fails, or a read fails or comes back short.

 The network and the shared stop flag are not modelled as such. A worker sees
 them only through what its loads and calls return, so its environment is a
 trace of `Round`s: round `i` holds what iteration `i` would observe. Only
 runs in which every `write_all` and `read` returns are modelled: the driver
 raises the flag once the run's duration has elapsed, a worker whose calls
 keep returning sees it at its next load, so its trace is finite and the
 first flag load after the last round reads true.
 */
module Worker {
  import opened Counts

  /** A byte, as the source's `u8`. */
  newtype u8 = x: int | 0 <= x < 256

  /** The line terminator `b'\n'` that ends every request. */
  const NEWLINE: u8 := 10

  /** The request a worker sends: `length - 1` zero bytes, then the terminator. */
  function Message(length: nat): (m: seq<u8>)
    requires length >= 1
    ensures |m| == length
    ensures m[length - 1] == NEWLINE
    ensures forall i :: 0 <= i < length - 1 ==> m[i] == 0
    ensures length == 1 ==> m == [NEWLINE]
  {
    seq(length - 1, _ => 0) + [NEWLINE]
  }

  /** Allocates the zeroed outbound buffer and sets its last byte to the
      terminator. The source indexes `length - 1`, which panics for a length of 0. */
  method NewOutBuffer(length: nat) returns (buf: array<u8>)
    requires length >= 1
    ensures fresh(buf)
    ensures buf[..] == Message(length)
  {
    buf := new u8[length](_ => 0);
    buf[length - 1] := NEWLINE;
  }

  /** What `write_all` returned. */
  datatype WriteOutcome = Written | WriteFailed

  /** What `read` returned: an I/O error, or the number of bytes read. */
  datatype ReadOutcome = ReadFailed | ReadBytes(n: nat)

  /** What one iteration observes, in program order: the flag before the
      write, the write, the flag before the read, the read. An iteration that
      exits early leaves the later fields unused. */
  datatype Round = Round(stopBeforeWrite: bool, write: WriteOutcome, stopBeforeRead: bool, read: ReadOutcome)

  /** The four ways out of the loop, in the order they are checked. */
  datatype Exit = StoppedBeforeWrite | WriteError | StoppedBeforeRead | ReadError {
    /** Whether the loop left after its last write succeeded (and was counted). */
    predicate AfterWrite() {
      this == StoppedBeforeRead || this == ReadError
    }
  }

  /** How one iteration ends: it loops back, or it leaves the loop. */
  datatype RoundEnd = Completed | Exits(exit: Exit)

  /** A read is accepted unless it failed, returned 0 bytes, or returned a
      count other than `length`. */
  predicate FullRead(r: ReadOutcome, length: nat)
    ensures FullRead(r, length) <==> length > 0 && r == ReadBytes(length)
  {
    r.ReadBytes? && !(r.n == 0 || r.n != length)
  }

  /** Which check, if any, ends an iteration: each exit is taken exactly when
      the checks before it pass and its own check fails. */
  function EndOf(r: Round, length: nat): (e: RoundEnd)
    ensures e == Exits(StoppedBeforeWrite) <==> r.stopBeforeWrite
    ensures e == Exits(WriteError) <==> !r.stopBeforeWrite && r.write.WriteFailed?
    ensures e == Exits(StoppedBeforeRead) <==>
      !r.stopBeforeWrite && r.write.Written? && r.stopBeforeRead
    ensures e == Exits(ReadError) <==>
      !r.stopBeforeWrite && r.write.Written? && !r.stopBeforeRead && !(length > 0 && r.read == ReadBytes(length))
    ensures e == Completed <==>
      !r.stopBeforeWrite && r.write.Written? && !r.stopBeforeRead && length > 0 && r.read == ReadBytes(length)
  {
    if r.stopBeforeWrite then Exits(StoppedBeforeWrite)
    else if r.write == WriteFailed then Exits(WriteError)
    else if r.stopBeforeRead then Exits(StoppedBeforeRead)
    else if !FullRead(r.read, length) then Exits(ReadError)
    else Completed
  }

  /** A round that runs to completion: flag clear twice, the write succeeds
      and the read returns exactly `length` bytes. */
  predicate Completes(r: Round, length: nat)
    ensures Completes(r, length) <==>
      !r.stopBeforeWrite && r.write == Written && !r.stopBeforeRead && r.read == ReadBytes(length) && length > 0
  {
    EndOf(r, length) == Completed
  }

  /** The number of leading rounds of `rounds` that complete: the index of
      the round in which the loop exits. */
  function CompletedRounds(rounds: seq<Round>, length: nat): (k: nat)
    ensures k <= |rounds|
    ensures forall j :: 0 <= j < k ==> Completes(rounds[j], length)
    ensures k < |rounds| ==> !Completes(rounds[k], length)
    decreases |rounds|
  {
    if rounds == [] || !Completes(rounds[0], length) then 0
    else 1 + CompletedRounds(rounds[1..], length)
  }

  /** The loop's final tally and the way it left. */
  datatype Outcome = Outcome(count: Count, exit: Exit)

  /** What the loop ends with on `rounds`: one request and one response per
      completed round, plus the request of the exit round when its write
      succeeded; past the trace the flag reads true. */
  function Final(rounds: seq<Round>, length: nat): (o: Outcome)
    ensures Balanced(o.count)
    ensures o.count.outb == o.count.inb + 1 <==> o.exit.AfterWrite()
    ensures o.count.inb == CompletedRounds(rounds, length) <= |rounds|
  {
    var k := CompletedRounds(rounds, length);
    var exit := if k == |rounds| then StoppedBeforeWrite else EndOf(rounds[k], length).exit;
    Outcome(Count(k, if exit.AfterWrite() then k + 1 else k), exit)
  }

  /** The worker thread: buffer setup and the write/read loop. The returned
      tally is the one sent to the driver, whichever way the loop ends. */
  method RunWorker(length: nat, rounds: seq<Round>) returns (sum: Count)
    requires length >= 1
    ensures sum == Final(rounds, length).count
    ensures Balanced(sum)
  {
    sum := Count(0, 0);
    var outBuf := NewOutBuffer(length);
    var i := 0;
    while true
      invariant i <= |rounds|
      invariant sum == Count(i, i)
      invariant forall j :: 0 <= j < i ==> Completes(rounds[j], length)
      decreases |rounds| - i
    {
      var stop := i == |rounds| || rounds[i].stopBeforeWrite;
      if stop {
        break;
      }
      match rounds[i].write {
        case WriteFailed =>
          break;
        case Written =>
          sum := sum.(outb := sum.outb + 1);
      }
      if rounds[i].stopBeforeRead {
        break;
      }
      match rounds[i].read {
        case ReadFailed =>
          break;
        case ReadBytes(m) =>
          if m == 0 || m != length {
            break;
          }
      }
      sum := sum.(inb := sum.inb + 1);
      i := i + 1;
    }
  }

  /** Which check ended the loop, in terms of the exit round `k`: the first
      round that does not complete, or the flag load just past the trace. */
  lemma ExitReason(rounds: seq<Round>, length: nat)
    requires length >= 1
    ensures var k, e := CompletedRounds(rounds, length), Final(rounds, length).exit;
      && (e == StoppedBeforeWrite <==> k == |rounds| || rounds[k].stopBeforeWrite)
      && (e == WriteError <==>
            k < |rounds| && !rounds[k].stopBeforeWrite && rounds[k].write == WriteFailed)
      && (e == StoppedBeforeRead <==>
            k < |rounds| && !rounds[k].stopBeforeWrite && rounds[k].write == Written && rounds[k].stopBeforeRead)
      && (e == ReadError <==>
            k < |rounds| && !rounds[k].stopBeforeWrite && rounds[k].write == Written && !rounds[k].stopBeforeRead
            && rounds[k].read != ReadBytes(length))
  {
  }

  /** Rounds after the one in which the loop exits are never looked at. */
  lemma FinalIgnoresLaterRounds(rounds: seq<Round>, more: seq<Round>, length: nat)
    requires CompletedRounds(rounds, length) < |rounds|
    ensures Final(rounds + more, length) == Final(rounds, length)
  {
    var k := CompletedRounds(rounds, length);
    var k' := CompletedRounds(rounds + more, length);
    assert (rounds + more)[k] == rounds[k];
  }

  /** Against a peer that echoes every request in full, the loop can only
      end on the stop flag: before a write, with requests equal to responses,
      or between a write and its read, with one request still unanswered.
      If the flag is never seen between a write and its read, requests and
      responses are equal. */
  lemma PerfectEcho(rounds: seq<Round>, length: nat)
    requires length >= 1
    requires forall j :: 0 <= j < |rounds| ==> rounds[j].write == Written && rounds[j].read == ReadBytes(length)
    ensures Final(rounds, length).exit == StoppedBeforeWrite || Final(rounds, length).exit == StoppedBeforeRead
    ensures Final(rounds, length).count.outb == Final(rounds, length).count.inb <==>
      Final(rounds, length).exit == StoppedBeforeWrite
    ensures (forall j :: 0 <= j < |rounds| ==> !rounds[j].stopBeforeRead) ==>
      Final(rounds, length).count.outb == Final(rounds, length).count.inb
  {
  }

  /** Against a peer that echoes one byte short, the first read ends the
      loop with one request and no response. */
  lemma ShortEcho(rounds: seq<Round>, length: nat)
    requires length >= 1 && rounds != []
    requires rounds[0] == Round(false, Written, false, ReadBytes(length - 1))
    ensures Final(rounds, length) == Outcome(Count(0, 1), ReadError)
  {
  }

  /** Against a peer that closes at once, the worker reports no response,
      whether the read then returns 0 bytes or fails with a reset; it still
      counts the first request if that write went through. */
  lemma ClosedPeer(rounds: seq<Round>, length: nat)
    requires length >= 1 && rounds != []
    requires !rounds[0].stopBeforeWrite && !rounds[0].stopBeforeRead
    requires rounds[0].write == WriteFailed || rounds[0].read == ReadBytes(0) || rounds[0].read == ReadFailed
    ensures Final(rounds, length).count == if rounds[0].write == Written then Count(0, 1) else Count(0, 0)
  {
  }
}
