# Echo benchmark client — Dafny model

rust_echo_bench measures the throughput of a TCP echo server. It opens
`number` connections. Each connection has its own worker thread. A worker
sends a fixed request of `length` bytes that ends in `'\n'` and then reads
the echo back. It repeats this until a shared stop flag is raised or an I/O
call fails. The driver sleeps for `duration` seconds and raises the flag.
It then receives exactly one `Count { inb, outb }` from each worker over a
channel, adds them up, and prints requests and responses per second.

The model has three modules:

- `Counts` (counts.dfy): the `Count` record and the recursive `Sum` that
  specifies the driver's total. It proves that the total splits over
  concatenation, does not depend on arrival order, and stays balanced.
- `Worker` (worker.dfy): the outbound buffer and the worker loop. The loop
  is a `while` method over a trace of `Round`s, proved against the
  declarative specification `Final`. Each `Round` records what one
  iteration observes: the flag before the write, the `write_all` result,
  the flag before the read, and the `read` result. The model covers runs in
  which every `write_all` and `read` returns. The driver raises the flag
  when the duration ends, and such a worker sees it at its next load, so
  its trace is finite: the first flag load after the last round reads true.
- `Driver` (driver.dfy): the fan-in loop `Collect`, the rate arithmetic
  `PerSecond`, and `Benchmark`. `Benchmark` composes them with one
  `RunWorker` per connection.

Two points where the code decides differently from what one might expect:

- A peer that closes the connection right after accepting it does not
  always give `Count{0, 0}`. The first `write_all` usually still succeeds,
  and the following read returns 0 bytes or fails with a reset, so the
  worker reports
  `Count{outb: 1, inb: 0}`. `{0, 0}` results only when that first write
  fails (`Worker.ClosedPeer`). The model follows the code.
- The `None` branch of `control.upgrade()` (src/main.rs:143-146) cannot be
  taken. `main` keeps its own `stop` handle alive until the end, so the flag
  is always raised, even with 0 connections. This branch belongs to the
  thread plumbing, which the model leaves out.

## Model

| member | source | states |
|---|---|---|
| `Worker.Message` | src/main.rs:104-105 | the request has exactly `length` bytes: `length - 1` zero bytes, then `'\n'` last; for `length == 1` it is the terminator alone |
| `Worker.NewOutBuffer` | src/main.rs:104-105 | a fresh buffer whose contents are the request; a length of at least 1 is needed for the `length - 1` index |
| `Worker.FullRead` | src/main.rs:126-134 | a read is accepted exactly when it returned `length` bytes and `length > 0`; the `m == 0` test is subsumed by `m != length` |
| `Worker.EndOf` | src/main.rs:110-134 | each way out of an iteration is taken exactly when the checks before it pass and its own fails: flag before write, write error, flag before read, then a failed, empty or short read; the iteration loops back only when all pass |
| `Worker.Completes` | src/main.rs:109-136 | an iteration loops back exactly when both flag loads read false, the write succeeds and the read returns `length` bytes |
| `Worker.CompletedRounds` | src/main.rs:109-136 | the index of the exit iteration: every earlier round completes, and the round at that index (if in the trace) does not |
| `Worker.Final` | src/main.rs:109-137 | the final tally is balanced (`inb <= outb <= inb + 1`); `outb == inb + 1` exactly when the loop left after a counted write (stop before read, or a failed/short read); `inb` is the number of completed rounds |
| `Worker.RunWorker` | src/main.rs:103-137 | the loop, with `inb == outb` at every loop head, ends on every finite trace and returns exactly the tally `Final` specifies, which is balanced |
| `Worker.ExitReason` | src/main.rs:110-134 | each of the four exits (stop before write, write error, stop before read, read error or short read) happens exactly when its check is the first to fail in the exit round |
| `Worker.FinalIgnoresLaterRounds` | src/main.rs:109-137 | once a round ends the loop, nothing after it affects the reported tally or exit |
| `Worker.PerfectEcho` | src/main.rs:109-136 | against a peer that echoes every request in full, the loop ends only on the stop flag; requests equal responses exactly when the flag was seen before a write, and are one ahead when it was seen between a write and its read; with the flag never seen between write and read they are equal |
| `Worker.ShortEcho` | src/main.rs:126-133 | a peer that echoes one byte short gives `Count{outb: 1, inb: 0}` and a read error on the first iteration |
| `Worker.ClosedPeer` | src/main.rs:114-133 | a peer that closes at once (the read returns 0 bytes or fails) yields no response; one request is counted only if the first write succeeded |
| `Counts.SumAppend` | src/main.rs:148-153 | the total of two runs of tallies is the sum of their totals |
| `Counts.SumReorder` | src/main.rs:149-153 | any reordering of the received tallies has the same total |
| `Counts.SumBalanced` | src/main.rs:148-153 | if every tally is balanced, the total has `inb <= outb <= inb + n` for `n` tallies |
| `Driver.Collect` | src/main.rs:148-153 | after receiving `number` tallies the running total equals `Sum` of them (zero when `number == 0`) |
| `Driver.PerSecond` | src/main.rs:161-163 | the rate is the floor of `total / duration`: `rate * duration <= total < (rate + 1) * duration`, defined only for `duration > 0` |
| `Driver.PerSecondMonotonic` | src/main.rs:161-163 | with no more responses than requests, the response rate never exceeds the request rate |
| `Driver.Benchmark` | src/main.rs:96-163 | a run sums exactly one final tally per connection; the totals are 0 for 0 connections; responses trail requests by at most `number`; both rates are `PerSecond` of the totals and the response rate is at most the request rate; the length need only be positive when a worker runs |
| `Driver.ArrivalOrder` | src/main.rs:149-153 | for any arrival order of the workers' tallies, the driver's total is the sum of each worker's final tally and stays within `number` of balance |

## Left out

- TCP `connect`, `write_all` and `read` (src/main.rs:107, 114, 126) are not modelled as calls. A worker sees them only through the outcomes in its trace. The panic from `unwrap` when the connection fails is not modelled.
- Threads, the `mpsc` channel, the `Arc<AtomicBool>` flag with its `Weak` handle, and `thread::sleep` (src/main.rs:91-102, 137, 141-146, 150) are not modelled. Workers run one after another in `Driver.Benchmark`, and the channel delivers their tallies in that order. `Driver.ArrivalOrder` covers every other order. The flag exists only as the values each worker's loads return.
- The inbound buffer (src/main.rs:106) is left out: the worker never inspects the bytes it reads, so the model keeps only their count. A trace may also report more than `length` bytes, which `read` never does. The model treats that as a short read.
- Command-line parsing with its defaults (512, 60, 50, `127.0.0.1:12345`), the usage text and every `println!` (src/main.rs:9-20, 28-89, 116, 130, 145, 154-166) are left out.
- Worker.RunWorker: the counters are unbounded naturals. The source's `u64` overflow is not modelled, since it would take more than 2^64 round trips.
- Driver.Benchmark: the totals are unbounded naturals. The `u64` overflow of `sum.inb += c.inb` is not modelled for the same reason.
- Driver.Benchmark: requires `duration > 0`, and `length >= 1` when `number > 0`. In the source, a length of 0 makes each worker panic at `out_buf[length - 1]`, and the driver then waits forever, because `main` still holds a sender. With no workers a length of 0 is harmless, and the model allows it. A duration of 0 makes the rate division panic after the run. These panics are not modelled.
- Blocking I/O that never returns is not modelled. A worker blocked in `write_all` or `read` (src/main.rs:114, 126) never loads the flag again if the peer stops reading or never answers. That worker never sends its `Count`, and `rx.recv()` (src/main.rs:150) then blocks forever, because `main` holds `tx`. A connect failure (src/main.rs:107) panics the worker and leads to the same hang. The model has only finite traces, so `Driver.Benchmark` always returns.
