/**
 The benchmark driver: it starts one worker per connection, collects exactly
 one tally from each over a channel, adds them up and reports requests and
 responses per second.

 Threads, the channel and the sleep are not modelled as such. Each worker's
 tally depends only on its own trace of observations (see module Worker), so
 the workers are run one after another, and the channel delivers their
 tallies in that order; lemma `Counts.SumReorder` covers every other
 arrival order.
 */
module Driver {
  import opened Counts
  import opened Worker

  /** The tally each worker sends, one per trace, in spawn order. */
  function Finals(traces: seq<seq<Round>>, length: nat): seq<Count> {
    seq(|traces|, w requires 0 <= w < |traces| => Final(traces[w], length).count)
  }

  /** The fan-in loop: receives `number` tallies from the channel, which
      holds them in arrival order, and adds them into a running total. */
  method Collect(inbox: seq<Count>, number: nat) returns (sum: Count)
    requires number <= |inbox|
    ensures sum == Sum(inbox[..number])
  {
    sum := Count(0, 0);
    for k := 0 to number
      invariant sum == Sum(inbox[..k])
    {
      var c := inbox[k];
      assert inbox[..k + 1][..k] == inbox[..k];
      sum := sum.(inb := sum.inb + c.inb);
      sum := sum.(outb := sum.outb + c.outb);
    }
  }

  /** Requests or responses per second, as the report's integer division. */
  function PerSecond(total: nat, duration: nat): (rate: nat)
    requires duration > 0
    ensures rate * duration <= total < (rate + 1) * duration
  {
    total / duration
  }

  /** Fewer responses than requests never yields a higher response rate. */
  lemma PerSecondMonotonic(lo: nat, hi: nat, duration: nat)
    requires lo <= hi && duration > 0
    ensures PerSecond(lo, duration) <= PerSecond(hi, duration)
  {
    var a, b := PerSecond(lo, duration), PerSecond(hi, duration);
    if a > b {
      MultiplyMonotonic(b + 1, a, duration);
    }
  }

  /** The nonlinear step of `PerSecondMonotonic`: multiplying both sides by
      the same duration keeps their order. The solver does not find this
      step reliably on its own. */
  lemma MultiplyMonotonic(x: nat, y: nat, d: nat)
    requires x <= y
    ensures x * d <= y * d
  {
    assert y * d == x * d + (y - x) * d;
  }

  /** One benchmark run over `number` connections, each seeing its own trace,
      ending with the totals and the two rates the report prints. The source
      divides by `duration`, which panics for a duration of 0; a length of 0
      panics in every worker, so it is harmless only when no worker runs. */
  method Benchmark(length: nat, number: nat, duration: nat, traces: seq<seq<Round>>)
    returns (total: Count, requestRate: nat, responseRate: nat)
    requires number > 0 ==> length >= 1
    requires duration > 0
    requires |traces| == number
    ensures total == Sum(Finals(traces, length))
    ensures total.inb <= total.outb <= total.inb + number
    ensures number == 0 ==> total == Count(0, 0)
    ensures requestRate == PerSecond(total.outb, duration)
    ensures responseRate == PerSecond(total.inb, duration)
    ensures responseRate <= requestRate
  {
    var inbox: seq<Count> := [];
    for w := 0 to number
      invariant inbox == Finals(traces[..w], length)
      invariant forall k :: 0 <= k < w ==> Balanced(inbox[k])
    {
      var c := RunWorker(length, traces[w]);
      inbox := inbox + [c];
    }
    assert traces[..number] == traces;
    assert inbox[..number] == inbox;
    total := Collect(inbox, number);
    SumBalanced(inbox);
    requestRate := PerSecond(total.outb, duration);
    responseRate := PerSecond(total.inb, duration);
    PerSecondMonotonic(total.inb, total.outb, duration);
  }

  /** Whatever order the tallies arrive in, the driver's total is the sum of
      the workers' final tallies, and responses trail requests by at most one
      per connection. */
  lemma ArrivalOrder(traces: seq<seq<Round>>, length: nat, inbox: seq<Count>)
    requires multiset(inbox) == multiset(Finals(traces, length))
    ensures Sum(inbox) == Sum(Finals(traces, length))
    ensures Sum(inbox).inb <= Sum(inbox).outb <= Sum(inbox).inb + |traces|
  {
    var sent := Finals(traces, length);
    SumReorder(inbox, sent);
    SumBalanced(sent);
  }
}
