/**
 The per-connection tally a worker reports when it stops, and the running
 total the driver builds from those tallies.
 */
module Counts {

  /** A worker's tally: `outb` counts requests written, `inb` responses read.
      The source stores both as `u64`; here they are unbounded. */
  datatype Count = Count(inb: nat, outb: nat) {

    /** Field-wise addition: the step by which `Sum` specifies the driver's
        running total. */
    function Plus(other: Count): Count {
      Count(inb + other.inb, outb + other.outb)
    }
  }

  /** A tally in which every response matches an earlier request and at most
      one request is still waiting for its response. */
  predicate Balanced(c: Count) {
    c.inb <= c.outb <= c.inb + 1
  }

  /** The total of `cs`, added up from the first count to the last. */
  function Sum(cs: seq<Count>): Count
    decreases |cs|
  {
    if cs == [] then Count(0, 0) else Sum(cs[..|cs| - 1]).Plus(cs[|cs| - 1])
  }

  /** Summing two runs of counts one after the other adds their totals. */
  lemma {:induction false} SumAppend(a: seq<Count>, b: seq<Count>)
    ensures Sum(a + b) == Sum(a).Plus(Sum(b))
    decreases |b|
  {
    if b == [] {
      assert a + b == a;
    } else {
      var b', x := b[..|b| - 1], b[|b| - 1];
      assert (a + b)[..|a + b| - 1] == a + b';
      SumAppend(a, b');
    }
  }

  /** Taking one count out of a sequence takes exactly that count off the total. */
  lemma {:induction false} SumRemove(b: seq<Count>, i: nat)
    requires i < |b|
    ensures Sum(b) == Sum(b[..i] + b[i + 1..]).Plus(b[i])
  {
    var front, x, back := b[..i], b[i], b[i + 1..];
    var fx := front + [x];
    assert b == fx + back;
    assert Sum(fx) == Sum(front).Plus(x) by { assert fx[..|fx| - 1] == front; }
    SumAppend(fx, back);
    SumAppend(front, back);
  }

  /** The total does not depend on the order in which the counts arrive. */
  lemma {:induction false} SumReorder(a: seq<Count>, b: seq<Count>)
    requires multiset(a) == multiset(b)
    ensures Sum(a) == Sum(b)
    decreases |a|
  {
    if a == [] {
      assert |b| == |multiset(b)| == 0;
    } else {
      var a', x := a[..|a| - 1], a[|a| - 1];
      assert x in multiset(b) by { assert a == a' + [x]; }
      var i :| 0 <= i < |b| && b[i] == x;
      var b' := b[..i] + b[i + 1..];
      assert multiset(a') == multiset(b') by {
        assert a == a' + [x];
        assert b == b[..i] + [x] + b[i + 1..];
        assert multiset(a') == multiset(a) - multiset{x};
        assert multiset(b') == multiset(b) - multiset{x};
      }
      SumReorder(a', b');
      SumRemove(b, i);
    }
  }

  /** When every tally is balanced, the total has no more responses than
      requests, and at most one outstanding request per tally. */
  lemma {:induction false} SumBalanced(cs: seq<Count>)
    requires forall k :: 0 <= k < |cs| ==> Balanced(cs[k])
    ensures Sum(cs).inb <= Sum(cs).outb <= Sum(cs).inb + |cs|
    decreases |cs|
  {
    if cs != [] {
      SumBalanced(cs[..|cs| - 1]);
    }
  }
}
