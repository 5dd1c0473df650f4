/** Who may restore the display: a shared 64-bit generation counter.

A task that shows a temporary screen claims a generation and later restores the previous
screen only if the counter still holds its ticket. Operations of all tasks are atomic, so
any concurrent execution is some sequence of them. */
module DisplayControl {

  const TWO_64: int := 0x1_0000_0000_0000_0000

  type u64 = n: int | 0 <= n < TWO_64 witness 0

  datatype Op = Claim | Invalidate | Restore(ticket: u64)

  /** The counter after an operation, and whether it moved. */
  predicate Bumps(value: u64, op: Op) {
    op.Restore? ==> op.ticket == value
  }

  function Apply(value: u64, op: Op): u64 {
    if Bumps(value, op) then (value + 1) % TWO_64 else value
  }

  class Generation {
    var value: u64

    constructor (start: u64)
      ensures value == start
    {
      value := start;
    }

    /** `fetch_add(1)`; the ticket is the value it leaves. */
    method ClaimDisplayGeneration() returns (ticket: u64)
      modifies this
      ensures value == Apply(old(value), Claim) && ticket == value
    {
      value := (value + 1) % TWO_64;
      ticket := value;
    }

    method InvalidateDisplayRestore()
      modifies this
      ensures value == Apply(old(value), Invalidate)
    {
      var _ := ClaimDisplayGeneration();
    }

    /** `compare_exchange(ticket, ticket + 1)`. */
    method TryClaimDisplayRestore(ticket: u64) returns (ok: bool)
      modifies this
      ensures value == Apply(old(value), Restore(ticket)) && (ok <==> Bumps(old(value), Restore(ticket)))
    {
      ok := value == ticket;
      if ok { value := (ticket + 1) % TWO_64; }
    }
  }

  function Run(value: u64, ops: seq<Op>): u64 {
    if ops == [] then value else Apply(Run(value, ops[..|ops| - 1]), ops[|ops| - 1])
  }

  /** How many operations of a run moved the counter. */
  function BumpCount(value: u64, ops: seq<Op>): nat {
    if ops == [] then 0
    else BumpCount(value, ops[..|ops| - 1])
         + if Bumps(Run(value, ops[..|ops| - 1]), ops[|ops| - 1]) then 1 else 0
  }

  lemma {:induction false} RunCounts(value: u64, ops: seq<Op>)
    ensures Run(value, ops) == (value + BumpCount(value, ops)) % TWO_64
  {
    hide Bumps;
    if ops != [] {
      var head := ops[..|ops| - 1];
      RunCounts(value, head);
      NextOf(value + BumpCount(value, head));
    }
  }

  lemma NextOf(n: nat)
    ensures (n % TWO_64 + 1) % TWO_64 == (n + 1) % TWO_64
  {
    var q, r := n / TWO_64, n % TWO_64;
    assert n + 1 == (if r + 1 == TWO_64 then q + 1 else q) * TWO_64 + (r + 1) % TWO_64;
  }

  /** Some claim, invalidation or successful restore took place. */
  predicate Touched(value: u64, ops: seq<Op>) {
    exists i :: 0 <= i < |ops| && Touches(Run(value, ops[..i]), ops[i])
  }

  predicate Touches(value: u64, op: Op) {
    match op
    case Claim => true
    case Invalidate => true
    case Restore(ticket) => ticket == value
  }

  lemma TouchesIsBumps(value: u64, op: Op)
    ensures Touches(value, op) <==> Bumps(value, op)
  {}

  lemma {:induction false} UntouchedIffNoBump(value: u64, ops: seq<Op>)
    ensures Touched(value, ops) <==> BumpCount(value, ops) > 0
  {
    hide Bumps, Run, Touches;
    if ops != [] {
      var n := |ops| - 1;
      var head := ops[..n];
      UntouchedIffNoBump(value, head);
      forall i | 0 <= i < n ensures Touches(Run(value, ops[..i]), ops[i]) <==> Touches(Run(value, head[..i]), head[i]) {
        assert head[..i] == ops[..i];
      }
      TouchesIsBumps(Run(value, head), ops[n]);
    }
  }

  /** A restore with a ticket succeeds exactly when the counter has come round to it. */
  lemma RestoreIffCameRound(ticket: u64, ops: seq<Op>)
    ensures Bumps(Run(ticket, ops), Restore(ticket)) <==> BumpCount(ticket, ops) % TWO_64 == 0
  {
    hide Run, BumpCount;
    RunCounts(ticket, ops);
    CameRound(ticket, BumpCount(ticket, ops));
  }

  lemma CameRound(v: u64, n: nat)
    ensures (v + n) % TWO_64 == v <==> n % TWO_64 == 0
  {}

  /** With fewer than 2^64 operations since a ticket was issued, restoring succeeds exactly when no
      other claim, invalidation or restore happened since. */
  lemma RestoreIsExclusive(ticket: u64, ops: seq<Op>)
    requires BumpCount(ticket, ops) < TWO_64
    ensures Bumps(Run(ticket, ops), Restore(ticket)) <==> !Touched(ticket, ops)
  {
    hide Run, BumpCount, Touched, Bumps;
    RestoreIffCameRound(ticket, ops);
    UntouchedIffNoBump(ticket, ops);
  }

  lemma {:induction false} BumpCountSplit(value: u64, a: seq<Op>, b: seq<Op>)
    ensures Run(value, a + b) == Run(Run(value, a), b)
    ensures BumpCount(value, a + b) == BumpCount(value, a) + BumpCount(Run(value, a), b)
  {
    if b == [] {
      assert a + b == a;
    } else {
      var n := |b| - 1;
      BumpCountSplit(value, a, b[..n]);
      assert (a + b)[..|a + b| - 1] == a + b[..n];
    }
  }

  /** A ticket restores at most once. */
  lemma TicketRestoresOnce(ticket: u64, before: seq<Op>, between: seq<Op>)
    requires BumpCount(ticket, before + [Restore(ticket)] + between) < TWO_64
    requires Bumps(Run(ticket, before), Restore(ticket))
    ensures !Bumps(Run(ticket, before + [Restore(ticket)] + between), Restore(ticket))
  {
    var used := before + [Restore(ticket)];
    assert used[..|used| - 1] == before;
    BumpCountSplit(ticket, used, between);
    RestoreIffCameRound(ticket, used + between);
  }

  /** Two claims fewer than 2^64 bumps apart get different tickets. */
  lemma TicketsAreUnique(ticket: u64, ops: seq<Op>)
    requires BumpCount(ticket, ops) + 1 < TWO_64
    ensures Run(ticket, ops + [Claim]) != ticket
  {
    assert (ops + [Claim])[..|ops|] == ops;
    RunCounts(ticket, ops + [Claim]);
  }
}
