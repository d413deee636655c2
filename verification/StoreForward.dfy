/** phase2.go, SAFManager: bytes queued on board per IMSI, counted up by Enqueue and down by Drain. */
module StoreForward {
  import opened Wrappers

  const TWO_63 := 0x8000_0000_0000_0000
  const TWO_64 := 0x1_0000_0000_0000_0000

  type Int64 = x: int | -TWO_63 <= x < TWO_63 witness 0

  /** Go's int64 addition. */
  function Wrap(x: int): Int64
    requires -TWO_64 <= x < TWO_64
  {
    if x < -TWO_63 then x + TWO_64 else if x >= TWO_63 then x - TWO_64 else x
  }

  /** Times are None until the first enqueue or delivery. */
  datatype Queue = Queue(queued: Int64, lastEnqueue: Option<int>, lastDelivery: Option<int>)

  const NEW_QUEUE := Queue(0, None, None)

  function Clamp(bytes: Int64): Int64 {
    if bytes < 0 then 0 else bytes
  }

  function Enqueued(q: Queue, bytes: Int64, now: int): Queue {
    q.(queued := Wrap(q.queued + Clamp(bytes)), lastEnqueue := Some(now))
  }

  function Drained(q: Queue, bytes: Int64, now: int): Queue {
    q.(queued := Clamp(Wrap(q.queued - Clamp(bytes))), lastDelivery := Some(now))
  }

  datatype Op = Enqueue(imsi: string, bytes: Int64, now: int) | Drain(imsi: string, bytes: Int64, now: int)

  type Queues = map<string, Queue>

  function QueueOf(m: Queues, imsi: string): Queue {
    if imsi in m then m[imsi] else NEW_QUEUE
  }

  /** An empty imsi is an error; draining an IMSI never enqueued does nothing. */
  function Step(m: Queues, op: Op): Queues {
    if op.imsi == "" then m
    else if op.Enqueue? then m[op.imsi := Enqueued(QueueOf(m, op.imsi), op.bytes, op.now)]
    else if op.imsi in m then m[op.imsi := Drained(m[op.imsi], op.bytes, op.now)]
    else m
  }

  class SAFManager {
    var queues: Queues

    constructor ()
      ensures queues == map[]
    {
      queues := map[];
    }

    method EnqueueBytes(imsi: string, bytes: Int64, now: int) returns (ok: bool)
      modifies this
      ensures ok <==> imsi != ""
      ensures queues == Step(old(queues), Enqueue(imsi, bytes, now))
    {
      if imsi == "" {
        return false;
      }
      var add: Int64 := if bytes < 0 then 0 else bytes;
      var q := NEW_QUEUE;
      if imsi in queues {
        q := queues[imsi];
      }
      q := q.(queued := Wrap(q.queued + add));
      q := q.(lastEnqueue := Some(now));
      queues := queues[imsi := q];
      return true;
    }

    method DrainBytes(imsi: string, bytes: Int64, now: int) returns (ok: bool)
      modifies this
      ensures ok <==> imsi != ""
      ensures queues == Step(old(queues), Drain(imsi, bytes, now))
    {
      if imsi == "" {
        return false;
      }
      var take: Int64 := if bytes < 0 then 0 else bytes;
      if imsi !in queues {
        return true;
      }
      var q := queues[imsi];
      q := q.(queued := Wrap(q.queued - take));
      if q.queued < 0 {
        q := q.(queued := 0);
      }
      q := q.(lastDelivery := Some(now));
      queues := queues[imsi := q];
      return true;
    }
  }

  // ── Runs ─────────────────────────────────────────────────────────────────

  function Run(ops: seq<Op>): Queues {
    if ops == [] then map[] else Step(Run(ops[..|ops| - 1]), ops[|ops| - 1])
  }

  function OpsOf(ops: seq<Op>, imsi: string): seq<Op> {
    if ops == [] then []
    else OpsOf(ops[..|ops| - 1], imsi) + (if ops[|ops| - 1].imsi == imsi then [ops[|ops| - 1]] else [])
  }

  lemma StepIsLocal(m: Queues, n: Queues, op: Op, imsi: string)
    requires (imsi in m <==> imsi in n) && QueueOf(m, imsi) == QueueOf(n, imsi)
    ensures op.imsi != imsi ==> (imsi in Step(m, op) <==> imsi in n) && QueueOf(Step(m, op), imsi) == QueueOf(n, imsi)
    ensures op.imsi == imsi ==>
              (imsi in Step(m, op) <==> imsi in Step(n, op)) && QueueOf(Step(m, op), imsi) == QueueOf(Step(n, op), imsi)
  {
    hide Enqueued, Drained;
  }

  /** An IMSI's queue is what its own calls leave, whatever other IMSIs do in between. */
  lemma {:induction false} QueuesAreIndependent(ops: seq<Op>, imsi: string)
    ensures imsi in Run(ops) <==> imsi in Run(OpsOf(ops, imsi))
    ensures QueueOf(Run(ops), imsi) == QueueOf(Run(OpsOf(ops, imsi)), imsi)
  {
    hide Step, QueueOf;
    if ops != [] {
      var n := |ops| - 1;
      QueuesAreIndependent(ops[..n], imsi);
      var before := OpsOf(ops[..n], imsi);
      StepIsLocal(Run(ops[..n]), Run(before), ops[n], imsi);
      assert before + [] == before && (before + [ops[n]])[..|before|] == before;
    }
  }

  /** What an op adds to an IMSI's running sum. */
  function Delta(op: Op, imsi: string): int {
    if op.imsi != imsi || imsi == "" || op.bytes < 0 then 0
    else if op.Enqueue? then op.bytes
    else -op.bytes
  }

  function Net(ops: seq<Op>, imsi: string): int {
    if ops == [] then 0 else Net(ops[..|ops| - 1], imsi) + Delta(ops[|ops| - 1], imsi)
  }

  /** The least of the running sums, the empty one included. */
  function Least(ops: seq<Op>, imsi: string): int {
    if ops == [] then 0
    else
      var before := Least(ops[..|ops| - 1], imsi);
      if Net(ops, imsi) < before then Net(ops, imsi) else before
  }

  lemma {:induction false} LeastMeaning(ops: seq<Op>, imsi: string)
    ensures forall k :: 0 <= k <= |ops| ==> Least(ops, imsi) <= Net(ops[..k], imsi)
    ensures exists k :: 0 <= k <= |ops| && Least(ops, imsi) == Net(ops[..k], imsi)
  {
    assert ops[..|ops|] == ops;
    if ops != [] {
      var n := |ops| - 1;
      var before := ops[..n];
      LeastMeaning(before, imsi);
      forall k | 0 <= k <= |ops|
        ensures Least(ops, imsi) <= Net(ops[..k], imsi)
      {
        assert k <= n ==> before[..k] == ops[..k];
      }
      var k :| 0 <= k <= n && Least(before, imsi) == Net(before[..k], imsi);
      assert ops[..k] == before[..k];
    }
  }

  function Queued(ops: seq<Op>, imsi: string): Int64 {
    QueueOf(Run(ops), imsi).queued
  }

  /** Every enqueue of the IMSI leaves the counter within an int64. */
  ghost predicate Fits(ops: seq<Op>, imsi: string) {
    forall k :: 0 <= k < |ops| && ops[k].Enqueue? && ops[k].imsi == imsi != "" ==>
      Queued(ops[..k], imsi) + Clamp(ops[k].bytes) < TWO_63
  }

  ghost predicate NeverNegative(ops: seq<Op>, imsi: string) {
    forall k :: 0 <= k <= |ops| ==> Queued(ops[..k], imsi) >= 0
  }

  lemma StepQueued(ops: seq<Op>, imsi: string)
    requires ops != [] && Queued(ops[..|ops| - 1], imsi) >= 0
    ensures var was, op := Queued(ops[..|ops| - 1], imsi), ops[|ops| - 1];
            Queued(ops, imsi) ==
              if was + Delta(op, imsi) < 0 then 0
              else if was + Delta(op, imsi) < TWO_63 then was + Delta(op, imsi)
              else was + Delta(op, imsi) - TWO_64
  {
  }

  /** When something was last enqueued for an IMSI. */
  function LastEnqueued(ops: seq<Op>, imsi: string): Option<int> {
    if ops == [] then None
    else
      var n := |ops| - 1;
      if ops[n].Enqueue? && ops[n].imsi == imsi then Some(ops[n].now) else LastEnqueued(ops[..n], imsi)
  }

  lemma {:induction false} LastEnqueuedMeaning(ops: seq<Op>, imsi: string, k: nat)
    requires k < |ops| && ops[k].Enqueue? && ops[k].imsi == imsi
    requires forall j :: k < j < |ops| && ops[j].imsi == imsi ==> ops[j].Drain?
    ensures LastEnqueued(ops, imsi) == Some(ops[k].now)
  {
    if k < |ops| - 1 {
      LastEnqueuedMeaning(ops[..|ops| - 1], imsi, k);
    }
  }

  /** When its queue was last drained; a drain before the first enqueue finds no queue. */
  function LastDrained(ops: seq<Op>, imsi: string): Option<int> {
    if ops == [] then None
    else
      var n := |ops| - 1;
      if ops[n].Drain? && ops[n].imsi == imsi && LastEnqueued(ops[..n], imsi).Some? then Some(ops[n].now)
      else LastDrained(ops[..n], imsi)
  }

  /** There is a queue once something was enqueued, and its times are those of the last enqueue and the last drain. */
  lemma {:induction false} TimesKept(ops: seq<Op>, imsi: string)
    requires imsi != ""
    ensures var q := QueueOf(Run(ops), imsi);
            && (imsi in Run(ops) <==> LastEnqueued(ops, imsi).Some?)
            && q.lastEnqueue == LastEnqueued(ops, imsi) && q.lastDelivery == LastDrained(ops, imsi)
  {
    hide Wrap, Clamp;
    if ops != [] {
      TimesKept(ops[..|ops| - 1], imsi);
    }
  }

  /** The counter is the running sum less its lowest point: what was queued and not yet delivered. */
  lemma {:induction false} CounterIdentity(ops: seq<Op>, imsi: string)
    requires Fits(ops, imsi)
    ensures Queued(ops, imsi) == Net(ops, imsi) - Least(ops, imsi) >= 0
  {
    hide Queued;
    if ops == [] {
      Nothing(imsi);
    } else {
      var n := |ops| - 1;
      assert forall k :: 0 <= k < n ==> ops[..n][..k] == ops[..k];
      CounterIdentity(ops[..n], imsi);
      StepQueued(ops, imsi);
      assert Delta(ops[n], imsi) > 0 ==> ops[n].Enqueue? && ops[n].imsi == imsi != "";
    }
  }

  lemma Nothing(imsi: string)
    ensures Queued([], imsi) == 0
  {
  }

  /** It never goes negative exactly when no enqueue overflows; the first that does leaves it below zero. */
  lemma {:induction false} NeverNegativeExactlyWhen(ops: seq<Op>, imsi: string)
    ensures NeverNegative(ops, imsi) <==> Fits(ops, imsi)
  {
    hide Queued;
    assert ops[..|ops|] == ops;
    if ops == [] {
      Nothing(imsi);
    } else {
      var n := |ops| - 1;
      var before := ops[..n];
      assert forall k :: 0 <= k <= n ==> before[..k] == ops[..k];
      NeverNegativeExactlyWhen(before, imsi);
      assert NeverNegative(ops, imsi) <==> NeverNegative(before, imsi) && Queued(ops, imsi) >= 0;
      assert before[..n] == before;
      assert Fits(ops, imsi) <==> Fits(before, imsi) && (ops[n].Enqueue? && ops[n].imsi == imsi != "" ==>
        Queued(before, imsi) + Clamp(ops[n].bytes) < TWO_63);
      if NeverNegative(before, imsi) {
        StepQueued(ops, imsi);
        assert Delta(ops[n], imsi) > 0 ==> ops[n].Enqueue? && ops[n].imsi == imsi != "";
      }
    }
  }
}
