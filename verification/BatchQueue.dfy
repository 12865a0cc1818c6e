/** The queue of documents waiting for an anchor (js/core/anchor.js, createBatchQueue), and its runs. */
module BatchQueue {
  import opened Anchor
  import opened Json
  import opened Numbers
  import opened Wrappers

  // ----- The queue as a value -----

  datatype Queue = Queue(pending: seq<Document>, oldest: Option<int>)

  datatype Operation = Add(document: Document, now: int) | Drain(count: int, now: int)

  datatype AddResult = Full | Duplicate | Queued(pending: nat)

  function AddResultFor(q: Queue, document: Document): AddResult {
    if |q.pending| >= MAX_BATCH_SIZE then Full
    else if HasFile(q.pending, document.fileHash) then Duplicate
    else Queued(|q.pending| + 1)
  }

  function Added(q: Queue, document: Document, now: int): Queue {
    if AddResultFor(q, document).Queued? then
      Queue(q.pending + [document], if q.oldest.None? then Some(now) else q.oldest)
    else q
  }

  /** Where `slice` cuts a list of `n`: a negative position counts from the end. */
  function Cut(n: nat, position: int): (k: nat)
    ensures k <= n
  {
    if position >= 0 then Min(position, n) else if n + position >= 0 then n + position else 0
  }

  function Taken(q: Queue, count: int): seq<Document> {
    q.pending[..Cut(|q.pending|, count)]
  }

  function Drained(q: Queue, count: int, now: int): Queue {
    var left := q.pending[|Taken(q, count)|..];
    Queue(left, if left == [] then None else Some(now))
  }

  ghost predicate Sound(q: Queue) {
    |q.pending| <= MAX_BATCH_SIZE && DistinctFiles(q.pending) && (q.oldest.None? <==> q.pending == [])
  }

  lemma AddKeepsSound(q: Queue, document: Document, now: int)
    requires Sound(q)
    ensures Sound(Added(q, document, now))
  {
  }

  lemma DrainKeepsSound(q: Queue, count: int, now: int)
    requires Sound(q)
    ensures Sound(Drained(q, count, now))
  {
    var n := |Taken(q, count)|;
    assert forall i :: 0 <= i < |q.pending| - n ==> q.pending[n..][i] == q.pending[i + n];
  }

  // ----- The object -----

  class Pending {
    const maxSize: nat
    const maxAgeMs: int
    var pending: seq<Document>
    var oldest: Option<int>
    var queued: set<Json>

    ghost predicate Valid()
      reads this
    {
      SeenExactly(queued, pending) && Sound(State())
    }

    ghost function State(): Queue
      reads this
    {
      Queue(pending, oldest)
    }

    constructor (maxSize: nat := 1000, maxAgeMs: int := 3600000)
      ensures Valid() && State() == Queue([], None)
      ensures this.maxSize == maxSize && this.maxAgeMs == maxAgeMs
    {
      this.maxSize, this.maxAgeMs := maxSize, maxAgeMs;
      pending, oldest, queued := [], None, {};
    }

    method Add(document: Document, now: int) returns (r: AddResult)
      requires Valid()
      modifies this
      ensures Valid() && State() == Added(old(State()), document, now)
      ensures r == AddResultFor(old(State()), document)
    {
      AddKeepsSound(State(), document, now);
      SeeNext(queued, pending, document);
      if |pending| >= MAX_BATCH_SIZE {
        return Full;
      }
      if document.fileHash in queued {
        return Duplicate;
      }
      pending := pending + [document];
      queued := queued + {document.fileHash};
      if oldest.None? {
        oldest := Some(now);
      }
      return Queued(|pending|);
    }

    /** Waiting is over when enough documents wait or the clock has run long enough. */
    method ShouldFlush(now: int) returns (flush: bool)
      requires Valid()
      ensures flush <==> pending != [] && (|pending| >= maxSize || now - oldest.value >= maxAgeMs)
    {
      if |pending| == 0 {
        return false;
      }
      return |pending| >= maxSize || now - oldest.value >= maxAgeMs;
    }

    method Drain(count: int, now: int) returns (taken: seq<Document>)
      requires Valid()
      modifies this
      ensures Valid() && State() == Drained(old(State()), count, now)
      ensures taken == Taken(old(State()), count)
    {
      DrainKeepsSound(State(), count, now);
      ghost var was := pending;
      var n := Cut(|pending|, count);
      taken := pending[..n];
      pending := pending[n..];
      assert forall i :: 0 <= i < |pending| ==> pending[i] == was[i + n];
      for i := 0 to |taken|
        modifies this`queued
        invariant SeenExactly(queued, was[i..])
      {
        assert was[i..][1..] == was[i + 1..];
        ForgetFirst(queued, was[i..]);
        queued := queued - {taken[i].fileHash};
      }
      oldest := if |pending| == 0 then None else Some(now);
    }

    method Peek() returns (documents: seq<Document>)
      ensures documents == pending
    {
      return pending;
    }
  }

  lemma ForgetFirst(seen: set<Json>, documents: seq<Document>)
    requires documents != [] && SeenExactly(seen, documents) && DistinctFiles(documents)
    ensures SeenExactly(seen - {documents[0].fileHash}, documents[1..])
  {
    var rest := documents[1..];
    forall f | f in seen - {documents[0].fileHash} ensures HasFile(rest, f) {
      var k :| 0 <= k < |documents| && documents[k].fileHash == f;
      assert rest[k - 1].fileHash == f;
    }
  }

  // ----- Runs -----

  /** Everything that happened: what was accepted and when, what was drained, and the last drain and latest clock. */
  datatype Log = Log(queue: Queue, accepted: seq<Document>, arrivals: seq<int>, drained: seq<Document>,
                     lastDrain: Option<int>)

  function Start(): Log {
    Log(Queue([], None), [], [], [], None)
  }

  function Step(log: Log, op: Operation): Log {
    match op
    case Add(document, now) =>
      if AddResultFor(log.queue, document).Queued? then
        log.(queue := Added(log.queue, document, now),
             accepted := log.accepted + [document], arrivals := log.arrivals + [now])
      else log
    case Drain(count, now) =>
      log.(queue := Drained(log.queue, count, now),
           drained := log.drained + Taken(log.queue, count), lastDrain := Some(now))
  }

  function Run(log: Log, ops: seq<Operation>): Log {
    if ops == [] then log else Step(Run(log, ops[..|ops| - 1]), ops[|ops| - 1])
  }

  /** Nothing is lost, repeated or reordered: drained then pending is what was accepted, and the queue is sound. */
  lemma {:induction false} RunConserves(ops: seq<Operation>)
    ensures var log := Run(Start(), ops);
      log.drained + log.queue.pending == log.accepted && Sound(log.queue) && |log.arrivals| == |log.accepted|
  {
    if ops != [] {
      var before, op := Run(Start(), ops[..|ops| - 1]), ops[|ops| - 1];
      RunConserves(ops[..|ops| - 1]);
      match op {
        case Add(document, now) =>
          AddKeepsSound(before.queue, document, now);
          assert before.drained + (before.queue.pending + [document])
              == (before.drained + before.queue.pending) + [document];
        case Drain(count, now) =>
          DrainKeepsSound(before.queue, count, now);
          var n := |Taken(before.queue, count)|;
          assert before.queue.pending == before.queue.pending[..n] + before.queue.pending[n..];
          assert (before.drained + before.queue.pending[..n]) + before.queue.pending[n..]
              == before.drained + (before.queue.pending[..n] + before.queue.pending[n..]);
      }
    }
  }

  /** A document is taken exactly while fewer than 65536 wait and none of them is for the same file. */
  lemma AddExactly(ops: seq<Operation>, document: Document, now: int)
    ensures var before := Run(Start(), ops);
      var after := Run(Start(), ops + [Add(document, now)]);
      var pending := before.queue.pending;
      var taken := |pending| < 65536 && forall i :: 0 <= i < |pending| ==> pending[i].fileHash != document.fileHash;
      after.queue.pending == (if taken then pending + [document] else pending)
      && after.accepted == (if taken then before.accepted + [document] else before.accepted)
      && AddResultFor(before.queue, document)
      == (if taken then Queued(|pending| + 1) else if |pending| < 65536 then Duplicate else Full)
  {
    assert (ops + [Add(document, now)])[..|ops|] == ops;
    RunConserves(ops);
  }

  /** Whatever was added and drained before, a non-empty queue of anchorable documents can be built into a batch. */
  lemma PendingIsBuildable(ops: seq<Operation>)
    requires var pending := Run(Start(), ops).queue.pending;
      pending != [] && forall i :: 0 <= i < |pending| ==> Anchorable(pending[i])
    ensures Buildable(Run(Start(), ops).queue.pending)
  {
    RunConserves(ops);
  }

  /** A drain takes as many as it is told to, if there are that many; told a negative number it leaves that many. */
  lemma DrainTakesExactly(q: Queue, count: int, now: int)
    ensures Taken(q, count) + Drained(q, count, now).pending == q.pending
    ensures 0 <= count <= |q.pending| ==> |Taken(q, count)| == count
    ensures count > |q.pending| ==> Taken(q, count) == q.pending
    ensures -|q.pending| <= count < 0 ==> |Drained(q, count, now).pending| == -count
    ensures count < -|q.pending| ==> Taken(q, count) == []
  {
    var n := |Taken(q, count)|;
    assert q.pending[..n] + q.pending[n..] == q.pending;
  }

  predicate OnlyAdds(ops: seq<Operation>) {
    forall i :: 0 <= i < |ops| ==> ops[i].Add?
  }

  lemma {:induction false} AddsKeepFront(log: Log, ops: seq<Operation>)
    requires OnlyAdds(ops)
    ensures log.queue.pending <= Run(log, ops).queue.pending
  {
    if ops != [] {
      AddsKeepFront(log, ops[..|ops| - 1]);
      assert ops[|ops| - 1].Add?;
    }
  }

  /** Peek, build a batch while documents keep arriving, then drain that many: exactly the peeked ones leave. */
  lemma {:induction false} DrainTakesThePeeked(log: Log, adds: seq<Operation>, now: int)
    requires OnlyAdds(adds)
    ensures var peeked := log.queue.pending;
      var grown := Run(log, adds).queue;
      Taken(grown, |peeked|) == peeked && Drained(grown, |peeked|, now).pending == grown.pending[|peeked|..]
  {
    AddsKeepFront(log, adds);
  }

  function Clock(op: Operation): int {
    op.now
  }

  predicate ClockIsMonotone(ops: seq<Operation>) {
    forall i, j :: 0 <= i < j < |ops| ==> Clock(ops[i]) <= Clock(ops[j])
  }

  function Later(a: int, b: Option<int>): int {
    if b.Some? && b.value > a then b.value else a
  }

  /** With a clock that never runs backwards, the age of the queue dates from its head's arrival or the last drain. */
  lemma {:induction false} AgeOfQueue(ops: seq<Operation>)
    requires ClockIsMonotone(ops)
    ensures var log := Run(Start(), ops);
      |log.drained| + |log.queue.pending| == |log.arrivals|
      && (log.queue.pending != [] ==>
            log.queue.oldest == Some(Later(log.arrivals[|log.drained|], log.lastDrain)))
      && (ops != [] ==> NothingAfter(log, Clock(ops[|ops| - 1])))
      && (ops == [] ==> log == Start())
  {
    if ops != [] {
      var front, op := ops[..|ops| - 1], ops[|ops| - 1];
      var before := Run(Start(), front);
      assert forall i :: 0 <= i < |front| ==> front[i] == ops[i];
      AgeOfQueue(front);
      RunConserves(front);
      RunConserves(ops);
      if front != [] {
        assert Clock(front[|front| - 1]) <= Clock(op);
      }
      assert NothingAfter(before, Clock(op));
      AgeStep(before, op);
    }
  }

  predicate NothingAfter(log: Log, now: int) {
    (forall i :: 0 <= i < |log.arrivals| ==> log.arrivals[i] <= now)
    && (log.lastDrain.Some? ==> log.lastDrain.value <= now)
  }

  lemma AgeStep(before: Log, op: Operation)
    requires |before.drained| + |before.queue.pending| == |before.arrivals| && Sound(before.queue)
    requires before.queue.pending != [] ==>
      before.queue.oldest == Some(Later(before.arrivals[|before.drained|], before.lastDrain))
    requires NothingAfter(before, Clock(op))
    ensures var log := Step(before, op);
      |log.drained| + |log.queue.pending| == |log.arrivals|
      && (log.queue.pending != [] ==>
            log.queue.oldest == Some(Later(log.arrivals[|log.drained|], log.lastDrain)))
      && NothingAfter(log, Clock(op))
  {
  }
}
