/** What every interleaving of the upload workers keeps, and how a run can end. */
module UploadTheorems {
  import opened Bytes
  import opened Numbers
  import opened Text
  import opened Upload
  import opened Wrappers

  // ----- The chunks to upload -----

  predicate Increasing(s: seq<nat>) {
    forall i, j :: 0 <= i < j < |s| ==> s[i] < s[j]
  }

  lemma {:induction false} PendingIsWhatIsMissing(resumed: seq<string>, n: nat)
    requires n <= |resumed|
    ensures Increasing(Pending(resumed, n)) && |Pending(resumed, n)| <= n
    ensures forall k :: 0 <= k < |Pending(resumed, n)| ==> Pending(resumed, n)[k] < n
    ensures forall i :: 0 <= i < n ==> (i in Pending(resumed, n) <==> resumed[i] == "")
  {
    if n > 0 {
      PendingIsWhatIsMissing(resumed, n - 1);
    }
  }

  // ----- The puts begun are the first of the pending chunks, in order, each with its own payload -----

  ghost predicate InOrder(s: Pool) {
    |s.payloads| == |s.resumed| == |s.locations| && s.pending == Pending(s.resumed, |s.resumed|)
    && |s.puts| == (if s.cursor < |s.pending| then s.cursor else |s.pending|)
    && forall k :: 0 <= k < |s.puts| ==>
      s.puts[k].index == s.pending[k] < |s.payloads| && s.puts[k].payload == s.payloads[s.pending[k]]
      && s.puts[k].name == ChunkName(s.prefix, s.pending[k]) && s.puts[k].worker < |s.workers|
  }

  lemma NextInOrder(s: Pool, w: nat)
    requires InOrder(s) && w < |s.workers|
    ensures InOrder(Next(s, w))
  {
    PendingIsWhatIsMissing(s.resumed, |s.resumed|);
  }

  // ----- Workers and outstanding puts match one to one -----

  /** `free` is a worker between two puts, or -1. */
  ghost predicate Linked(s: Pool, free: int) {
    (forall v :: 0 <= v < |s.workers| && v != free && s.workers[v].Putting? ==>
       s.workers[v].slot < |s.puts| && s.puts[s.workers[v].slot].worker == v
       && s.puts[s.workers[v].slot].result.None?)
    && forall k :: 0 <= k < |s.puts| && s.puts[k].result.None? ==>
      s.puts[k].worker != free && s.puts[k].worker < |s.workers| && s.workers[s.puts[k].worker] == Putting(k)
  }

  lemma NextLinks(s: Pool, w: nat)
    requires InOrder(s) && w < |s.workers| && Linked(s, w)
    ensures Linked(Next(s, w), -1)
  {
  }

  // ----- Locations and progress -----

  function CountStored(puts: seq<Put>): nat {
    if puts == [] then 0
    else CountStored(puts[..|puts| - 1]) + (if IsStored(puts[|puts| - 1]) then 1 else 0)
  }

  predicate IsStored(p: Put) {
    p.result.Some? && p.result.value.Stored?
  }

  function LocationOf(p: Put): string {
    if IsStored(p) then p.result.value.location else ""
  }

  /** Each slot holds its own result; resumed slots are untouched; progress is finished plus resumed. */
  ghost predicate Filled(s: Pool) {
    |s.locations| == |s.resumed| && |s.puts| <= |s.pending|
    && (forall k :: 0 <= k < |s.pending| ==> s.pending[k] < |s.locations|)
    && (forall k :: 0 <= k < |s.puts| ==> s.locations[s.pending[k]] == LocationOf(s.puts[k]))
    && (forall k :: |s.puts| <= k < |s.pending| ==> s.locations[s.pending[k]] == "")
    && (forall i :: 0 <= i < |s.locations| && i !in s.pending ==> s.locations[i] == s.resumed[i])
    && s.done + |s.pending| == |s.locations| + CountStored(s.puts)
  }

  /** What `Filled` speaks of is the same in both states, but for the puts. */
  predicate SameSlots(s: Pool, t: Pool) {
    t.locations == s.locations && t.pending == s.pending && t.resumed == s.resumed && t.done == s.done
  }

  lemma OneMorePutFills(s: Pool, t: Pool, put: Put)
    requires Filled(s) && SameSlots(s, t) && t.puts == s.puts + [put]
    requires |s.puts| < |s.pending| && put.result.None?
    ensures Filled(t)
  {
    assert t.puts[..|s.puts|] == s.puts;
    forall k | 0 <= k < |t.puts| ensures t.locations[t.pending[k]] == LocationOf(t.puts[k]) {
      if k < |s.puts| {
        assert t.puts[k] == s.puts[k];
      }
    }
  }

  lemma NextFills(s: Pool, w: nat)
    requires InOrder(s) && w < |s.workers| && Filled(s)
    ensures Filled(Next(s, w))
  {
    var t := Next(s, w);
    assert SameSlots(s, t);
    if !s.stopped && s.cursor < |s.pending| {
      OneMorePutFills(s, t, t.puts[|s.puts|]);
    }
  }

  lemma {:induction false} CountAfterResult(puts: seq<Put>, k: nat, outcome: Outcome)
    requires k < |puts| && puts[k].result.None?
    ensures CountStored(puts[k := puts[k].(result := Some(outcome))])
         == CountStored(puts) + (if outcome.Stored? then 1 else 0)
  {
    var last := |puts| - 1;
    var after := puts[k := puts[k].(result := Some(outcome))];
    if k < last {
      CountAfterResult(puts[..last], k, outcome);
      assert after[..last] == puts[..last][k := puts[k].(result := Some(outcome))];
    } else {
      assert after[..last] == puts[..last];
    }
  }

  // ----- Returning and failing -----

  ghost predicate Ended(s: Pool) {
    (forall v :: 0 <= v < |s.workers| && s.workers[v].Returned? ==> s.cursor > |s.pending|)
    && (forall k :: 0 <= k < |s.puts| && HasFailed(s.puts[k]) ==>
          s.puts[k].worker < |s.workers| && s.workers[s.puts[k].worker].Threw?)
    && forall v :: 0 <= v < |s.workers| && s.workers[v].Threw? ==> s.rejected.Some?
  }

  predicate HasFailed(p: Put) {
    p.result.Some? && p.result.value.Failed?
  }

  function First(errors: seq<Error>): Option<Error> {
    if errors == [] then None else Some(errors[0])
  }

  /** Until the caller aborts, what stops the pool and what is reported is the first put that failed. */
  ghost predicate Blamed(s: Pool) {
    (s.stopped <==> s.callerAborted || s.broken != [])
    && (!s.callerAborted ==> s.failure == First(s.broken) && s.rejected == First(s.broken))
  }

  // ----- All of it -----

  ghost predicate Sound(s: Pool) {
    InOrder(s) && Linked(s, -1) && Filled(s) && Ended(s) && Blamed(s)
  }

  /** Worker `w` is between puts, everything else is as it should be. */
  ghost predicate SoundBetween(s: Pool, w: nat) {
    w < |s.workers| && InOrder(s) && Linked(s, w) && Filled(s) && Ended(s) && Blamed(s)
    && !s.workers[w].Returned? && !s.workers[w].Threw?
  }

  lemma NextIsSound(s: Pool, w: nat)
    requires SoundBetween(s, w)
    ensures Sound(Next(s, w))
  {
    NextInOrder(s, w);
    NextLinks(s, w);
    NextFills(s, w);
    NextEnds(s, w);
  }

  lemma NextEnds(s: Pool, w: nat)
    requires InOrder(s) && Ended(s) && Blamed(s) && w < |s.workers|
    requires !s.workers[w].Returned? && !s.workers[w].Threw?
    ensures Ended(Next(s, w)) && Blamed(Next(s, w))
  {
  }

  /** The state after the await, before the worker goes on. */
  function Marked(s: Pool, w: nat, location: string): Pool
    requires Waiting(s, w)
  {
    var slot := s.workers[w].slot;
    s.(puts := s.puts[slot := s.puts[slot].(result := Some(Stored(location)))],
       locations := s.locations[s.puts[slot].index := location], done := s.done + 1)
  }

  lemma MarkedFills(s: Pool, w: nat, location: string)
    requires Sound(s) && Waiting(s, w)
    ensures Filled(Marked(s, w, location))
  {
    var slot := s.workers[w].slot;
    PendingIsWhatIsMissing(s.resumed, |s.resumed|);
    CountAfterResult(s.puts, slot, Stored(location));
    assert s.puts[slot].index == s.pending[slot] && s.puts[slot].result.None?;
    FilledAfter(s, Marked(s, w, location), slot, location);
  }

  lemma FilledAfter(s: Pool, t: Pool, slot: nat, location: string)
    requires Filled(s) && Increasing(s.pending) && slot < |s.puts|
    requires t.pending == s.pending && t.resumed == s.resumed && t.done == s.done + 1
    requires t.locations == s.locations[s.pending[slot] := location]
    requires t.puts == s.puts[slot := s.puts[slot].(result := Some(Stored(location)))]
    requires CountStored(t.puts) == CountStored(s.puts) + 1
    ensures Filled(t)
  {
    forall k | 0 <= k < |t.pending| && k != slot ensures t.locations[t.pending[k]] == s.locations[s.pending[k]] {
      assert s.pending[k] != s.pending[slot];
    }
    assert s.pending[slot] in s.pending;
  }

  lemma MarkedIsBetween(s: Pool, w: nat, location: string)
    requires Sound(s) && Waiting(s, w)
    ensures SoundBetween(Marked(s, w, location), w)
  {
    MarkedFills(s, w, location);
    MarkedLinks(s, w, location);
  }

  lemma MarkedLinks(s: Pool, w: nat, location: string)
    requires Sound(s) && Waiting(s, w)
    ensures var t := Marked(s, w, location); InOrder(t) && Linked(t, w) && Ended(t) && Blamed(t)
  {
    MarkedInOrder(s, w, location);
    MarkedStaysLinked(s, w, location);
    MarkedEnds(s, w, location);
  }

  lemma MarkedInOrder(s: Pool, w: nat, location: string)
    requires InOrder(s) && Waiting(s, w)
    ensures InOrder(Marked(s, w, location))
  {
  }

  lemma MarkedStaysLinked(s: Pool, w: nat, location: string)
    requires Linked(s, -1) && Waiting(s, w)
    ensures Linked(Marked(s, w, location), w)
  {
  }

  lemma MarkedEnds(s: Pool, w: nat, location: string)
    requires Ended(s) && Blamed(s) && Waiting(s, w)
    ensures Ended(Marked(s, w, location)) && Blamed(Marked(s, w, location))
  {
  }

  lemma FailingIsSound(s: Pool, w: nat, error: Error)
    requires Sound(s) && Waiting(s, w)
    ensures Sound(Settle(s, w, Failed(error)))
  {
    FailingFills(s, w, error);
    FailingLinks(s, w, error);
  }

  lemma FailingFills(s: Pool, w: nat, error: Error)
    requires Sound(s) && Waiting(s, w)
    ensures Filled(Settle(s, w, Failed(error)))
  {
    CountAfterResult(s.puts, s.workers[w].slot, Failed(error));
  }

  lemma FailingLinks(s: Pool, w: nat, error: Error)
    requires Sound(s) && Waiting(s, w)
    ensures var t := Settle(s, w, Failed(error)); InOrder(t) && Linked(t, -1) && Ended(t) && Blamed(t)
  {
    FailingInOrder(s, w, error);
    FailingStaysLinked(s, w, error);
    FailingEnds(s, w, error);
    FailingIsBlamed(s, w, error);
  }

  lemma FailingInOrder(s: Pool, w: nat, error: Error)
    requires InOrder(s) && Waiting(s, w)
    ensures InOrder(Settle(s, w, Failed(error)))
  {
  }

  lemma FailingStaysLinked(s: Pool, w: nat, error: Error)
    requires Linked(s, -1) && Waiting(s, w)
    ensures Linked(Settle(s, w, Failed(error)), -1)
  {
  }

  lemma FailingEnds(s: Pool, w: nat, error: Error)
    requires InOrder(s) && Linked(s, -1) && Ended(s) && Waiting(s, w)
    ensures Ended(Settle(s, w, Failed(error)))
  {
  }

  lemma FailingIsBlamed(s: Pool, w: nat, error: Error)
    requires Blamed(s) && Waiting(s, w)
    ensures Blamed(Settle(s, w, Failed(error)))
  {
  }

  lemma HappenIsSound(s: Pool, e: Event)
    requires Sound(s)
    ensures Sound(Happen(s, e))
  {
    if e.Settles? && Waiting(s, e.worker) {
      match e.outcome {
        case Stored(location) =>
          MarkedIsBetween(s, e.worker, location);
          NextIsSound(Marked(s, e.worker, location), e.worker);
        case Failed(error) =>
          FailingIsSound(s, e.worker, error);
      }
    }
  }

  // ----- The start -----

  /** Workers from `w` on have not started. */
  ghost predicate Starting(s: Pool, w: nat) {
    w <= |s.workers| && Sound(s) && !s.stopped
    && (forall v :: w <= v < |s.workers| ==> s.workers[v].Ready?)
    && forall v :: 0 <= v < w ==> !s.workers[v].Ready?
  }

  lemma PreparedIsSound(payloads: seq<Bytes>, prefix: string, resumed: seq<string>, width: nat)
    requires |resumed| == |payloads|
    ensures Starting(Prepared(payloads, prefix, resumed, width), 0)
  {
    PendingIsWhatIsMissing(resumed, |resumed|);
  }

  /** What each start keeps, from worker to worker, holds when all have started. */
  lemma {:induction false} BeginningKeeps(holds: (Pool, nat) -> bool, s: Pool, w: nat)
    requires w <= |s.workers| && holds(s, w)
    requires forall t: Pool, v: nat :: v < |t.workers| && holds(t, v) ==> holds(Next(t, v), v + 1)
    ensures |BeginFrom(s, w).workers| == |s.workers| && holds(BeginFrom(s, w), |s.workers|)
    decreases |s.workers| - w
  {
    if w < |s.workers| {
      NextKeepsWorkers(s, w);
      BeginningKeeps(holds, Next(s, w), w + 1);
    }
  }

  lemma StartOne(s: Pool, w: nat)
    requires Starting(s, w) && w < |s.workers|
    ensures Starting(Next(s, w), w + 1)
  {
    ReadyIsBetween(s, w);
    NextIsSound(s, w);
    NextKeepsWorkers(s, w);
    NextReadies(s, w);
  }

  /** A worker that has not started is between puts. */
  lemma ReadyIsBetween(s: Pool, w: nat)
    requires Sound(s) && w < |s.workers| && s.workers[w].Ready?
    ensures SoundBetween(s, w)
  {
    ReadyIsFree(s, w);
  }

  lemma ReadyIsFree(s: Pool, w: nat)
    requires Linked(s, -1) && w < |s.workers| && s.workers[w].Ready?
    ensures Linked(s, w)
  {
  }

  lemma NextReadies(s: Pool, w: nat)
    requires w < |s.workers| && !s.stopped
    ensures var t := Next(s, w);
      !t.stopped && !t.workers[w].Ready? && forall v :: 0 <= v < |s.workers| && v != w ==> t.workers[v] == s.workers[v]
  {
  }

  lemma BeginningIsSound(s: Pool)
    requires Starting(s, 0)
    ensures Starting(BeginFrom(s, 0), |BeginFrom(s, 0).workers|)
  {
    forall t: Pool, v: nat | v < |t.workers| && Starting(t, v) ensures Starting(Next(t, v), v + 1) {
      StartOne(t, v);
    }
    BeginningKeeps((t: Pool, v: nat) => Starting(t, v), s, 0);
  }

  // ----- Over every run -----

  lemma StartedIsSound(payloads: seq<Bytes>, prefix: string, resumed: seq<string>, concurrency: int)
    requires |resumed| == |payloads|
    ensures Sound(Started(payloads, prefix, resumed, concurrency))
    ensures NoneReady(Started(payloads, prefix, resumed, concurrency))
  {
    var s := Prepared(payloads, prefix, resumed, Width(concurrency, |Pending(resumed, |resumed|)|));
    PreparedIsSound(payloads, prefix, resumed, |s.workers|);
    BeginningIsSound(s);
  }

  predicate NoneReady(s: Pool) {
    forall v :: 0 <= v < |s.workers| ==> !s.workers[v].Ready?
  }

  ghost predicate SameJob(s: Pool, t: Pool) {
    |t.workers| == |s.workers| && t.payloads == s.payloads && t.prefix == s.prefix && t.resumed == s.resumed
    && t.pending == s.pending
  }

  lemma HappenKeepsJob(s: Pool, e: Event)
    requires NoneReady(s)
    ensures SameJob(s, Happen(s, e)) && NoneReady(Happen(s, e))
  {
  }

  /** Every state that any interleaving reaches is sound, for the same chunks and the same workers. */
  lemma {:induction false} RunIsSound(s: Pool, events: seq<Event>)
    requires Sound(s) && NoneReady(s)
    ensures Sound(Run(s, events)) && NoneReady(Run(s, events)) && SameJob(s, Run(s, events))
  {
    if events != [] {
      var t, e := Run(s, events[..|events| - 1]), events[|events| - 1];
      RunIsSound(s, events[..|events| - 1]);
      HappenIsSound(t, e);
      HappenKeepsJob(t, e);
      assert Run(s, events) == Happen(t, e);
    }
  }

  lemma PutsAreDistinct(t: Pool)
    requires Sound(t)
    ensures forall j, k :: 0 <= j < k < |t.puts| ==> t.puts[j].index != t.puts[k].index
    ensures forall k :: 0 <= k < |t.puts| ==> t.puts[k].index < |t.resumed| && t.resumed[t.puts[k].index] == ""
  {
    PendingIsWhatIsMissing(t.resumed, |t.resumed|);
    forall k | 0 <= k < |t.puts| ensures t.puts[k].index < |t.resumed| && t.resumed[t.puts[k].index] == "" {
      assert t.pending[k] in t.pending;
    }
  }

  /** Each missing chunk is put at most once, resumed ones never, each with its own payload; progress counts both. */
  lemma EachChunkOnce(payloads: seq<Bytes>, prefix: string, resumed: seq<string>, concurrency: int, events: seq<Event>)
    requires |resumed| == |payloads|
    ensures var t := Run(Started(payloads, prefix, resumed, concurrency), events);
      (forall j, k :: 0 <= j < k < |t.puts| ==> t.puts[j].index != t.puts[k].index)
      && (forall k :: 0 <= k < |t.puts| ==>
            t.puts[k].index < |payloads| && t.puts[k].payload == payloads[t.puts[k].index]
            && t.puts[k].name == ChunkName(prefix, t.puts[k].index) && resumed[t.puts[k].index] == "")
      && t.done + |Pending(resumed, |resumed|)| == |payloads| + CountStored(t.puts)
  {
    var s := Started(payloads, prefix, resumed, concurrency);
    StartedIsSound(payloads, prefix, resumed, concurrency);
    StartedJob(payloads, prefix, resumed, concurrency);
    RunIsSound(s, events);
    PutsAreDistinct(Run(s, events));
  }

  /** So no two puts of an upload go under one name, however many chunks there are. */
  lemma NamesDiffer(prefix: string, i: nat, j: nat)
    requires ChunkName(prefix, i) == ChunkName(prefix, j)
    ensures i == j
  {
    var a, b, front := Decimal(i), Decimal(j), prefix + "-";
    assert ChunkName(prefix, i)[|front|..] == PadStart(a, 6) && ChunkName(prefix, j)[|front|..] == PadStart(b, 6);
    PadStartShape(a, 6);
    PadStartShape(b, 6);
    if |a| < |b| {
      NoZerosMissing(a, b, 6);
      OnlyZeroLeads(j);
    } else if |b| < |a| {
      NoZerosMissing(b, a, 6);
      OnlyZeroLeads(i);
    } else {
      DecimalIsInjective(i, j);
    }
  }

  lemma {:induction false} PadStartShape(s: string, width: nat)
    ensures var padded := PadStart(s, width);
      |padded| == (if |s| < width then width else |s|) && padded[|padded| - |s|..] == s
      && forall k :: 0 <= k < |padded| - |s| ==> padded[k] == '0'
    decreases width - |s|
  {
    if |s| < width {
      PadStartShape("0" + s, width);
      var padded := PadStart(s, width);
      assert padded[|padded| - |s| - 1..][1..] == padded[|padded| - |s|..];
      assert padded[|padded| - |s| - 1] == ("0" + s)[0];
    }
  }

  lemma NoZerosMissing(short: string, long: string, width: nat)
    requires 0 < |short| < |long| && PadStart(short, width) == PadStart(long, width)
    ensures long[0] == '0'
  {
    PadStartShape(short, width);
    PadStartShape(long, width);
    var padded := PadStart(long, width);
    assert padded[|padded| - |long|] == padded[|padded| - |long|..][0];
  }

  lemma {:induction false} OnlyZeroLeads(n: nat)
    requires Decimal(n)[0] == '0'
    ensures |Decimal(n)| == 1
  {
    if n >= 10 {
      OnlyZeroLeads(n / 10);
    }
  }

  lemma StartedJob(payloads: seq<Bytes>, prefix: string, resumed: seq<string>, concurrency: int)
    requires |resumed| == |payloads|
    ensures var s := Started(payloads, prefix, resumed, concurrency);
      s.payloads == payloads && s.prefix == prefix && s.resumed == resumed
      && |s.workers| == Width(concurrency, |Pending(resumed, |resumed|)|)
  {
    var s := Prepared(payloads, prefix, resumed, Width(concurrency, |Pending(resumed, |resumed|)|));
    BeginningKeepsJob(s, 0);
  }

  lemma {:induction false} BeginningKeepsJob(s: Pool, w: nat)
    ensures SameJob(s, BeginFrom(s, w))
    decreases |s.workers| - w
  {
    if w < |s.workers| {
      BeginningKeepsJob(Next(s, w), w + 1);
    }
  }

  /** The slots of the puts still outstanding. */
  function Outstanding(s: Pool): set<nat> {
    set k | 0 <= k < |s.puts| && s.puts[k].result.None?
  }

  lemma {:induction false} FewerThanWorkers(slots: set<nat>, workers: seq<Worker>, n: nat)
    requires n <= |workers|
    requires forall k :: k in slots ==> exists w :: 0 <= w < n && workers[w] == Putting(k)
    ensures |slots| <= n
  {
    if n > 0 {
      var last := workers[n - 1];
      var rest := if last.Putting? then slots - {last.slot} else slots;
      forall k | k in rest ensures exists w :: 0 <= w < n - 1 && workers[w] == Putting(k) {
        var w :| 0 <= w < n && workers[w] == Putting(k);
      }
      FewerThanWorkers(rest, workers, n - 1);
    } else {
      assert slots == {};
    }
  }

  /** Never are more puts outstanding than the caller allowed at once, if it allowed any, nor than are to be made. */
  lemma BoundedInFlight(payloads: seq<Bytes>, prefix: string, resumed: seq<string>, concurrency: int,
                        events: seq<Event>)
    requires |resumed| == |payloads|
    ensures var n := |Outstanding(Run(Started(payloads, prefix, resumed, concurrency), events))|;
      (n <= 1 || n <= concurrency) && n <= |Pending(resumed, |resumed|)|
  {
    var s := Started(payloads, prefix, resumed, concurrency);
    StartedIsSound(payloads, prefix, resumed, concurrency);
    StartedJob(payloads, prefix, resumed, concurrency);
    RunIsSound(s, events);
    var t := Run(s, events);
    forall k | k in Outstanding(t) ensures exists w :: 0 <= w < |t.workers| && t.workers[w] == Putting(k) {
      assert t.workers[t.puts[k].worker] == Putting(k);
    }
    FewerThanWorkers(Outstanding(t), t.workers, |t.workers|);
    FewerThan(Outstanding(t), |t.puts|);
  }

  lemma {:induction false} FewerThan(slots: set<nat>, n: nat)
    requires forall k :: k in slots ==> k < n
    ensures |slots| <= n
  {
    if n > 0 {
      FewerThan(slots - {n - 1}, n - 1);
    } else {
      assert slots == {};
    }
  }

  lemma {:induction false} BeginningPuts(s: Pool, w: nat)
    requires w <= |s.workers| && !s.stopped && s.cursor == w && |s.puts| == Min(w, |s.pending|)
    requires forall k :: 0 <= k < |s.puts| ==> s.puts[k].result.None?
    ensures var t := BeginFrom(s, w);
      |t.puts| == Min(|s.workers|, |s.pending|) && forall k :: 0 <= k < |t.puts| ==> t.puts[k].result.None?
    decreases |s.workers| - w
  {
    if w < |s.workers| {
      BeginningPuts(Next(s, w), w + 1);
    }
  }

  /** And the upload starts as many puts at once as the caller allowed, as long as there are that many to be made. */
  lemma StartsInParallel(payloads: seq<Bytes>, prefix: string, resumed: seq<string>, concurrency: int)
    requires |resumed| == |payloads|
    ensures var t, n := Started(payloads, prefix, resumed, concurrency), |Pending(resumed, |resumed|)|;
      (1 <= concurrency <= n ==> |t.workers| == |t.puts| == concurrency)
      && (1 <= n <= concurrency ==> |t.workers| == |t.puts| == n)
      && (concurrency < 1 <= n ==> |t.workers| == |t.puts| == 1)
      && (n == 0 ==> t.puts == [])
      && forall k :: 0 <= k < |t.puts| ==> t.puts[k].result.None?
  {
    StartedJob(payloads, prefix, resumed, concurrency);
    BeginningPuts(Prepared(payloads, prefix, resumed, Width(concurrency, |Pending(resumed, |resumed|)|)), 0);
  }

  // ----- Ending -----

  ghost predicate AllReturned(s: Pool) {
    forall v :: 0 <= v < |s.workers| ==> s.workers[v].Returned?
  }

  /** Every missing chunk was put and stored, and every slot holds its own location. */
  ghost predicate Complete(t: Pool) {
    |t.puts| == |t.pending| && t.done == |t.payloads| == |t.locations| == |t.resumed|
    && (forall k :: 0 <= k < |t.puts| ==>
          IsStored(t.puts[k]) && t.puts[k].index == t.pending[k] < |t.locations|
          && t.locations[t.puts[k].index] == LocationOf(t.puts[k]))
    && forall i :: 0 <= i < |t.resumed| && t.resumed[i] != "" ==> t.locations[i] == t.resumed[i]
  }

  /** When every worker returns the upload is complete; whatever did not upload, a worker threw. */
  lemma NormalReturnIsComplete(payloads: seq<Bytes>, prefix: string, resumed: seq<string>, concurrency: int,
                               events: seq<Event>)
    requires |resumed| == |payloads| && AllReturned(Run(Started(payloads, prefix, resumed, concurrency), events))
    ensures var t := Run(Started(payloads, prefix, resumed, concurrency), events);
      Complete(t) && t.payloads == payloads && t.resumed == resumed
  {
    var s := Started(payloads, prefix, resumed, concurrency);
    StartedIsSound(payloads, prefix, resumed, concurrency);
    StartedJob(payloads, prefix, resumed, concurrency);
    RunIsSound(s, events);
    ReturnedIsComplete(Run(s, events));
  }

  lemma ReturnedIsComplete(t: Pool)
    requires Sound(t) && |t.workers| > 0 && AllReturned(t)
    ensures Complete(t)
  {
    assert t.workers[0].Returned?;
    PendingIsWhatIsMissing(t.resumed, |t.resumed|);
    forall k | 0 <= k < |t.puts| ensures IsStored(t.puts[k]) {
      assert t.workers[t.puts[k].worker].Returned?;
    }
    AllStoredCounts(t.puts);
  }

  lemma {:induction false} AllStoredCounts(puts: seq<Put>)
    requires forall k :: 0 <= k < |puts| ==> IsStored(puts[k])
    ensures CountStored(puts) == |puts|
  {
    if puts != [] {
      AllStoredCounts(puts[..|puts| - 1]);
    }
  }

  /** An upload in which no put fails and nobody aborts is complete as soon as no put is outstanding. */
  lemma UndisturbedRunCompletes(payloads: seq<Bytes>, prefix: string, resumed: seq<string>, concurrency: int,
                                events: seq<Event>)
    requires |resumed| == |payloads|
    requires var t := Run(Started(payloads, prefix, resumed, concurrency), events);
      !t.callerAborted && t.broken == [] && Outstanding(t) == {}
    ensures Complete(Run(Started(payloads, prefix, resumed, concurrency), events))
  {
    var t := Run(Started(payloads, prefix, resumed, concurrency), events);
    StartedIsSound(payloads, prefix, resumed, concurrency);
    RunIsSound(Started(payloads, prefix, resumed, concurrency), events);
    RunsTerminate(payloads, prefix, resumed, concurrency, events);
    NormalReturnIsComplete(payloads, prefix, resumed, concurrency, events);
  }

  /** Once the pool has stopped no put begins any more, whatever else happens. */
  lemma {:induction false} NoPutAfterStop(s: Pool, events: seq<Event>)
    requires s.stopped
    ensures Run(s, events).stopped && |Run(s, events).puts| == |s.puts|
  {
    if events != [] {
      NoPutAfterStop(s, events[..|events| - 1]);
    }
  }

  /**
   * As long as the caller has not aborted, a put that failed has stopped the pool, and the error reported is that of
   * the first put that failed: never an abort that this failure caused in a sibling.
   */
  lemma FirstFailureIsReported(payloads: seq<Bytes>, prefix: string, resumed: seq<string>, concurrency: int,
                               events: seq<Event>)
    requires |resumed| == |payloads|
    ensures var t := Run(Started(payloads, prefix, resumed, concurrency), events);
      !t.callerAborted ==>
        Thrown(t) == First(t.broken) && (t.stopped <==> t.broken != [])
        && (t.rejected.Some? <==> t.broken != [])
        && forall k :: 0 <= k < |t.puts| && HasFailed(t.puts[k]) ==> t.stopped
  {
    StartedIsSound(payloads, prefix, resumed, concurrency);
    RunIsSound(Started(payloads, prefix, resumed, concurrency), events);
    FailuresStop(Run(Started(payloads, prefix, resumed, concurrency), events));
  }

  lemma FailuresStop(t: Pool)
    requires Sound(t)
    ensures !t.callerAborted ==>
      Thrown(t) == First(t.broken) && (t.stopped <==> t.broken != []) && (t.rejected.Some? <==> t.broken != [])
      && forall k :: 0 <= k < |t.puts| && HasFailed(t.puts[k]) ==> t.stopped
  {
    forall k | 0 <= k < |t.puts| && HasFailed(t.puts[k]) ensures !t.callerAborted ==> t.stopped {
      assert t.workers[t.puts[k].worker].Threw?;
    }
  }

  /** Every error kept is that of a put that failed, or the abort itself. */
  ghost predicate KnowsErrors(s: Pool) {
    (s.failure.Some? ==> s.failure.value in s.broken)
    && (s.rejected.Some? ==> s.rejected.value == ABORTED || s.rejected.value in s.broken)
  }

  lemma {:induction false} BeginningKnowsErrors(s: Pool, w: nat)
    requires KnowsErrors(s)
    ensures KnowsErrors(BeginFrom(s, w))
    decreases |s.workers| - w
  {
    if w < |s.workers| {
      BeginningKnowsErrors(Next(s, w), w + 1);
    }
  }

  lemma {:induction false} RunKnowsErrors(s: Pool, events: seq<Event>)
    requires KnowsErrors(s)
    ensures KnowsErrors(Run(s, events))
  {
    if events != [] {
      RunKnowsErrors(s, events[..|events| - 1]);
      StepKnowsErrors(Run(s, events[..|events| - 1]), events[|events| - 1]);
    }
  }

  lemma StepKnowsErrors(s: Pool, e: Event)
    requires KnowsErrors(s)
    ensures KnowsErrors(Happen(s, e))
  {
  }

  /** So whatever is thrown, aborted or not, is the error of a put that failed, or the abort itself. */
  lemma ThrownIsKnown(payloads: seq<Bytes>, prefix: string, resumed: seq<string>, concurrency: int,
                      events: seq<Event>)
    requires |resumed| == |payloads|
    ensures var t := Run(Started(payloads, prefix, resumed, concurrency), events);
      Thrown(t).Some? ==> Thrown(t) == Some(ABORTED) || Thrown(t).value in t.broken
  {
    var s := Prepared(payloads, prefix, resumed, Width(concurrency, |Pending(resumed, |resumed|)|));
    BeginningKnowsErrors(s, 0);
    RunKnowsErrors(Started(payloads, prefix, resumed, concurrency), events);
  }

  /** Errors are remembered for good, so the first one to break the pool stays the first. */
  lemma {:induction false} FirstFailureStays(s: Pool, events: seq<Event>)
    ensures s.broken <= Run(s, events).broken
  {
    if events != [] {
      FirstFailureStays(s, events[..|events| - 1]);
      var t := Run(s, events[..|events| - 1]);
      assert t.broken <= Happen(t, events[|events| - 1]).broken;
    }
  }

  // ----- Termination -----

  function CountSettled(puts: seq<Put>): nat {
    if puts == [] then 0 else CountSettled(puts[..|puts| - 1]) + (if puts[|puts| - 1].result.Some? then 1 else 0)
  }

  predicate Effective(s: Pool, e: Event) {
    e.Settles? && Waiting(s, e.worker)
  }

  /** How many of the events were puts settling. */
  function Settlements(s: Pool, events: seq<Event>): nat {
    if events == [] then 0
    else
      var front := events[..|events| - 1];
      Settlements(s, front) + (if Effective(Run(s, front), events[|events| - 1]) then 1 else 0)
  }

  lemma {:induction false} SettledAtMost(puts: seq<Put>)
    ensures CountSettled(puts) <= |puts|
  {
    if puts != [] {
      SettledAtMost(puts[..|puts| - 1]);
    }
  }

  lemma {:induction false} SettledAfterResult(puts: seq<Put>, k: nat, outcome: Outcome)
    requires k < |puts| && puts[k].result.None?
    ensures CountSettled(puts[k := puts[k].(result := Some(outcome))]) == CountSettled(puts) + 1
  {
    var last := |puts| - 1;
    var after := puts[k := puts[k].(result := Some(outcome))];
    if k < last {
      SettledAfterResult(puts[..last], k, outcome);
      assert after[..last] == puts[..last][k := puts[k].(result := Some(outcome))];
    } else {
      assert after[..last] == puts[..last];
    }
  }

  lemma SettleCountsOne(s: Pool, e: Event)
    requires Sound(s)
    ensures CountSettled(Happen(s, e).puts) == CountSettled(s.puts) + (if Effective(s, e) then 1 else 0)
  {
    if Effective(s, e) {
      var slot := s.workers[e.worker].slot;
      SettledAfterResult(s.puts, slot, e.outcome);
      SettledPuts(s, e.worker, e.outcome);
      NewPutIsOpen(s.puts[slot := s.puts[slot].(result := Some(e.outcome))], Happen(s, e).puts);
    }
  }

  lemma SettledPuts(s: Pool, w: nat, outcome: Outcome)
    requires Waiting(s, w)
    ensures var slot := s.workers[w].slot;
      MayAddOpen(s.puts[slot := s.puts[slot].(result := Some(outcome))], Settle(s, w, outcome).puts)
  {
  }

  predicate MayAddOpen(puts: seq<Put>, after: seq<Put>) {
    after == puts || (|after| == |puts| + 1 && after[..|puts|] == puts && after[|puts|].result.None?)
  }

  lemma NewPutIsOpen(puts: seq<Put>, after: seq<Put>)
    requires MayAddOpen(puts, after)
    ensures CountSettled(after) == CountSettled(puts)
  {
  }

  lemma {:induction false} SettlementsAddUp(s: Pool, events: seq<Event>)
    requires Sound(s) && NoneReady(s)
    ensures CountSettled(s.puts) + Settlements(s, events) == CountSettled(Run(s, events).puts)
    ensures Settlements(s, events) <= |s.pending|
  {
    RunIsSound(s, events);
    if events != [] {
      var front := events[..|events| - 1];
      SettlementsAddUp(s, front);
      RunIsSound(s, front);
      SettleCountsOne(Run(s, front), events[|events| - 1]);
    }
    SettledAtMost(Run(s, events).puts);
  }

  /** No run has more settlements than chunks to upload, and as long as a worker is waiting one is still to come. */
  lemma RunsTerminate(payloads: seq<Bytes>, prefix: string, resumed: seq<string>, concurrency: int,
                      events: seq<Event>)
    requires |resumed| == |payloads|
    ensures var s := Started(payloads, prefix, resumed, concurrency);
      Settlements(s, events) == CountSettled(Run(s, events).puts) - CountSettled(s.puts)
      && Settlements(s, events) <= |Pending(resumed, |resumed|)|
    ensures var t := Run(Started(payloads, prefix, resumed, concurrency), events);
      (Outstanding(t) == {} <==> forall v :: 0 <= v < |t.workers| ==> t.workers[v].Returned? || t.workers[v].Threw?)
  {
    var s := Started(payloads, prefix, resumed, concurrency);
    StartedIsSound(payloads, prefix, resumed, concurrency);
    StartedJob(payloads, prefix, resumed, concurrency);
    SettlementsAddUp(s, events);
    RunIsSound(s, events);
    NothingOutstanding(Run(s, events));
  }

  lemma NothingOutstanding(t: Pool)
    requires Sound(t) && NoneReady(t)
    ensures Outstanding(t) == {} <==> forall v :: 0 <= v < |t.workers| ==> t.workers[v].Returned? || t.workers[v].Threw?
  {
    forall v | 0 <= v < |t.workers| && t.workers[v].Putting? ensures t.workers[v].slot in Outstanding(t) {
    }
    forall k | k in Outstanding(t) ensures t.puts[k].worker < |t.workers| && t.workers[t.puts[k].worker].Putting? {
    }
  }
}
