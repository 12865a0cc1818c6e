/**
 * The guard against sealing one packed file as two different manifests (js/core/manifest.js, sealedBodies).
 *
 * A call of sealManifest is admitted by the guard, awaits the wrapping and the encryption, and only then records what
 * it sealed.  Calls are told apart by number; a file key by the identity of its byte array, which shallow copies of a
 * packed file share.
 */
module Sealing {
  import opened Wrappers

  datatype Call = Call(key: nat, body: string)

  datatype Guard = Guard(sealed: map<nat, string>, inFlight: map<nat, Call>, returned: seq<Call>)

  datatype Event =
    | Begin(id: nat, call: Call)
    | Finish(id: nat, succeeds: bool)

  predicate Admits(sealed: map<nat, string>, call: Call) {
    call.key !in sealed || sealed[call.key] == call.body
  }

  function Happen(g: Guard, e: Event): Guard {
    match e
    case Begin(id, call) =>
      if id !in g.inFlight && Admits(g.sealed, call) then g.(inFlight := g.inFlight[id := call]) else g
    case Finish(id, succeeds) =>
      if id !in g.inFlight then g
      else
        var call := g.inFlight[id];
        var left := g.(inFlight := g.inFlight - {id});
        if succeeds then left.(sealed := g.sealed[call.key := call.body], returned := g.returned + [call]) else left
  }

  function Run(g: Guard, events: seq<Event>): Guard {
    if events == [] then g else Happen(Run(g, events[..|events| - 1]), events[|events| - 1])
  }

  const FRESH := Guard(map[], map[], [])

  // ----- The object -----

  /** The weak map itself. */
  class SealedBodies {
    var sealed: map<nat, string>

    constructor ()
      ensures sealed == map[]
    {
      sealed := map[];
    }

    /** `None` for the key of an unencrypted file, which has no nonce to reuse. */
    method AssertBodyNotAlreadySealed(key: Option<nat>, body: string) returns (r: Result<(), string>)
      ensures r.Ok? <==> (key.None? || Admits(sealed, Call(key.value, body)))
    {
      if key.None? {
        return Ok(());
      }
      if key.value !in sealed || sealed[key.value] == body {
        return Ok(());
      }
      return Err("this packed file has already been sealed with a different chunk table");
    }

    method Record(key: Option<nat>, body: string)
      modifies this
      ensures sealed == if key.Some? then old(sealed)[key.value := body] else old(sealed)
    {
      if key.Some? {
        sealed := sealed[key.value := body];
      }
    }

    /** One call with nothing else going on between its check and its record. */
    method SealAlone(key: nat, body: string, succeeds: bool) returns (r: Result<string, string>)
      modifies this
      ensures var before := Guard(old(sealed), map[], []);
        var after := Run(before, [Begin(0, Call(key, body)), Finish(0, succeeds)]);
        sealed == after.sealed && (r.Ok? <==> after.returned == [Call(key, body)]) && (r.Ok? ==> r.value == body)
    {
      ghost var before := Guard(sealed, map[], []);
      ghost var first := [Begin(0, Call(key, body))];
      assert (first + [Finish(0, succeeds)])[..1] == first && first[..0] == [];
      assert Run(before, first) == Happen(before, first[0]);
      assert first + [Finish(0, succeeds)] == [Begin(0, Call(key, body)), Finish(0, succeeds)];
      var admitted := AssertBodyNotAlreadySealed(Some(key), body);
      if admitted.Err? {
        return Err(admitted.error);
      }
      if !succeeds {
        return Err("wrapping or sealing failed");
      }
      Record(Some(key), body);
      return Ok(body);
    }
  }

  // ----- Safety -----

  /** All manifests returned for one file key were sealed from one body text. */
  predicate OneBodyPerKey(calls: seq<Call>) {
    forall i, j :: 0 <= i < j < |calls| && calls[i].key == calls[j].key ==> calls[i].body == calls[j].body
  }

  /** An admitted call finds no other call in flight that is sealing the same key as something else. */
  predicate BeginsAlone(g: Guard, e: Event) {
    e.Begin? && e.id !in g.inFlight && Admits(g.sealed, e.call) ==>
      forall id :: id in g.inFlight && g.inFlight[id].key == e.call.key ==> g.inFlight[id].body == e.call.body
  }

  predicate NoRivals(g: Guard, events: seq<Event>) {
    if events == [] then true
    else NoRivals(g, events[..|events| - 1]) && BeginsAlone(Run(g, events[..|events| - 1]), events[|events| - 1])
  }

  ghost predicate Consistent(g: Guard) {
    (forall i :: 0 <= i < |g.returned| ==>
       g.returned[i].key in g.sealed && g.sealed[g.returned[i].key] == g.returned[i].body)
    && (forall id :: id in g.inFlight ==> Admits(g.sealed, g.inFlight[id]))
    && forall id, other :: id in g.inFlight && other in g.inFlight && g.inFlight[id].key == g.inFlight[other].key ==>
      g.inFlight[id].body == g.inFlight[other].body
  }

  lemma HappenKeepsConsistent(g: Guard, e: Event)
    requires Consistent(g) && BeginsAlone(g, e)
    ensures Consistent(Happen(g, e))
  {
  }

  lemma {:induction false} RunIsConsistent(events: seq<Event>)
    requires NoRivals(FRESH, events)
    ensures Consistent(Run(FRESH, events))
  {
    if events != [] {
      RunIsConsistent(events[..|events| - 1]);
      HappenKeepsConsistent(Run(FRESH, events[..|events| - 1]), events[|events| - 1]);
    }
  }

  /** Over every run in which no two different sealings of one key overlap, each key is sealed as one body only. */
  lemma NoRivalsMeansOneBody(events: seq<Event>)
    requires NoRivals(FRESH, events)
    ensures OneBodyPerKey(Run(FRESH, events).returned)
  {
    RunIsConsistent(events);
  }

  /** The guard alone is not enough: two rival calls both admitted before either records both return. */
  lemma RivalsBothReturn(g: Guard, a: nat, b: nat)
    requires a in g.inFlight && b in g.inFlight && a != b
    requires g.inFlight[a].key == g.inFlight[b].key && g.inFlight[a].body != g.inFlight[b].body
    ensures !OneBodyPerKey(Run(g, [Finish(a, true), Finish(b, true)]).returned)
  {
    var events := [Finish(a, true), Finish(b, true)];
    assert events[..1] == [Finish(a, true)] && events[..1][..0] == [];
    var first := Happen(g, Finish(a, true));
    assert Run(g, events[..1]) == first;
    var n := |g.returned|;
    var after := Happen(first, Finish(b, true)).returned;
    assert after[n] == g.inFlight[a] && after[n + 1] == g.inFlight[b];
  }

  /** Such a state is reached: begin two different sealings of one key, then let both finish. */
  lemma RivalsAreReached(key: nat, x: string, y: string)
    requires x != y
    ensures var events := [Begin(0, Call(key, x)), Begin(1, Call(key, y)), Finish(0, true), Finish(1, true)];
      Run(FRESH, events).returned == [Call(key, x), Call(key, y)] && !OneBodyPerKey(Run(FRESH, events).returned)
      && !NoRivals(FRESH, events)
  {
    var begins := [Begin(0, Call(key, x)), Begin(1, Call(key, y))];
    var events := begins + [Finish(0, true), Finish(1, true)];
    assert events == [Begin(0, Call(key, x)), Begin(1, Call(key, y)), Finish(0, true), Finish(1, true)];
    RunInParts(FRESH, [], begins[0], begins[1]);
    assert [] + begins == begins;
    RunInParts(FRESH, begins, Finish(0, true), Finish(1, true));
    var first := Happen(FRESH, begins[0]);
    assert first.inFlight == map[0 := Call(key, x)];
    assert !BeginsAlone(first, begins[1]);
    var calls := Run(FRESH, events).returned;
    assert calls == [Call(key, x), Call(key, y)];
    assert calls[0].key == calls[1].key && calls[0].body != calls[1].body;
  }

  /** The calls that have returned a manifest and those that still may. */
  ghost predicate Sealed(g: Guard, call: Call) {
    call in g.returned || exists id :: id in g.inFlight && g.inFlight[id] == call
  }

  ghost predicate Agree(g: Guard) {
    forall c, d :: Sealed(g, c) && Sealed(g, d) && c.key == d.key ==> c.body == d.body
  }

  predicate AllFinish(events: seq<Event>) {
    forall e :: e in events ==> e.Finish?
  }

  lemma {:induction false} FinishingSealsNothingNew(g: Guard, events: seq<Event>, call: Call)
    requires AllFinish(events) && Sealed(Run(g, events), call)
    ensures Sealed(g, call)
  {
    if events != [] {
      var before := Run(g, events[..|events| - 1]);
      var e := events[|events| - 1];
      assert e in events;
      if !Sealed(before, call) {
        assert Happen(before, e).inFlight.Items <= before.inFlight.Items;
      }
      FinishingSealsNothingNew(g, events[..|events| - 1], call);
    }
  }

  lemma AgreeingCallsAreSafe(g: Guard, events: seq<Event>)
    requires Agree(g) && AllFinish(events)
    ensures OneBodyPerKey(Run(g, events).returned)
  {
    var calls := Run(g, events).returned;
    forall i, j | 0 <= i < j < |calls| && calls[i].key == calls[j].key ensures calls[i].body == calls[j].body {
      FinishingSealsNothingNew(g, events, calls[i]);
      FinishingSealsNothingNew(g, events, calls[j]);
    }
  }

  ghost predicate SafeHowever(g: Guard) {
    forall events: seq<Event> :: AllFinish(events) ==> OneBodyPerKey(Run(g, events).returned)
  }

  lemma FinishReturns(g: Guard, id: nat)
    requires id in g.inFlight
    ensures AllFinish([Finish(id, true)])
    ensures Run(g, [Finish(id, true)]).returned == g.returned + [g.inFlight[id]]
  {
    var events := [Finish(id, true)];
    assert events[..0] == [];
    assert Run(g, []) == g;
  }

  /** A call that returned and one still in flight that disagrees with it. */
  lemma LateRivalReturns(g: Guard, i: nat, id: nat)
    requires i < |g.returned| && id in g.inFlight
    requires g.returned[i].key == g.inFlight[id].key && g.returned[i].body != g.inFlight[id].body
    ensures !SafeHowever(g)
  {
    FinishReturns(g, id);
    var calls := Run(g, [Finish(id, true)]).returned;
    assert calls[i] == g.returned[i] && calls[|g.returned|] == g.inFlight[id];
  }

  lemma DisagreeingCallsAreUnsafe(g: Guard, c: Call, d: Call)
    requires Sealed(g, c) && Sealed(g, d) && c.key == d.key && c.body != d.body
    ensures !SafeHowever(g)
  {
    if c in g.returned && d in g.returned {
      assert AllFinish([]) && Run(g, []) == g;
    } else if c in g.returned {
      var i :| 0 <= i < |g.returned| && g.returned[i] == c;
      var id :| id in g.inFlight && g.inFlight[id] == d;
      LateRivalReturns(g, i, id);
    } else if d in g.returned {
      var i :| 0 <= i < |g.returned| && g.returned[i] == d;
      var id :| id in g.inFlight && g.inFlight[id] == c;
      LateRivalReturns(g, i, id);
    } else {
      var a :| a in g.inFlight && g.inFlight[a] == c;
      var b :| b in g.inFlight && g.inFlight[b] == d;
      RivalsBothReturn(g, a, b);
      assert AllFinish([Finish(a, true), Finish(b, true)]);
    }
  }

  /**
   * Exactly when the calls already admitted can do no harm, in whatever order and with whatever outcome they finish:
   * the guard is not asked again, so it is when those returned and those in flight agree on the body of each key.
   */
  lemma SafeIffAllAgree(g: Guard)
    ensures SafeHowever(g) <==> Agree(g)
  {
    if Agree(g) {
      forall events: seq<Event> | AllFinish(events) ensures OneBodyPerKey(Run(g, events).returned) {
        AgreeingCallsAreSafe(g, events);
      }
    } else {
      var c, d :| Sealed(g, c) && Sealed(g, d) && c.key == d.key && c.body != d.body;
      DisagreeingCallsAreUnsafe(g, c, d);
    }
  }

  // ----- Exactly which runs are safe throughout -----

  /** At no point of the run can the calls then in flight seal one key as two bodies, however they finish. */
  ghost predicate SafeThroughout(events: seq<Event>) {
    forall n :: 0 <= n <= |events| ==> SafeHowever(Run(FRESH, events[..n]))
  }

  lemma ConsistentIsSafe(g: Guard)
    requires Consistent(g)
    ensures SafeHowever(g)
  {
    forall c, d | Sealed(g, c) && Sealed(g, d) && c.key == d.key ensures c.body == d.body {
      SealedAgreesWithRecord(g, c);
      SealedAgreesWithRecord(g, d);
    }
    SafeIffAllAgree(g);
  }

  /** In a consistent state a call returned is the one recorded, and one in flight is admitted by the record. */
  lemma SealedAgreesWithRecord(g: Guard, call: Call)
    requires Consistent(g) && Sealed(g, call)
    ensures call.key in g.sealed ==> g.sealed[call.key] == call.body
    ensures call in g.returned ==> call.key in g.sealed
  {
    if call in g.returned {
      var i :| 0 <= i < |g.returned| && g.returned[i] == call;
      assert g.returned[i].key in g.sealed;
    }
  }

  /** A call that begins beside a rival makes the state unsafe. */
  lemma RivalBeginIsUnsafe(g: Guard, e: Event)
    requires !BeginsAlone(g, e)
    ensures !SafeHowever(Happen(g, e))
  {
    var id :| id in g.inFlight && g.inFlight[id].key == e.call.key && g.inFlight[id].body != e.call.body;
    var after := Happen(g, e);
    assert after.inFlight[e.id] == e.call && after.inFlight[id] == g.inFlight[id];
    DisagreeingCallsAreUnsafe(after, e.call, g.inFlight[id]);
  }

  lemma {:induction false} NoRivalsMeansSafe(events: seq<Event>, n: nat)
    requires NoRivals(FRESH, events) && n <= |events|
    ensures SafeHowever(Run(FRESH, events[..n]))
  {
    if n == |events| {
      assert events[..n] == events;
      RunIsConsistent(events);
      ConsistentIsSafe(Run(FRESH, events));
    } else {
      NoRivalsMeansSafe(events[..|events| - 1], n);
      assert events[..|events| - 1][..n] == events[..n];
    }
  }

  lemma {:induction false} SafeMeansNoRivals(events: seq<Event>)
    requires SafeThroughout(events)
    ensures NoRivals(FRESH, events)
  {
    if events != [] {
      var n := |events| - 1;
      var front := events[..n];
      forall k | 0 <= k <= n ensures SafeHowever(Run(FRESH, front[..k])) {
        assert front[..k] == events[..k];
      }
      SafeMeansNoRivals(front);
      assert events[..n + 1] == events;
      if !BeginsAlone(Run(FRESH, front), events[n]) {
        RivalBeginIsUnsafe(Run(FRESH, front), events[n]);
      }
    }
  }

  /**
   * Exactly when the guard protects, over whole runs: no two manifests for one key can be sealed from two bodies at any
   * point, however what is in flight there finishes, if and only if no call begins while a rival of it is in flight.
   * Whether one is, a caller knows before it begins.
   */
  lemma GuardProtectsExactly(events: seq<Event>)
    ensures NoRivals(FRESH, events) <==> SafeThroughout(events)
  {
    if NoRivals(FRESH, events) {
      forall n | 0 <= n <= |events| ensures SafeHowever(Run(FRESH, events[..n])) {
        NoRivalsMeansSafe(events, n);
      }
    } else if SafeThroughout(events) {
      SafeMeansNoRivals(events);
    }
  }

  // ----- Calls one after another -----

  datatype Attempt = Attempt(call: Call, succeeds: bool)

  /** Every call finishes before the next begins. */
  function InTurn(attempts: seq<Attempt>): seq<Event> {
    if attempts == [] then []
    else
      var n := |attempts| - 1;
      InTurn(attempts[..n]) + [Begin(n, attempts[n].call), Finish(n, attempts[n].succeeds)]
  }

  lemma RunInParts(g: Guard, events: seq<Event>, a: Event, b: Event)
    ensures Run(g, events + [a, b]) == Happen(Happen(Run(g, events), a), b)
    ensures NoRivals(g, events + [a, b]) <==>
      NoRivals(g, events) && BeginsAlone(Run(g, events), a) && BeginsAlone(Happen(Run(g, events), a), b)
  {
    var all := events + [a, b];
    assert all[..|all| - 1] == events + [a] && (events + [a])[..|events|] == events;
  }

  lemma {:induction false} InTurnHasNoRivals(attempts: seq<Attempt>)
    ensures NoRivals(FRESH, InTurn(attempts)) && Run(FRESH, InTurn(attempts)).inFlight == map[]
  {
    if attempts != [] {
      var n := |attempts| - 1;
      InTurnHasNoRivals(attempts[..n]);
      RunInParts(FRESH, InTurn(attempts[..n]), Begin(n, attempts[n].call), Finish(n, attempts[n].succeeds));
    }
  }

  /** So over every run of calls that do not overlap, retried, repeated or failed, the guard does what it is for. */
  lemma SequentialSealingIsSafe(attempts: seq<Attempt>)
    ensures OneBodyPerKey(Run(FRESH, InTurn(attempts)).returned)
  {
    InTurnHasNoRivals(attempts);
    NoRivalsMeansOneBody(InTurn(attempts));
  }

  function Succeeded(attempts: seq<Attempt>): seq<Call> {
    if attempts == [] then []
    else
      var n := |attempts| - 1;
      Succeeded(attempts[..n]) + (if attempts[n].succeeds then [attempts[n].call] else [])
  }

  predicate Agreeing(attempts: seq<Attempt>) {
    forall i, j :: 0 <= i < |attempts| && 0 <= j < |attempts| && attempts[i].call.key == attempts[j].call.key ==>
      attempts[i].call.body == attempts[j].call.body
  }

  /** Nor does it stand in the way: as long as each key is used for one body, every call that succeeds returns. */
  lemma {:induction false} AgreeingCallsReturn(attempts: seq<Attempt>)
    requires Agreeing(attempts)
    ensures var g := Run(FRESH, InTurn(attempts));
      g.returned == Succeeded(attempts)
      && forall key :: key in g.sealed ==> IsAttempted(attempts, Call(key, g.sealed[key]))
  {
    if attempts != [] {
      var n := |attempts| - 1;
      var last := attempts[n];
      var before := Run(FRESH, InTurn(attempts[..n]));
      AgreeingCallsReturn(attempts[..n]);
      InTurnHasNoRivals(attempts[..n]);
      RunInParts(FRESH, InTurn(attempts[..n]), Begin(n, last.call), Finish(n, last.succeeds));
      forall key | key in before.sealed ensures IsAttempted(attempts, Call(key, before.sealed[key])) {
        var i :| 0 <= i < n && attempts[..n][i].call == Call(key, before.sealed[key]);
        assert attempts[i].call == Call(key, before.sealed[key]);
      }
      if last.call.key in before.sealed {
        var i :| 0 <= i < |attempts| && attempts[i].call == Call(last.call.key, before.sealed[last.call.key]);
        assert attempts[i].call.body == last.call.body;
      }
      assert attempts[n].call == last.call;
      OneCallReturns(before, n, last);
    }
  }

  predicate IsAttempted(attempts: seq<Attempt>, call: Call) {
    exists i :: 0 <= i < |attempts| && attempts[i].call == call
  }

  lemma OneCallReturns(g: Guard, n: nat, last: Attempt)
    requires g.inFlight == map[] && Admits(g.sealed, last.call)
    ensures var after := Happen(Happen(g, Begin(n, last.call)), Finish(n, last.succeeds));
      after.returned == g.returned + (if last.succeeds then [last.call] else [])
      && after.sealed == (if last.succeeds then g.sealed[last.call.key := last.call.body] else g.sealed)
  {
  }
}
