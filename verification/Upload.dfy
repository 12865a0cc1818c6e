/**
 * Uploading many chunks at once (js/storage/ipfs.js, putAll): a pool of workers sharing a cursor and a stop flag.
 *
 * Code between awaits is atomic, so a run is a sequence of events: a put of some worker settles and that worker goes
 * on until its next put, or the caller aborts.  Puts settle in any order.
 */
module Upload {
  import opened Bytes
  import opened Numbers
  import opened Text
  import opened Wrappers

  datatype Error = Error(isAbort: bool, message: string)

  const ABORTED := Error(true, "operation aborted")

  datatype Outcome = Stored(location: string) | Failed(error: Error)

  /** A put that was begun: which chunk, what was sent under which name, by which worker, and how it ended. */
  datatype Put = Put(index: nat, payload: Bytes, name: string, worker: nat, result: Option<Outcome>)

  datatype Worker = Ready | Putting(slot: nat) | Returned | Threw(error: Error)

  /** The empty string stands for a location that is not there yet. */
  datatype Pool = Pool(
    payloads: seq<Bytes>, prefix: string, resumed: seq<string>, pending: seq<nat>,
    cursor: nat, done: nat, locations: seq<string>, stopped: bool, failure: Option<Error>,
    workers: seq<Worker>,
    rejected: Option<Error>,    // the first worker's error, with which Promise.all rejects
    puts: seq<Put>,             // every put begun, in order
    broken: seq<Error>,         // the errors of the puts that failed, in order
    callerAborted: bool)

  // ----- Names -----

  /** `padStart`: zeros in front up to a width, and nothing cut off beyond it. */
  function PadStart(s: string, width: nat): string
    decreases width - |s|
  {
    if |s| >= width then s else PadStart("0" + s, width)
  }

  /** The name a chunk is stored under. */
  function ChunkName(prefix: string, index: nat): string {
    prefix + "-" + PadStart(Decimal(index), 6)
  }

  // ----- Steps -----

  function OrElse(a: Option<Error>, e: Error): Option<Error> {
    if a.Some? then a else Some(e)
  }

  /** Worker `w` at the top of its loop, until it awaits a put or leaves. */
  function Next(s: Pool, w: nat): Pool
    requires w < |s.workers|
  {
    if s.stopped then s.(workers := s.workers[w := Threw(ABORTED)], rejected := OrElse(s.rejected, ABORTED))
    else if s.cursor >= |s.pending| then s.(cursor := s.cursor + 1, workers := s.workers[w := Returned])
    else
      var index := s.pending[s.cursor];
      s.(cursor := s.cursor + 1, workers := s.workers[w := Putting(s.cursor)],
         puts := s.puts + [Put(index, if index < |s.payloads| then s.payloads[index] else [],
                               ChunkName(s.prefix, index), w, None)])
  }

  lemma NextKeepsWorkers(s: Pool, w: nat)
    requires w < |s.workers|
    ensures |Next(s, w).workers| == |s.workers|
  {
  }

  function Settle(s: Pool, w: nat, outcome: Outcome): Pool
    requires Waiting(s, w)
  {
    var slot := s.workers[w].slot;
    var settled := s.(puts := s.puts[slot := s.puts[slot].(result := Some(outcome))]);
    match outcome
    case Stored(location) =>
      Next(settled.(locations := s.locations[s.puts[slot].index := location], done := s.done + 1), w)
    case Failed(error) =>
      settled.(failure := if s.failure.None? && !(error.isAbort && s.stopped) then Some(error) else s.failure,
               stopped := true, workers := s.workers[w := Threw(error)], rejected := OrElse(s.rejected, error),
               broken := s.broken + [error])
  }

  predicate Waiting(s: Pool, w: nat) {
    w < |s.workers| && s.workers[w].Putting? && s.workers[w].slot < |s.puts|
    && s.puts[s.workers[w].slot].index < |s.locations|
  }

  datatype Event = Settles(worker: nat, outcome: Outcome) | CallerAborts

  function Happen(s: Pool, e: Event): Pool {
    match e
    case Settles(w, outcome) => if Waiting(s, w) then Settle(s, w, outcome) else s
    case CallerAborts => s.(stopped := true, callerAborted := true)
  }

  function Run(s: Pool, events: seq<Event>): Pool {
    if events == [] then s else Happen(Run(s, events[..|events| - 1]), events[|events| - 1])
  }

  // ----- The start -----

  function Pending(resumed: seq<string>, n: nat): seq<nat>
    requires n <= |resumed|
  {
    if n == 0 then [] else Pending(resumed, n - 1) + (if resumed[n - 1] == "" then [n - 1] else [])
  }

  function Prepared(payloads: seq<Bytes>, prefix: string, resumed: seq<string>, width: nat): Pool
    requires |resumed| == |payloads|
  {
    var pending := Pending(resumed, |resumed|);
    Pool(payloads, prefix, resumed, pending, 0, if |pending| <= |payloads| then |payloads| - |pending| else 0, resumed,
         false, None, seq(width, _ => Ready), None, [], [], false)
  }

  /** The workers start one after another, each running to its first put, before anything can settle. */
  function BeginFrom(s: Pool, w: nat): Pool
    decreases |s.workers| - w
  {
    if w >= |s.workers| then s else BeginFrom(Next(s, w), w + 1)
  }

  function Started(payloads: seq<Bytes>, prefix: string, resumed: seq<string>, concurrency: int): Pool
    requires |resumed| == |payloads|
  {
    BeginFrom(Prepared(payloads, prefix, resumed, Width(concurrency, |Pending(resumed, |resumed|)|)), 0)
  }

  // ----- The end -----

  datatype Ending = Returns(locations: seq<string>) | DidNotUpload(index: nat) | Throws(error: Error)

  /** The error putAll throws once a worker has rejected. */
  function Thrown(s: Pool): Option<Error> {
    if s.failure.Some? then s.failure else s.rejected
  }

  predicate IsFirstMissing(locations: seq<string>, index: nat) {
    index < |locations| && locations[index] == "" && "" !in locations[..index]
  }

  // ----- The object -----

  class Uploader {
    const payloads: seq<Bytes>
    const prefix: string
    const resumed: seq<string>
    var pending: seq<nat>
    var cursor: nat
    var done: nat
    var locations: seq<string>
    var stopped: bool
    var failure: Option<Error>
    var workers: seq<Worker>
    var rejected: Option<Error>
    ghost var puts: seq<Put>
    ghost var broken: seq<Error>
    ghost var callerAborted: bool

    ghost function State(): Pool
      reads this
    {
      Pool(payloads, prefix, resumed, pending, cursor, done, locations, stopped, failure, workers, rejected, puts,
           broken, callerAborted)
    }

    constructor (payloads: seq<Bytes>, prefix: string, resumeFrom: seq<string>, concurrency: int)
      requires |resumeFrom| == |payloads|
      ensures State() == Started(payloads, prefix, resumeFrom, concurrency)
    {
      this.payloads, this.prefix, this.resumed := payloads, prefix, resumeFrom;
      pending, cursor, stopped, failure, rejected := [], 0, false, None, None;
      locations, done, workers := resumeFrom, 0, [];
      puts, broken, callerAborted := [], [], false;
      new;
      for i := 0 to |payloads|
        modifies this
        invariant pending == Pending(resumeFrom, i) && |pending| <= i
        invariant State()
               == Pool(payloads, prefix, resumeFrom, pending, 0, 0, resumeFrom, false, None, [], None, [], [], false)
      {
        if locations[i] == "" {
          pending := pending + [i];
        }
      }
      done := |payloads| - |pending|;
      var width := Width(concurrency, |pending|);
      workers := seq(width, _ => Ready);
      BeginAll();
    }

    /** Each worker runs up to its first await before the next one starts. */
    method BeginAll()
      modifies this
      ensures State() == BeginFrom(old(State()), 0)
    {
      ghost var before := State();
      for w := 0 to |workers|
        modifies this
        invariant |workers| == |before.workers|
        invariant BeginFrom(State(), w) == BeginFrom(before, 0)
      {
        NextKeepsWorkers(State(), w);
        Continue(w);
      }
    }

    /** One turn of a worker's loop, up to its await. */
    method Continue(w: nat)
      requires w < |workers|
      modifies this
      ensures State() == Next(old(State()), w)
    {
      if stopped {
        workers := workers[w := Threw(ABORTED)];
        rejected := OrElse(rejected, ABORTED);
        return;
      }
      var slot := cursor;
      cursor := cursor + 1;
      if slot >= |pending| {
        workers := workers[w := Returned];
        return;
      }
      var index := pending[slot];
      workers := workers[w := Putting(slot)];
      var name := prefix + "-" + PadStart(Decimal(index), 6);
      puts := puts + [Put(index, if index < |payloads| then payloads[index] else [], name, w, None)];
    }

    /** The put that worker `w` awaits has settled: what follows its await. */
    method Resume(w: nat, outcome: Outcome)
      requires Waiting(State(), w)
      requires pending == Pending(resumed, |resumed|) && workers[w].slot < |pending|
      requires puts[workers[w].slot].index == pending[workers[w].slot]
      modifies this
      ensures State() == Settle(old(State()), w, outcome)
    {
      var slot := workers[w].slot;
      var index := pending[slot];
      puts := puts[slot := puts[slot].(result := Some(outcome))];
      match outcome
      case Stored(location) =>
        locations := locations[index := location];
        done := done + 1;
        Continue(w);
      case Failed(error) =>
        if failure.None? && !(error.isAbort && stopped) {
          failure := Some(error);
        }
        stopped := true;
        workers := workers[w := Threw(error)];
        rejected := OrElse(rejected, error);
        broken := broken + [error];
    }

    /** The caller's signal is relayed to the shared stop flag. */
    method Abort()
      modifies this
      ensures State() == Happen(old(State()), CallerAborts)
    {
      stopped := true;
      callerAborted := true;
    }

    /** What putAll does once a worker has rejected or all have returned. */
    method Collect() returns (r: Ending)
      ensures rejected.Some? ==> r == Throws(Thrown(State()).value)
      ensures rejected.None? && "" !in locations ==> r == Returns(locations)
      ensures rejected.None? && "" in locations ==> r.DidNotUpload? && IsFirstMissing(locations, r.index)
    {
      if rejected.Some? {
        return Throws(if failure.Some? then failure.value else rejected.value);
      }
      for i := 0 to |locations|
        invariant "" !in locations[..i]
      {
        if locations[i] == "" {
          return DidNotUpload(i);
        }
      }
      assert locations[..|locations|] == locations;
      return Returns(locations);
    }
  }

  /** A signal aborted beforehand is thrown before any worker starts. */
  method Begin(payloads: seq<Bytes>, prefix: string, resumeFrom: seq<string>, concurrency: int, aborted: bool)
    returns (r: Result<Uploader, Error>)
    requires |resumeFrom| == |payloads|
    ensures r.Err? <==> aborted
    ensures r.Err? ==> r.error == ABORTED
    ensures r.Ok? ==> fresh(r.value) && r.value.State() == Started(payloads, prefix, resumeFrom, concurrency)
  {
    if aborted {
      return Err(ABORTED);
    }
    var uploader := new Uploader(payloads, prefix, resumeFrom, concurrency);
    return Ok(uploader);
  }
}
