/**
 PactSync and the recording side of PactMonitor. Each method is one synchronous section of the code,
 from one await to the next, and is shown to be one event of the delivery system; the results of
 module Delivery are thereby results about these methods in any interleaving.
 */
module Sync {

  import opened Wrappers
  import opened RecordFile
  import opened Storage
  import opened Delivery

  class PactSync {
    const storage: PactStorage
    const batchSize: int
    var flushInFlight: bool
    var authFailed: bool
    var timer: bool

    // What the event loop and the backend remember: the suspended activations of doFlush, the events
    // emitted, and what the backend has stored.
    ghost var tasks: seq<Task>
    ghost var posts: nat
    ghost var authErrors: nat
    ghost var syncErrors: nat
    ghost var log: seq<nat>
    ghost var lost: seq<nat>
    ghost var adrift: seq<seq<nat>>

    constructor (storage: PactStorage, batchSize: int)
      requires storage.Valid()
      ensures this.storage == storage && this.batchSize == batchSize && Valid() && !timer
      ensures System()
            == Delivery.Start(storage.Records(), batchSize).(senders := [NewSender(batchSize).(timerOn := false)])
    {
      this.storage, this.batchSize := storage, batchSize;
      flushInFlight, authFailed, timer := false, false, false;
      tasks, posts, authErrors, syncErrors := [], 0, 0, 0;
      log, lost, adrift := [], [], [];
    }

    ghost predicate Valid()
      reads this, storage
    {
      storage.Valid()
    }

    ghost function System(): System
      reads this, storage
      requires Valid()
    {
      Delivery.System(
        storage.Records(),
        [Sender(batchSize, flushInFlight, tasks, authFailed, timer, posts, authErrors, syncErrors)],
        log, lost, adrift)
    }

    method Start()
      requires Valid()
      modifies this`timer
      ensures Valid() && timer
    {
      timer := true;
    }

    method Stop()
      requires Valid()
      modifies this`timer
      ensures Valid() && !timer
      ensures System() == WithSender(old(System()), 0, old(System()).senders[0].(timerOn := false))
    {
      timer := false;
    }

    // The records of the POST that is sent, if one is sent.
    method Flush() returns (request: Option<seq<CallRecord>>)
      requires Valid()
      modifies this
      ensures Valid() && unchanged(storage)
      ensures System() == Step(old(System()), Event.Flush(0))
      ensures request.None? <==> old(flushInFlight) || old(authFailed) || Unsynced(storage.Records()) == []
      ensures request.Some? ==> request.value <= Unsynced(storage.Records())
      ensures request.Some? && 1 <= batchSize ==> |request.value| == Min(|Unsynced(storage.Records())|, batchSize)
      ensures request.Some? <==> posts == old(posts) + 1
      ensures request.Some? ==> 0 < |tasks| && tasks[|tasks| - 1].Posting? && tasks[|tasks| - 1].batch == request.value
    {
      if flushInFlight { return None; }
      flushInFlight := true;
      request := DoFlush();
    }

    method DoFlush() returns (request: Option<seq<CallRecord>>)
      requires Valid()
      modifies this`tasks, this`posts
      ensures Valid() && unchanged(storage)
      ensures var x := FlushStep(storage.Records(), old(System()).senders[0].(guard := false));
              tasks == x.tasks && posts == x.posts
      ensures request.None? <==> authFailed || Unsynced(storage.Records()) == []
      ensures request.Some? ==> request.value <= Unsynced(storage.Records())
      ensures request.Some? && 1 <= batchSize ==> |request.value| == Min(|Unsynced(storage.Records())|, batchSize)
      ensures request.Some? <==> posts == old(posts) + 1
      ensures request.Some? ==> 0 < |tasks| && tasks[|tasks| - 1].Posting? && tasks[|tasks| - 1].batch == request.value
    {
      tasks := tasks + [Settling];
      if authFailed { return None; }
      var unsynced := storage.GetUnsynced();
      if |unsynced.value| == 0 { return None; }
      var batch := unsynced.value[..SliceLength(|unsynced.value|, batchSize)];
      PendingMeaning(storage.Records());
      tasks := tasks[..|tasks| - 1] + [Posting(batch, [], Pending(storage.Records())[..|batch|])];
      posts := posts + 1;
      request := Some(batch);
    }

    // The code after "await fetch". Returns the status whose body is awaited next, if any.
    method Answered(ghost t: nat, batch: seq<CallRecord>, answer: Answer) returns (awaited: Option<int>)
      requires Valid() && Enabled(System(), Respond(0, t, answer)) && tasks[t].batch == batch
      modifies this, storage
      ensures Valid()
      ensures System() == Step(old(System()), Respond(0, t, answer))
      ensures awaited.Some? ==> t < |tasks| && tasks[t] == ReadingBody(awaited.value)
      ensures awaited == if answer.Status? && !(200 <= answer.code < 300) then Some(answer.code) else None
      ensures answer.Status? && 200 <= answer.code < 300 ==>
                storage.Records() == MarkFirst(old(storage.Records()), |batch|)
      ensures !(answer.Status? && 200 <= answer.code < 300) ==> storage.Records() == old(storage.Records())
    {
      ghost var task := tasks[t];
      awaited := None;
      tasks := tasks[t := Settling];
      if answer.IsOk() {
        var ok := storage.MarkSynced(|batch|);
      } else if answer.Status? {
        awaited := Some(answer.code);
        tasks := tasks[t := ReadingBody(answer.code)];
      }
      if !answer.IsOk() {
        lost := lost + task.done;
        adrift := adrift + [task.left];
      }
      assert tasks == old(tasks)[t := if answer.Status? && !answer.IsOk() then ReadingBody(answer.code) else Settling];
      ghost var x := old(System()).senders[0].(tasks := tasks);
      assert System().senders == old(System()).senders[0 := x];
    }

    // The code after "await response.text()".
    method GotBody(ghost t: nat, status: int, listenerThrows: bool)
      requires Valid() && Enabled(System(), BodyRead(0, t, listenerThrows)) && tasks[t].status == status
      modifies this
      ensures Valid() && unchanged(storage)
      ensures System() == Step(old(System()), BodyRead(0, t, listenerThrows))
      ensures status == 401 || status == 403 ==>
                && authFailed && syncErrors == old(syncErrors)
                && authErrors == old(authErrors) + (if old(authFailed) then 0 else 1)
                && (!old(authFailed) && !listenerThrows ==> !timer)
      ensures status != 401 && status != 403 ==>
                && authFailed == old(authFailed) && authErrors == old(authErrors)
                && syncErrors == old(syncErrors) + 1 && timer == old(timer)
    {
      tasks := tasks[t := Settling];
      if IsAuthStatus(status) {
        if !authFailed {
          authFailed := true;
          authErrors := authErrors + 1;
          if !listenerThrows {
            Stop();
          }
        }
      } else {
        syncErrors := syncErrors + 1;
      }
    }

    // The callback of "finally".
    method Settle(ghost t: nat)
      requires Valid() && Enabled(System(), Finally(0, t))
      modifies this
      ensures Valid() && unchanged(storage)
      ensures System() == Step(old(System()), Finally(0, t))
    {
      tasks := tasks[..t] + tasks[t + 1..];
      flushInFlight := false;
    }
  }

  // ---------------------------------------------------------------------------------------------
  // Failure events over a whole run
  // ---------------------------------------------------------------------------------------------

  predicate IsFailure(r: CallRecord) {
    r.classification != Success
  }

  // The failure events of a run: one for each appended record that is a failure.
  ghost function FailureEvents(events: seq<Event>): nat {
    if events == [] then 0
    else (if events[0].Append? && IsFailure(events[0].record) then 1 else 0) + FailureEvents(events[1..])
  }

  /**
   In every run, with any number of senders, the failures that the statistics count grow by the failure
   events emitted; delivery has no influence on them. From an empty file they are the same.
   */
  lemma {:induction false} FailuresOverRun(s: System, events: seq<Event>)
    requires IsRun(s, events)
    ensures CountFailures(Run(s, events).records) == CountFailures(s.records) + FailureEvents(events)
    ensures s.records == [] ==> CountFailures(Run(s, events).records) == FailureEvents(events)
    decreases |events|
  {
    if events != [] {
      var e := events[0];
      if e.Append? {
        CountFailuresAppend(s.records, e.record);
      } else if e.Respond? && e.answer.IsOk() {
        MarkKeepsStats(s.records, |s.senders[e.k].tasks[e.t].batch|, "");
      }
      assert CountFailures(Step(s, e).records) == CountFailures(s.records) + FailureEvents([e]) by {
        assert FailureEvents([e][1..]) == 0;
      }
      FailuresOverRun(Step(s, e), events[1..]);
    }
  }

  class PactMonitor {
    const storage: PactStorage
    const sync: PactSync
    var failureEvents: nat
    var billedEvents: nat

    constructor (storage: PactStorage, batchSize: int)
      requires storage.Valid()
      ensures this.storage == storage && sync.storage == storage && sync.Valid() && fresh(sync)
      ensures sync.System() == Delivery.Start(storage.Records(), batchSize) && sync.timer
      ensures failureEvents == 0 && billedEvents == 0
    {
      var s := new PactSync(storage, batchSize);
      s.Start();
      this.storage, sync := storage, s;
      failureEvents, billedEvents := 0, 0;
    }

    // recordCall: the record is appended unsynced, whatever the listeners do. A failure event is emitted
    // exactly for a record that counts as a failure. A listener that throws ends the call early, and
    // fetch swallows what it throws.
    method RecordCall(call: CallRecord, failureThrows: bool, billedThrows: bool) returns (thrown: bool)
      requires sync.storage == storage && sync.Valid()
      modifies this, storage
      ensures sync.Valid()
      ensures sync.System() == Step(old(sync.System()), Event.Append(call.(synced := false)))
      ensures failureEvents == old(failureEvents) + if IsFailure(call) then 1 else 0
      ensures failureEvents - old(failureEvents)
           == CountFailures(storage.Records()) - old(CountFailures(storage.Records()))
      ensures billedEvents == old(billedEvents) + if IsFailure(call) && failureThrows then 0 else 1
      ensures thrown <==> (IsFailure(call) && failureThrows) || billedThrows
    {
      var record := call.(synced := false);
      CountFailuresAppend(storage.Records(), record);
      storage.Append(record);
      if record.classification != Success {
        failureEvents := failureEvents + 1;
        if failureThrows { return true; }
      }
      billedEvents := billedEvents + 1;
      thrown := billedThrows;
    }

    method Shutdown() returns (request: Option<seq<CallRecord>>)
      requires sync.storage == storage && sync.Valid()
      modifies sync
      ensures sync.Valid() && unchanged(storage)
      ensures sync.System() == Step(old(sync.System()), Event.Shutdown(0))
      ensures !sync.timer
      ensures request.None? <==> old(sync.flushInFlight) || old(sync.authFailed) || Unsynced(storage.Records()) == []
      ensures request.Some? ==> request.value <= Unsynced(storage.Records()) && sync.posts == old(sync.posts) + 1
    {
      request := sync.Flush();
      ghost var flushed := sync.System();
      sync.Stop();
      assert sync.System().senders == old(sync.System()).senders[0 := flushed.senders[0].(timerOn := false)];
    }
  }
}
