/**
 The delivery of call records: senders that drain one record file in batches, asynchronously,
 while calls keep being appended.

 Every synchronous section of the code is one event; between two of them anything else may happen.
 A flush takes the first unsynced records, posts them and waits; only when the answer arrives does
 it mark "the first batch.length unsynced records", by position, in the file as it is then. The
 main results say when that is right: with one sender on the file, in every interleaving.
 */
module Delivery {

  import opened RecordFile

  // ---------------------------------------------------------------------------------------------
  // State
  // ---------------------------------------------------------------------------------------------

  // The answer to a POST: an HTTP status, or an exception out of fetch.
  datatype Answer = Status(code: int) | Thrown {
    predicate IsOk() {
      Status? && 200 <= code <= 299
    }
  }

  predicate IsAuthStatus(code: int) {
    code == 401 || code == 403
  }

  /**
   One activation of doFlush, suspended where it waits. While it waits for the answer to its POST, the
   backend processes the batch record by record: "done" holds the file positions of the records that it
   has processed, "left" those of the others. Both are bookkeeping of the specification; no decision of
   the sender depends on them.
   */
  datatype Task =
    | Posting(batch: seq<CallRecord>, done: seq<nat>, left: seq<nat>)  // await fetch(...)
    | ReadingBody(status: int)                                         // await response.text()
    | Settling                                                         // done; "finally" has not run yet
  {
    ghost function At(): seq<nat>
      requires Posting?
    {
      done + left
    }
  }

  datatype Sender = Sender(
    batchSize: int,
    guard: bool,        // flushInFlight is not null
    tasks: seq<Task>,
    authFailed: bool,
    timerOn: bool,
    posts: nat,         // POSTs sent so far
    authErrors: nat,    // auth_error events so far
    syncErrors: nat)    // sync_error events so far

  /**
   The record file, the senders that work on it, and what the backend has stored: the file positions
   of the records it has processed, in that order. "lost" lists the processed positions whose
   acknowledgement did not reach the sender, "adrift" the rests of batches whose sender was not told of
   success, and which the backend may still process.
   */
  datatype System = System(
    records: seq<CallRecord>,
    senders: seq<Sender>,
    log: seq<nat>,
    lost: seq<nat>,
    adrift: seq<seq<nat>>)

  // ---------------------------------------------------------------------------------------------
  // Events
  // ---------------------------------------------------------------------------------------------

  datatype Event =
    | Append(record: CallRecord)
    | Tick(k: nat)                          // the interval timer calls flush()
    | Flush(k: nat)                         // someone else calls flush()
    | Shutdown(k: nat)                      // flush(), then stop()
    | Accept(k: nat, t: nat, n: nat)        // the backend processes the next n records of a batch
    | AcceptLate(j: nat, n: nat)            // ... after its sender has got another answer, or none
    | Respond(k: nat, t: nat, answer: Answer)
    | BodyRead(k: nat, t: nat, listenerThrows: bool)
    | Finally(k: nat, t: nat)

  ghost predicate HasTask(s: System, k: nat, t: nat) {
    k < |s.senders| && t < |s.senders[k].tasks|
  }

  // When an event can happen. A new record is unsynced; a success answer means that the backend
  // has processed the whole batch, any other answer says nothing about that.
  ghost predicate Enabled(s: System, e: Event) {
    match e
    case Append(record) => !record.synced
    case Tick(k) => k < |s.senders| && s.senders[k].timerOn
    case Flush(k) => k < |s.senders|
    case Shutdown(k) => k < |s.senders|
    case Accept(k, t, n) =>
      HasTask(s, k, t) && s.senders[k].tasks[t].Posting? && n <= |s.senders[k].tasks[t].left|
    case AcceptLate(j, n) => j < |s.adrift| && n <= |s.adrift[j]|
    case Respond(k, t, answer) =>
      && HasTask(s, k, t) && s.senders[k].tasks[t].Posting?
      && (answer.IsOk() ==> s.senders[k].tasks[t].left == [])
    case BodyRead(k, t, _) => HasTask(s, k, t) && s.senders[k].tasks[t].ReadingBody?
    case Finally(k, t) => HasTask(s, k, t) && s.senders[k].tasks[t].Settling?
  }

  function Min(a: nat, b: nat): nat {
    if a < b then a else b
  }

  // How many elements slice(0, end) keeps of n.
  function SliceLength(n: nat, end: int): (len: nat)
    ensures len <= n && (0 <= end ==> len == Min(n, end))
    ensures end < 0 ==> len == n + end || (len == 0 && n + end < 0)
  {
    if end < 0 then (if -end <= n then n + end else 0)
    else if end <= n then end else n
  }

  // flush(): join the flush in flight, or run doFlush up to its first await.
  ghost function FlushStep(records: seq<CallRecord>, x: Sender): Sender {
    if x.guard then x
    else
      var unsynced := Unsynced(records);
      if x.authFailed || unsynced == [] then
        x.(guard := true, tasks := x.tasks + [Settling])
      else
        var n := SliceLength(|unsynced|, x.batchSize);
        PendingMeaning(records);
        x.(guard := true, tasks := x.tasks + [Posting(unsynced[..n], [], Pending(records)[..n])],
           posts := x.posts + 1)
  }

  // The rest of doFlush after response.text(). A throwing auth_error listener keeps stop() from
  // running.
  ghost function BodyReadStep(x: Sender, t: nat, listenerThrows: bool): Sender
    requires t < |x.tasks| && x.tasks[t].ReadingBody?
  {
    var settled := x.tasks[t := Settling];
    if !IsAuthStatus(x.tasks[t].status) then x.(tasks := settled, syncErrors := x.syncErrors + 1)
    else if x.authFailed then x.(tasks := settled)
    else x.(tasks := settled, authFailed := true, authErrors := x.authErrors + 1,
            timerOn := x.timerOn && listenerThrows)
  }

  ghost function WithSender(s: System, k: nat, x: Sender): System
    requires k < |s.senders|
  {
    s.(senders := s.senders[k := x])
  }

  ghost function Step(s: System, e: Event): System
    requires Enabled(s, e)
  {
    match e
    case Append(record) => s.(records := s.records + [record])
    case Tick(k) => WithSender(s, k, FlushStep(s.records, s.senders[k]))
    case Flush(k) => WithSender(s, k, FlushStep(s.records, s.senders[k]))
    case Shutdown(k) => WithSender(s, k, FlushStep(s.records, s.senders[k]).(timerOn := false))
    case Accept(k, t, n) =>
      var x := s.senders[k];
      var task := x.tasks[t];
      var now := task.(done := task.done + task.left[..n], left := task.left[n..]);
      WithSender(s, k, x.(tasks := x.tasks[t := now])).(log := s.log + task.left[..n])
    case AcceptLate(j, n) =>
      var some := s.adrift[j][..n];
      s.(log := s.log + some, lost := s.lost + some, adrift := s.adrift[j := s.adrift[j][n..]])
    case Respond(k, t, answer) =>
      var x := s.senders[k];
      var task := x.tasks[t];
      if answer.IsOk() then
        WithSender(s, k, x.(tasks := x.tasks[t := Settling]))
        .(records := MarkFirst(s.records, |task.batch|))
      else
        WithSender(s, k, x.(tasks := x.tasks[t := if answer.Thrown? then Settling else ReadingBody(answer.code)]))
        .(lost := s.lost + task.done, adrift := s.adrift + [task.left])
    case BodyRead(k, t, throws) => WithSender(s, k, BodyReadStep(s.senders[k], t, throws))
    case Finally(k, t) =>
      var x := s.senders[k];
      WithSender(s, k, x.(guard := false, tasks := x.tasks[..t] + x.tasks[t + 1..]))
  }

  // ---------------------------------------------------------------------------------------------
  // Runs
  // ---------------------------------------------------------------------------------------------

  ghost predicate IsRun(s: System, events: seq<Event>)
    decreases |events|
  {
    events == [] || (Enabled(s, events[0]) && IsRun(Step(s, events[0]), events[1..]))
  }

  ghost function Run(s: System, events: seq<Event>): System
    requires IsRun(s, events)
    decreases |events|
  {
    if events == [] then s else Run(Step(s, events[0]), events[1..])
  }

  function NewSender(batchSize: int): Sender {
    Sender(batchSize, false, [], false, true, 0, 0, 0)
  }

  // A monitor that has just started, with one sender, on a file that an earlier run may have left.
  function Start(records: seq<CallRecord>, batchSize: int): System {
    System(records, [NewSender(batchSize)], [], [], [])
  }

  // ---------------------------------------------------------------------------------------------
  // The invariant
  // ---------------------------------------------------------------------------------------------

  // Positions from..to-1.
  ghost function Range(from: nat, to: nat): seq<nat>
  {
    if from <= to then seq(to - from, i requires 0 <= i < to - from => from + i) else []
  }

  // Every position that is to be delivered in a run that started with "first" and has now n
  // records: those pending at the start, then those appended since.
  ghost function Due(first: seq<CallRecord>, n: nat): seq<nat> {
    Pending(first) + Range(|first|, n)
  }

  // The positions that the backend holds while their sender still waits for the answer.
  ghost function Unanswered(s: System): seq<nat> {
    if |s.senders| == 1 && |s.senders[0].tasks| == 1 && s.senders[0].tasks[0].Posting?
    then s.senders[0].tasks[0].done else []
  }

  ghost function Times(i: nat, s: seq<nat>): nat {
    multiset(s)[i]
  }

  /**
   The account of a run. Every position that is due is either pending or was stored by the backend
   once, plus once for each lost acknowledgement; a record that is stored but not yet answered counts
   as both. While no acknowledgement is lost, the log is the due positions in order, up to the first
   that the backend does not have.
   */
  ghost predicate Balanced(due: seq<nat>, pending: seq<nat>, log: seq<nat>, lost: seq<nat>, out: seq<nat>) {
    && (forall i: nat :: Times(i, log) + Times(i, pending) == Times(i, due) + Times(i, lost) + Times(i, out))
    && out <= pending
    && (lost == [] ==> log + pending[|out|..] == due)
  }

  lemma BalancedAppend(due: seq<nat>, pending: seq<nat>, log: seq<nat>, lost: seq<nat>, out: seq<nat>, n: nat)
    requires Balanced(due, pending, log, lost, out)
    ensures Balanced(due + [n], pending + [n], log, lost, out)
  {
    assert (pending + [n])[|out|..] == pending[|out|..] + [n];
    assert log + (pending[|out|..] + [n]) == log + pending[|out|..] + [n];
  }

  lemma BalancedAccept(due: seq<nat>, pending: seq<nat>, log: seq<nat>, lost: seq<nat>, out: seq<nat>, more: seq<nat>)
    requires Balanced(due, pending, log, lost, out) && out + more <= pending
    ensures Balanced(due, pending, log + more, lost, out + more)
  {
    assert multiset(log + more) == multiset(log) + multiset(more);
    assert multiset(out + more) == multiset(out) + multiset(more);
    assert pending[|out|..] == more + pending[|out + more|..];
    assert log + more + pending[|out + more|..] == log + pending[|out|..];
  }

  lemma BalancedMark(due: seq<nat>, pending: seq<nat>, log: seq<nat>, lost: seq<nat>, at: seq<nat>)
    requires Balanced(due, pending, log, lost, at)
    ensures Balanced(due, pending[|at|..], log, lost, [])
  {
    var rest := pending[|at|..];
    assert pending == at + rest;
    assert rest[0..] == rest;
    assert multiset(at + rest) == multiset(at) + multiset(rest);
  }

  lemma BalancedLose(due: seq<nat>, pending: seq<nat>, log: seq<nat>, lost: seq<nat>, at: seq<nat>)
    requires Balanced(due, pending, log, lost, at)
    ensures Balanced(due, pending, log, lost + at, [])
  {
    assert multiset(lost + at) == multiset(lost) + multiset(at);
    if lost + at == [] {
      assert at == [] && pending[|at|..] == pending[0..];
    }
  }

  lemma BalancedLate(due: seq<nat>, pending: seq<nat>, log: seq<nat>, lost: seq<nat>, out: seq<nat>, b: seq<nat>)
    requires Balanced(due, pending, log, lost, out)
    ensures Balanced(due, pending, log + b, lost + b, out)
  {
    assert multiset(log + b) == multiset(log) + multiset(b);
    assert multiset(lost + b) == multiset(lost) + multiset(b);
    if lost + b == [] {
      assert b == [] && log + b == log;
    }
  }

  // Nothing disappears, no field but the flag ever changes, and the flag is never taken back.
  ghost predicate Grew(first: seq<CallRecord>, now: seq<CallRecord>) {
    && |first| <= |now|
    && forall i :: 0 <= i < |first| ==> now[i] == first[i] || now[i] == first[i].(synced := true)
  }

  // The batch of a waiting flush is still the front of what is pending.
  ghost predicate BatchIsFront(records: seq<CallRecord>, batch: seq<CallRecord>, at: seq<nat>) {
    at <= Pending(records) && batch <= Unsynced(records) && |at| == |batch|
  }

  // At most one flush is in flight, and none is posting once the key has been rejected.
  ghost predicate SenderOk(records: seq<CallRecord>, x: Sender) {
    && (if x.guard then |x.tasks| == 1 else x.tasks == [])
    && (x.guard ==>
          match x.tasks[0]
          case Posting(batch, done, left) => !x.authFailed && BatchIsFront(records, batch, done + left)
          case ReadingBody(_) => !x.authFailed
          case Settling => true)
    && x.authErrors == (if x.authFailed then 1 else 0)
  }

  ghost predicate Inv(first: seq<CallRecord>, s: System) {
    && |s.senders| == 1
    && Grew(first, s.records)
    && SenderOk(s.records, s.senders[0])
    && Balanced(Due(first, |s.records|), Pending(s.records), s.log, s.lost, Unanswered(s))
  }

  lemma {:induction false} UnsyncedAppend(records: seq<CallRecord>, r: CallRecord)
    ensures Unsynced(records + [r]) == Unsynced(records) + if r.synced then [] else [r]
  {
    if records == [] {
      assert Unsynced([r][1..]) == [];
    } else {
      assert (records + [r])[1..] == records[1..] + [r];
      UnsyncedAppend(records[1..], r);
    }
  }

  lemma AppendKeepsSenderOk(records: seq<CallRecord>, x: Sender, record: CallRecord)
    requires SenderOk(records, x) && !record.synced
    ensures SenderOk(records + [record], x)
  {
    PendingFromAppend(records, record, 0);
    UnsyncedAppend(records, record);
  }

  lemma DueAppend(first: seq<CallRecord>, n: nat)
    requires |first| <= n
    ensures Due(first, n + 1) == Due(first, n) + [n]
  {
    assert Range(|first|, n + 1) == Range(|first|, n) + [n];
  }

  lemma PendingAppend(records: seq<CallRecord>, record: CallRecord)
    requires !record.synced
    ensures Pending(records + [record]) == Pending(records) + [|records|]
  {
    PendingFromAppend(records, record, 0);
  }

  lemma GrewAppend(first: seq<CallRecord>, now: seq<CallRecord>, record: CallRecord)
    requires Grew(first, now)
    ensures Grew(first, now + [record])
  {
  }

  lemma AppendKeepsInv(first: seq<CallRecord>, s: System, record: CallRecord)
    requires Inv(first, s) && !record.synced
    ensures Inv(first, s.(records := s.records + [record]))
  {
    var n, now, out := |s.records|, s.records + [record], Unanswered(s);
    assert Grew(first, now) by {
      GrewAppend(first, s.records, record);
    }
    assert SenderOk(now, s.senders[0]) by {
      AppendKeepsSenderOk(s.records, s.senders[0], record);
    }
    assert Balanced(Due(first, n + 1), Pending(now), s.log, s.lost, out) by {
      PendingAppend(s.records, record);
      DueAppend(first, n);
      BalancedAppend(Due(first, n), Pending(s.records), s.log, s.lost, out, n);
    }
    assert Unanswered(s.(records := now)) == out;
  }

  lemma FlushKeepsSenderOk(records: seq<CallRecord>, x: Sender)
    requires SenderOk(records, x)
    ensures SenderOk(records, FlushStep(records, x))
  {
    PendingMeaning(records);
  }

  lemma AcceptKeepsInv(first: seq<CallRecord>, s: System, e: Event)
    requires Inv(first, s) && e.Accept? && Enabled(s, e)
    ensures Inv(first, Step(s, e))
  {
    var task := s.senders[0].tasks[0];
    var more := task.left[..e.n];
    assert task.done + more + task.left[e.n..] == task.At();
    BalancedAccept(Due(first, |s.records|), Pending(s.records), s.log, s.lost, task.done, more);
  }

  lemma AcceptLateKeepsInv(first: seq<CallRecord>, s: System, j: nat, n: nat)
    requires Inv(first, s) && j < |s.adrift| && n <= |s.adrift[j]|
    ensures Inv(first, Step(s, AcceptLate(j, n)))
  {
    BalancedLate(Due(first, |s.records|), Pending(s.records), s.log, s.lost, Unanswered(s), s.adrift[j][..n]);
  }

  lemma {:induction false} MarkGrows(records: seq<CallRecord>, count: int)
    ensures Grew(records, MarkFirst(records, count))
  {
    if records != [] {
      var rest := if !records[0].synced && 0 < count then count - 1 else count;
      MarkGrows(records[1..], rest);
      assert MarkFirst(records, count)[1..] == MarkFirst(records[1..], rest);
      forall i | 0 < i < |records|
        ensures MarkFirst(records, count)[i] in {records[i], records[i].(synced := true)}
      {
        assert MarkFirst(records, count)[i] == MarkFirst(records[1..], rest)[i - 1];
      }
    }
  }

  lemma RespondKeepsInv(first: seq<CallRecord>, s: System, e: Event)
    requires Inv(first, s) && e.Respond? && Enabled(s, e)
    ensures Inv(first, Step(s, e))
  {
    var task := s.senders[0].tasks[0];
    var due, p := Due(first, |s.records|), Pending(s.records);
    if e.answer.IsOk() {
      assert task.At() == task.done;
      PendingFromMark(s.records, |task.done|, 0);
      MarkGrows(s.records, |task.done|);
      BalancedMark(due, p, s.log, s.lost, task.done);
    } else {
      BalancedLose(due, p, s.log, s.lost, task.done);
    }
  }

  lemma FlushKeepsUnanswered(s: System, e: Event)
    requires |s.senders| == 1 && SenderOk(s.records, s.senders[0])
    requires (e.Tick? || e.Flush? || e.Shutdown?) && Enabled(s, e)
    ensures Unanswered(Step(s, e)) == Unanswered(s)
  {
  }

  lemma FlushKeepsInv(first: seq<CallRecord>, s: System, e: Event)
    requires Inv(first, s) && (e.Tick? || e.Flush? || e.Shutdown?) && Enabled(s, e)
    ensures Inv(first, Step(s, e))
  {
    FlushKeepsSenderOk(s.records, s.senders[0]);
    FlushKeepsUnanswered(s, e);
    var due := Due(first, |s.records|);
    assert Balanced(due, Pending(s.records), s.log, s.lost, Unanswered(Step(s, e)));
  }

  lemma BodyReadKeepsInv(first: seq<CallRecord>, s: System, e: Event)
    requires Inv(first, s) && e.BodyRead? && Enabled(s, e)
    ensures Inv(first, Step(s, e))
  {
    var s' := Step(s, e);
    assert s'.senders[0].tasks == [Settling];
    assert Unanswered(s') == Unanswered(s) == [];
  }

  lemma FinallyKeepsInv(first: seq<CallRecord>, s: System, e: Event)
    requires Inv(first, s) && e.Finally? && Enabled(s, e)
    ensures Inv(first, Step(s, e))
  {
    var s' := Step(s, e);
    assert s'.senders[0].tasks == [];
    assert Unanswered(s') == Unanswered(s) == [];
  }

  /** Every event keeps the invariant. */
  lemma StepKeepsInv(first: seq<CallRecord>, s: System, e: Event)
    requires Inv(first, s) && Enabled(s, e)
    ensures Inv(first, Step(s, e))
  {
    match e
    case Append(record) => AppendKeepsInv(first, s, record);
    case Tick(_) => FlushKeepsInv(first, s, e);
    case Flush(_) => FlushKeepsInv(first, s, e);
    case Shutdown(_) => FlushKeepsInv(first, s, e);
    case Accept(_, _, _) => AcceptKeepsInv(first, s, e);
    case AcceptLate(j, n) => AcceptLateKeepsInv(first, s, j, n);
    case Respond(_, _, _) => RespondKeepsInv(first, s, e);
    case BodyRead(_, _, _) => BodyReadKeepsInv(first, s, e);
    case Finally(_, _) => FinallyKeepsInv(first, s, e);
  }

  lemma StartHasInv(records: seq<CallRecord>, batchSize: int)
    ensures Inv(records, Start(records, batchSize))
  {
    var p := Pending(records);
    assert Due(records, |records|) == p;
    assert [] + p[0..] == p;
  }

  lemma {:induction false} RunKeepsInv(first: seq<CallRecord>, s: System, events: seq<Event>)
    requires Inv(first, s) && IsRun(s, events)
    ensures Inv(first, Run(s, events))
    decreases |events|
  {
    if events != [] {
      StepKeepsInv(first, s, events[0]);
      RunKeepsInv(first, Step(s, events[0]), events[1..]);
    }
  }

  // ---------------------------------------------------------------------------------------------
  // Main results: one sender on the file
  // ---------------------------------------------------------------------------------------------

  // s can be reached from a fresh monitor on the file "first".
  ghost predicate Reachable(first: seq<CallRecord>, batchSize: int, events: seq<Event>, s: System) {
    IsRun(Start(first, batchSize), events) && s == Run(Start(first, batchSize), events)
  }

  lemma ReachableInv(first: seq<CallRecord>, batchSize: int, events: seq<Event>, s: System)
    requires Reachable(first, batchSize, events, s)
    ensures Inv(first, s)
  {
    StartHasInv(first, batchSize);
    RunKeepsInv(first, Start(first, batchSize), events);
  }

  lemma MarkHits(records: seq<CallRecord>, batch: seq<CallRecord>, at: seq<nat>)
    requires BatchIsFront(records, batch, at)
    ensures forall j :: 0 <= j < |batch| ==> at[j] < |records| && records[at[j]] == batch[j] && !batch[j].synced
    ensures forall i: nat :: i < |records| ==>
              MarkFirst(records, |batch|)[i] == if i in at then records[i].(synced := true) else records[i]
  {
    PendingMeaning(records);
    forall j | 0 <= j < |batch|
      ensures at[j] < |records| && records[at[j]] == batch[j] && !batch[j].synced
    {
      assert at[j] == Pending(records)[j] && Pending(records)[j] in Pending(records);
    }
    forall i: nat | i < |records|
      ensures MarkFirst(records, |batch|)[i] == if i in at then records[i].(synced := true) else records[i]
    {
      MarkFlips(records, |at|, 0, i);
    }
  }

  /**
   A success answer flips exactly the records that were posted, whatever was appended meanwhile:
   the records at the posted positions are still the posted ones and unsynced, and no other record
   changes. Any other answer leaves the file alone.
   */
  lemma MarkHitsPostedBatch(first: seq<CallRecord>, batchSize: int, events: seq<Event>, s: System, e: Event)
    requires Reachable(first, batchSize, events, s)
    requires e.Respond? && Enabled(s, e)
    ensures var task := s.senders[e.k].tasks[e.t];
            var after := Step(s, e).records;
            && |task.At()| == |task.batch|
            && (forall j :: 0 <= j < |task.batch| ==>
                  task.At()[j] < |s.records| && s.records[task.At()[j]] == task.batch[j] && !task.batch[j].synced)
            && if e.answer.Status? && 200 <= e.answer.code < 300
               then |after| == |s.records|
                    && forall i: nat :: i < |after| ==>
                         after[i] == if i in task.At() then s.records[i].(synced := true) else s.records[i]
               else after == s.records
  {
    ReachableInv(first, batchSize, events, s);
    var task := s.senders[0].tasks[0];
    MarkHits(s.records, task.batch, task.At());
  }

  // Position i was to be delivered by this run.
  ghost predicate IsDue(first: seq<CallRecord>, i: nat) {
    i < |first| ==> !first[i].synced
  }

  lemma {:induction false} TimesAscending(p: seq<nat>, i: nat)
    requires forall a, b :: 0 <= a < b < |p| ==> p[a] < p[b]
    ensures Times(i, p) == if i in p then 1 else 0
  {
    if p != [] {
      TimesAscending(p[1..], i);
      assert p == [p[0]] + p[1..];
    }
  }

  lemma DueMeaning(first: seq<CallRecord>, n: nat)
    requires |first| <= n
    ensures var due := Due(first, n);
            && (forall a, b :: 0 <= a < b < |due| ==> due[a] < due[b])
            && (forall i: nat :: i in due <==> i < n && IsDue(first, i))
  {
    PendingMeaning(first);
    var due := Due(first, n);
    assert forall i: nat :: i in Range(|first|, n) <==> |first| <= i < n by {
      forall i: nat | |first| <= i < n
        ensures i in Range(|first|, n)
      {
        assert Range(|first|, n)[i - |first|] == i;
      }
    }
    forall i: nat
      ensures i in due <==> i < n && IsDue(first, i)
    {
      assert i in due <==> i in Pending(first) || i in Range(|first|, n);
    }
  }

  lemma CountPending(records: seq<CallRecord>, i: nat)
    requires i < |records|
    ensures Times(i, Pending(records)) == if records[i].synced then 0 else 1
    ensures i in Pending(records) <==> !records[i].synced
  {
    PendingMeaning(records);
    TimesAscending(Pending(records), i);
  }

  lemma CountDue(first: seq<CallRecord>, n: nat, i: nat)
    requires |first| <= n && i < n
    ensures Times(i, Due(first, n)) == if IsDue(first, i) then 1 else 0
  {
    DueMeaning(first, n);
    TimesAscending(Due(first, n), i);
  }

  /**
   How often the backend holds each record, in every reachable state: once if it is marked as
   synced, plus once for each acknowledgement of it that was lost, plus once if it is stored in a batch
   that is not yet answered. So a record that is marked has been stored, and duplicates come from
   lost acknowledgements alone.
   */
  lemma CopiesAtBackend(first: seq<CallRecord>, batchSize: int, events: seq<Event>, s: System, i: nat)
    requires Reachable(first, batchSize, events, s) && i < |s.records|
    ensures IsDue(first, i) ==>
              Times(i, s.log) == (if s.records[i].synced then 1 else 0)
                                 + Times(i, s.lost) + Times(i, Unanswered(s))
    ensures !IsDue(first, i) ==> s.records[i] == first[i] && Times(i, s.log) == Times(i, s.lost)
  {
    ReachableInv(first, batchSize, events, s);
    var due, p, out := Due(first, |s.records|), Pending(s.records), Unanswered(s);
    assert Balanced(due, p, s.log, s.lost, out);
    assert Times(i, s.log) + Times(i, p) == Times(i, due) + Times(i, s.lost) + Times(i, out);
    CountPending(s.records, i);
    CountDue(first, |s.records|, i);
    if !IsDue(first, i) {
      assert i !in p && p == out + p[|out|..];
      assert i !in out;
    }
  }

  /**
   If no acknowledgement was lost and no stored record waits for its answer, then the backend's log
   is the list of the positions that this run marked, in the order of the file, each exactly once.
   */
  lemma ExactlyOnceInOrder(first: seq<CallRecord>, batchSize: int, events: seq<Event>, s: System)
    requires Reachable(first, batchSize, events, s)
    requires s.lost == [] && Unanswered(s) == []
    ensures s.log <= Due(first, |s.records|)
    ensures forall a, b :: 0 <= a < b < |s.log| ==> s.log[a] < s.log[b]
    ensures forall i: nat :: i in s.log <==> i < |s.records| && IsDue(first, i) && s.records[i].synced
  {
    ReachableInv(first, batchSize, events, s);
    var p, due := Pending(s.records), Due(first, |s.records|);
    assert p[0..] == p;
    assert due == s.log + p;
    DueMeaning(first, |s.records|);
    assert forall a :: 0 <= a < |s.log| ==> s.log[a] == due[a];
    forall i: nat
      ensures i in s.log <==> i < |s.records| && IsDue(first, i) && s.records[i].synced
    {
      assert i in due <==> i in s.log || i in p;
      PendingMeaning(s.records);
      if i < |s.records| {
        CopiesAtBackend(first, batchSize, events, s, i);
      }
    }
  }

  /** Whatever happens, with any number of senders: records stay, in place, and only get marked. */
  lemma {:induction false} RunGrows(s: System, events: seq<Event>)
    requires IsRun(s, events)
    ensures Grew(s.records, Run(s, events).records)
    decreases |events|
  {
    if events != [] {
      var next := Step(s, events[0]);
      if events[0].Respond? {
        MarkGrows(s.records, |s.senders[events[0].k].tasks[events[0].t].batch|);
      }
      assert Grew(s.records, next.records);
      RunGrows(next, events[1..]);
    }
  }

  // A 401 or 403 has been received.
  ghost predicate Rejected(x: Sender) {
    x.authFailed || exists t :: 0 <= t < |x.tasks| && x.tasks[t].ReadingBody? && IsAuthStatus(x.tasks[t].status)
  }

  lemma RejectedStep(first: seq<CallRecord>, s: System, e: Event)
    requires Inv(first, s) && Enabled(s, e) && Rejected(s.senders[0])
    ensures var x := Step(s, e).senders[0]; Rejected(x) && x.posts == s.senders[0].posts
  {
    var x, y := s.senders[0], Step(s, e).senders[0];
    if x.authFailed {
      assert y.authFailed && y.posts == x.posts;
    } else {
      assert |x.tasks| == 1 && x.tasks[0].ReadingBody? && x.guard;
      assert y.authFailed || y.tasks == x.tasks;
    }
  }

  /**
   From the moment a 401 or 403 arrives, no POST is sent any more: not by the timer, not by an
   explicit flush, not by shutdown, and not when the listener throws. auth_error fires at most once.
   */
  lemma {:induction false} RejectionIsFinal(first: seq<CallRecord>, s: System, more: seq<Event>)
    requires Inv(first, s) && IsRun(s, more) && Rejected(s.senders[0])
    ensures Inv(first, Run(s, more))
    ensures var x := Run(s, more).senders[0]; x.posts == s.senders[0].posts && x.authErrors <= 1
    decreases |more|
  {
    if more != [] {
      StepKeepsInv(first, s, more[0]);
      RejectedStep(first, s, more[0]);
      RejectionIsFinal(first, Step(s, more[0]), more[1..]);
    }
  }

  // The key has been rejected, and that has been noticed.
  ghost predicate Latched(x: Sender) {
    x.authFailed && x.authErrors == 1 && forall t :: 0 <= t < |x.tasks| ==> x.tasks[t].Settling?
  }

  lemma LatchedStep(first: seq<CallRecord>, s: System, e: Event)
    requires Inv(first, s) && Enabled(s, e) && Latched(s.senders[0])
    ensures !e.BodyRead? && Latched(Step(s, e).senders[0])
    ensures Step(s, e).senders[0].timerOn ==> s.senders[0].timerOn
  {
    StepKeepsInv(first, s, e);
  }

  lemma {:induction false} LatchedRun(first: seq<CallRecord>, s: System, more: seq<Event>)
    requires Inv(first, s) && IsRun(s, more) && Latched(s.senders[0])
    ensures |Run(s, more).senders| == 1 && Latched(Run(s, more).senders[0])
    ensures Run(s, more).senders[0].timerOn ==> s.senders[0].timerOn
    ensures forall e :: e in more ==> !e.BodyRead?
    decreases |more|
  {
    if more != [] {
      StepKeepsInv(first, s, more[0]);
      LatchedStep(first, s, more[0]);
      LatchedRun(first, Step(s, more[0]), more[1..]);
      assert more == [more[0]] + more[1..];
    }
  }

  // What becomes of a sender that reads the body of a rejection.
  ghost predicate Noticed(x: Sender, more: seq<Event>) {
    (exists e :: e in more && e.BodyRead?) ==>
      && x.authFailed && x.authErrors == 1
      && (x.timerOn ==> exists e :: e in more && e.BodyRead? && e.listenerThrows)
  }

  lemma AwaitingStep(first: seq<CallRecord>, s: System, e: Event, c: int)
    requires Inv(first, s) && Enabled(s, e) && (c == 401 || c == 403) && s.senders[0].tasks == [ReadingBody(c)]
    ensures var y := Step(s, e).senders[0];
            if e.BodyRead? then Latched(y) && (y.timerOn ==> e.listenerThrows) else y.tasks == [ReadingBody(c)]
  {
    StepKeepsInv(first, s, e);
    if e.BodyRead? {
      assert Step(s, e).senders[0].tasks == [Settling];
    }
  }

  lemma {:induction false} AwaitingRun(first: seq<CallRecord>, s: System, more: seq<Event>, c: int)
    requires Inv(first, s) && IsRun(s, more) && (c == 401 || c == 403) && s.senders[0].tasks == [ReadingBody(c)]
    ensures |Run(s, more).senders| == 1 && Noticed(Run(s, more).senders[0], more)
    decreases |more|
  {
    if more != [] {
      var e, rest := more[0], more[1..];
      assert more == [e] + rest;
      StepKeepsInv(first, s, e);
      AwaitingStep(first, s, e, c);
      if e.BodyRead? {
        LatchedRun(first, Step(s, e), rest);
        assert e in more;
      } else {
        AwaitingRun(first, Step(s, e), rest, c);
      }
    }
  }

  /**
   From the moment a 401 or 403 arrives, whatever happened before, no POST is sent any more. Once its body
   has been read, the latch is set, auth_error has fired exactly once, and the timer is off unless the
   listener has thrown.
   */
  lemma NoPostAfterRejection(first: seq<CallRecord>, batchSize: int, events: seq<Event>, s: System,
                             k: nat, t: nat, c: int, more: seq<Event>)
    requires Reachable(first, batchSize, events, s)
    requires Enabled(s, Respond(k, t, Status(c))) && (c == 401 || c == 403)
    requires IsRun(Step(s, Respond(k, t, Status(c))), more)
    ensures var end := Run(Step(s, Respond(k, t, Status(c))), more);
            && |s.senders| == |end.senders| == 1 && end.senders[0].posts == s.senders[0].posts
            && Noticed(end.senders[0], more)
  {
    ReachableInv(first, batchSize, events, s);
    var next := Step(s, Respond(k, t, Status(c)));
    StepKeepsInv(first, s, Respond(k, t, Status(c)));
    assert next.senders[0].tasks == [ReadingBody(c)];
    assert next.senders[0].tasks[0].ReadingBody?;
    RejectionIsFinal(first, next, more);
    AwaitingRun(first, next, more, c);
  }

  // The run has an answer with one of the two statuses.
  ghost predicate HasRejection(events: seq<Event>) {
    exists e :: e in events && e.Respond? && (e.answer == Status(401) || e.answer == Status(403))
  }

  ghost predicate HoldsRejection(x: Sender) {
    x.authFailed || exists t :: 0 <= t < |x.tasks| && (x.tasks[t] == ReadingBody(401) || x.tasks[t] == ReadingBody(403))
  }

  lemma RejectionHasCause(s: System, e: Event)
    requires |s.senders| == 1 && Enabled(s, e) && HoldsRejection(Step(s, e).senders[0])
    ensures HoldsRejection(s.senders[0]) || HasRejection([e])
  {
    if !HasRejection([e]) {
      assert e in [e];
      var x, y := s.senders[0], Step(s, e).senders[0];
      if t :| 0 <= t < |y.tasks| && (y.tasks[t] == ReadingBody(401) || y.tasks[t] == ReadingBody(403)) {
        assert y.tasks[t] in x.tasks;
        var u :| 0 <= u < |x.tasks| && x.tasks[u] == y.tasks[t];
      }
    }
  }

  lemma {:induction false} RunHasCause(s: System, events: seq<Event>)
    requires |s.senders| == 1 && IsRun(s, events) && |Run(s, events).senders| == 1
    requires HoldsRejection(Run(s, events).senders[0])
    ensures HoldsRejection(s.senders[0]) || HasRejection(events)
    decreases |events|
  {
    if events != [] {
      RunHasCause(Step(s, events[0]), events[1..]);
      assert events == [events[0]] + events[1..];
      if HoldsRejection(Step(s, events[0]).senders[0]) {
        RejectionHasCause(s, events[0]);
      }
    }
  }

  /** And nothing else sets the latch: if it is set, the run has an answer with status 401 or 403. */
  lemma LatchHasCause(first: seq<CallRecord>, batchSize: int, events: seq<Event>, s: System)
    requires Reachable(first, batchSize, events, s)
    ensures |s.senders| == 1 && (s.senders[0].authFailed ==> HasRejection(events))
  {
    ReachableInv(first, batchSize, events, s);
    if s.senders[0].authFailed {
      RunHasCause(Start(first, batchSize), events);
    }
  }

  /** Any other status is reported as a sync_error and changes neither the latch nor the timer. */
  lemma OtherStatusIsTransient(s: System, k: nat, t: nat, listenerThrows: bool, c: int)
    requires Enabled(s, BodyRead(k, t, listenerThrows)) && s.senders[k].tasks[t] == ReadingBody(c)
    requires c != 401 && c != 403
    ensures var x, y := s.senders[k], Step(s, BodyRead(k, t, listenerThrows)).senders[k];
            && y.syncErrors == x.syncErrors + 1 && y.authErrors == x.authErrors
            && y.authFailed == x.authFailed && y.timerOn == x.timerOn && y.guard == x.guard && y.posts == x.posts
  {
  }

  /** In every reachable state at most one flush is in flight, so at most one POST. */
  lemma SingleFlight(first: seq<CallRecord>, batchSize: int, events: seq<Event>, s: System)
    requires Reachable(first, batchSize, events, s)
    ensures |s.senders| == 1 && |s.senders[0].tasks| <= 1
    ensures s.senders[0].guard <==> s.senders[0].tasks != []
  {
    ReachableInv(first, batchSize, events, s);
  }

  // ---------------------------------------------------------------------------------------------
  // Progress
  // ---------------------------------------------------------------------------------------------

  ghost predicate IsGood(e: Event) {
    !e.Append? && (e.Respond? ==> e.answer.IsOk())
  }

  // Nothing is appended, and every answer is a success.
  ghost predicate Good(events: seq<Event>) {
    forall e :: e in events ==> IsGood(e)
  }

  ghost function Answers(events: seq<Event>): nat {
    if events == [] then 0 else (if events[0].Respond? then 1 else 0) + Answers(events[1..])
  }

  ghost predicate InFlight(x: Sender) {
    exists t :: 0 <= t < |x.tasks| && x.tasks[t].Posting?
  }

  ghost predicate DrainingSender(b: nat, x: Sender, pending: nat, k: nat) {
    && x.batchSize == b && 1 <= b && !x.authFailed
    && (forall t :: 0 <= t < |x.tasks| ==>
          match x.tasks[t]
          case Posting(batch, _, _) => 0 < |batch| == Min(b, pending)
          case ReadingBody(_) => false
          case Settling => true)
    && x.posts == k + if InFlight(x) then 1 else 0
  }

  // After some answers that asked for m records in all, and k POSTs answered.
  ghost predicate Draining(first: seq<CallRecord>, b: nat, s: System, k: nat, m: nat) {
    && Inv(first, s) && |s.records| == |first| && s.lost == [] && s.adrift == []
    && m < |Pending(first)| + b
    && Pending(s.records) == Pending(first)[Min(|Pending(first)|, m)..]
    && DrainingSender(b, s.senders[0], |Pending(s.records)|, k)
  }

  lemma FlushDrains(records: seq<CallRecord>, b: nat, x: Sender, k: nat)
    requires SenderOk(records, x) && DrainingSender(b, x, |Pending(records)|, k)
    ensures DrainingSender(b, FlushStep(records, x), |Pending(records)|, k)
  {
    PendingMeaning(records);
    var y := FlushStep(records, x);
    if !x.guard {
      assert x.tasks == [] && |y.tasks| == 1;
      assert y.tasks[0].Posting? ==> InFlight(y);
    }
  }

  lemma AnswerDrains(first: seq<CallRecord>, b: nat, s: System, e: Event, k: nat, m: nat)
    requires Draining(first, b, s, k, m) && Enabled(s, e) && e.Respond? && IsGood(e)
    ensures Draining(first, b, Step(s, e), k + 1, m + b)
    ensures |Pending(Step(s, e).records)| < |Pending(s.records)|
  {
    var x, s' := s.senders[0], Step(s, e);
    StepKeepsInv(first, s, e);
    PendingFromMark(s.records, |x.tasks[0].batch|, 0);
    assert s'.senders[0].tasks == [Settling] && !InFlight(s'.senders[0]);
    assert x.tasks[0].Posting? && InFlight(x);
  }

  lemma AcceptDrains(b: nat, x: Sender, task: Task, pending: nat, k: nat)
    requires DrainingSender(b, x, pending, k) && |x.tasks| == 1 && x.tasks[0].Posting?
    requires task.Posting? && task.batch == x.tasks[0].batch
    ensures DrainingSender(b, x.(tasks := [task]), pending, k)
  {
    assert InFlight(x);
    assert x.(tasks := [task]).tasks[0].Posting? && InFlight(x.(tasks := [task]));
  }

  lemma FinallyDrains(b: nat, x: Sender, pending: nat, k: nat)
    requires DrainingSender(b, x, pending, k) && x.tasks == [Settling]
    ensures DrainingSender(b, x.(guard := false, tasks := []), pending, k)
  {
    assert !InFlight(x);
  }

  lemma StopDrains(b: nat, x: Sender, pending: nat, k: nat)
    requires DrainingSender(b, x, pending, k)
    ensures DrainingSender(b, x.(timerOn := false), pending, k)
  {
    assert InFlight(x.(timerOn := false)) <==> InFlight(x);
  }

  lemma SenderDrains(first: seq<CallRecord>, b: nat, s: System, e: Event, k: nat, m: nat)
    requires Draining(first, b, s, k, m) && Enabled(s, e) && IsGood(e) && !e.Respond?
    ensures var s' := Step(s, e);
            && s'.records == s.records && s'.lost == [] && s'.adrift == []
            && |s'.senders| == 1 && DrainingSender(b, s'.senders[0], |Pending(s.records)|, k)
  {
    var x, y, pending := s.senders[0], Step(s, e).senders[0], |Pending(s.records)|;
    if e.Accept? {
      AcceptDrains(b, x, y.tasks[0], pending, k);
      assert y.tasks == [y.tasks[0]];
    } else if e.Finally? {
      FinallyDrains(b, x, pending, k);
      assert y.tasks == [];
    } else {
      FlushDrains(s.records, b, x, k);
      StopDrains(b, FlushStep(s.records, x), pending, k);
    }
  }

  lemma StepDrains(first: seq<CallRecord>, b: nat, s: System, e: Event, k: nat, m: nat)
    requires Draining(first, b, s, k, m) && Enabled(s, e) && IsGood(e)
    ensures if e.Respond? then Draining(first, b, Step(s, e), k + 1, m + b) else Draining(first, b, Step(s, e), k, m)
  {
    if e.Respond? {
      AnswerDrains(first, b, s, e, k, m);
    } else {
      StepKeepsInv(first, s, e);
      SenderDrains(first, b, s, e, k, m);
    }
  }

  // How many records so many answers ask for.
  ghost function Asked(events: seq<Event>, b: nat): nat {
    if events == [] then 0 else (if events[0].Respond? then b else 0) + Asked(events[1..], b)
  }

  lemma {:induction false} AskedIsProduct(events: seq<Event>, b: nat)
    ensures Asked(events, b) == b * Answers(events)
  {
    if events != [] {
      AskedIsProduct(events[1..], b);
      var k := Answers(events[1..]);
      assert b * (k + 1) == b * k + b;
    }
  }

  lemma {:induction false} RunDrains(first: seq<CallRecord>, b: nat, s: System, events: seq<Event>, k: nat, m: nat,
                                     end: System, k': nat, m': nat)
    requires Draining(first, b, s, k, m) && IsRun(s, events) && Good(events)
    requires end == Run(s, events) && k' == k + Answers(events) && m' == m + Asked(events, b)
    ensures Draining(first, b, end, k', m')
    decreases |events|
  {
    if events != [] {
      var e, rest := events[0], events[1..];
      assert IsGood(e) && Good(rest);
      StepDrains(first, b, s, e, k, m);
      if e.Respond? {
        RunDrains(first, b, Step(s, e), rest, k + 1, m + b, end, k', m');
      } else {
        RunDrains(first, b, Step(s, e), rest, k, m, end, k', m');
      }
    }
  }

  lemma StartDrains(first: seq<CallRecord>, b: nat)
    requires 1 <= b
    ensures Draining(first, b, Start(first, b), 0, 0)
  {
    StartHasInv(first, b);
  }

  lemma ReachedDrains(first: seq<CallRecord>, b: nat, events: seq<Event>, s: System)
    requires 1 <= b && Reachable(first, b, events, s) && Good(events)
    ensures Draining(first, b, s, Answers(events), b * Answers(events))
  {
    StartDrains(first, b);
    RunDrains(first, b, Start(first, b), events, 0, 0, s, Answers(events), Asked(events, b));
    AskedIsProduct(events, b);
  }

  // n / batchSize, rounded up.
  function FlushesNeeded(n: nat, batchSize: nat): (flushes: nat)
    requires 1 <= batchSize
  {
    if n == 0 then 0 else 1 + FlushesNeeded(n - Min(n, batchSize), batchSize)
  }

  lemma {:induction false} FlushesNeededIsCeil(n: nat, b: nat)
    requires 1 <= b
    ensures n <= FlushesNeeded(n, b) * b < n + b
  {
    if n != 0 {
      var f := FlushesNeeded(n - Min(n, b), b);
      FlushesNeededIsCeil(n - Min(n, b), b);
      assert (1 + f) * b == b + f * b;
    }
  }

  lemma Scaled(b: nat, k: nat, l: nat)
    requires k <= l
    ensures b * k <= b * l
  {
  }

  // It is the only number of full batches that reaches n with the last one.
  lemma CeilIsUnique(n: nat, b: nat, k: nat)
    requires 1 <= b && b * k < n + b
    ensures k <= FlushesNeeded(n, b) && (n <= b * k <==> k == FlushesNeeded(n, b))
  {
    var f := FlushesNeeded(n, b);
    FlushesNeededIsCeil(n, b);
    assert b * (f + 1) == b * f + b && b * (k + 1) == b * k + b;
    if f < k {
      Scaled(b, f + 1, k);
    } else if k < f {
      Scaled(b, k + 1, f);
    }
  }

  lemma LogIsFront(p: seq<nat>, log: seq<nat>, pending: seq<nat>, out: seq<nat>, done: nat)
    requires done <= |p| && pending == p[done..] && out <= pending && log + pending[|out|..] == p
    ensures log == p[..done] + out
  {
    assert log == p[..|log|];
    assert |log| == done + |out|;
  }

  /**
   Draining, in every interleaving of ticks, flushes, shutdowns and backend events, as long as nothing
   is appended and every answer is a success: after k answers the first b * k pending records are
   marked; the backend has them in order, and no other but those of the POST in flight. The file is
   drained after exactly ceil(n / b) answers, and no more POSTs than that are ever sent.
   */
  lemma DrainsInCeil(first: seq<CallRecord>, b: nat, events: seq<Event>, s: System)
    requires 1 <= b && Reachable(first, b, events, s) && Good(events)
    ensures |s.senders| == 1
    ensures var n, k, x := |Pending(first)|, Answers(events), s.senders[0];
            && Pending(s.records) == Pending(first)[Min(n, b * k)..]
            && s.log == Pending(first)[..Min(n, b * k)] + Unanswered(s) && s.lost == []
            && x.posts == k + (if InFlight(x) then 1 else 0)
            && (InFlight(x) ==> b * k < n)
            && (Pending(s.records) == [] <==> k == FlushesNeeded(n, b))
            && x.posts <= FlushesNeeded(n, b)
  {
    var p, k := Pending(first), Answers(events);
    ReachedDrains(first, b, events, s);
    CeilIsUnique(|p|, b, k);
    assert Due(first, |s.records|) == p;
    LogIsFront(p, s.log, Pending(s.records), Unanswered(s), Min(|p|, b * k));
  }

  // How far the flush in flight is from the next answer.
  ghost function Distance(x: Sender): nat {
    if x.tasks == [] then 3
    else match x.tasks[0]
         case Posting(_, _, left) => if left == [] then 1 else 2
         case ReadingBody(_) => 0
         case Settling => 4
  }

  // The next event of a flush that is answered with success.
  ghost function NextGood(x: Sender): Event {
    if x.tasks == [] then Flush(0)
    else match x.tasks[0]
         case Posting(_, _, left) => if left == [] then Respond(0, 0, Status(200)) else Accept(0, 0, |left|)
         case _ => Finally(0, 0)
  }

  lemma NextGoodStep(first: seq<CallRecord>, b: nat, s: System, k: nat, m: nat)
    requires Draining(first, b, s, k, m) && Pending(s.records) != []
    ensures var e := NextGood(s.senders[0]);
            && Enabled(s, e) && IsGood(e)
            && if e.Respond? then |Pending(Step(s, e).records)| < |Pending(s.records)|
               else Step(s, e).records == s.records && Distance(Step(s, e).senders[0]) < Distance(s.senders[0])
  {
    var e := NextGood(s.senders[0]);
    if e.Respond? {
      AnswerDrains(first, b, s, e, k, m);
    } else if e.Flush? {
      PendingMeaning(s.records);
    }
  }

  lemma {:induction false} GoodRunOn(first: seq<CallRecord>, b: nat, s: System, k: nat, m: nat)
    returns (more: seq<Event>)
    requires Draining(first, b, s, k, m)
    ensures Good(more) && IsRun(s, more) && Pending(Run(s, more).records) == []
    decreases |Pending(s.records)|, Distance(s.senders[0])
  {
    more := [];
    if Pending(s.records) != [] {
      var e := NextGood(s.senders[0]);
      NextGoodStep(first, b, s, k, m);
      StepDrains(first, b, s, e, k, m);
      var rest := GoodRunOn(first, b, Step(s, e), if e.Respond? then k + 1 else k, if e.Respond? then m + b else m);
      more := [e] + rest;
      assert more[1..] == rest;
    }
  }

  /** And the drained state can always be reached: a run with success answers is never stuck. */
  lemma NeverStuck(first: seq<CallRecord>, b: nat, events: seq<Event>, s: System) returns (more: seq<Event>)
    requires 1 <= b && Reachable(first, b, events, s) && Good(events)
    ensures Good(more) && IsRun(s, more) && Pending(Run(s, more).records) == []
  {
    ReachedDrains(first, b, events, s);
    more := GoodRunOn(first, b, s, Answers(events), b * Answers(events));
  }

  // ---------------------------------------------------------------------------------------------
  // Why one sender
  // ---------------------------------------------------------------------------------------------

  lemma {:induction false} MarkAll(records: seq<CallRecord>, count: int, base: nat)
    requires |PendingFrom(records, base)| <= count
    ensures PendingFrom(MarkFirst(records, count), base) == []
  {
    if records != [] {
      var rest := if records[0].synced then count else count - 1;
      MarkAll(records[1..], rest, base + 1);
      assert MarkFirst(records, count)[1..] == MarkFirst(records[1..], rest);
    }
  }

  // Marking takes the first records off the pending ones, or all if there are not so many.
  lemma PendingAfterMark(records: seq<CallRecord>, count: nat)
    ensures Pending(MarkFirst(records, count)) == Pending(records)[Min(|Pending(records)|, count)..]
  {
    if count <= |Pending(records)| {
      PendingFromMark(records, count, 0);
    } else {
      MarkAll(records, count, 0);
    }
  }

  ghost predicate Ascends(p: seq<nat>) {
    forall i, j :: 0 <= i < j < |p| ==> p[i] < p[j]
  }

  // The element behind the first n0 and behind the first n1 is among the first n0 + n1.
  lemma Behind(all: seq<nat>, n0: nat, n1: nat)
    requires Ascends(all) && 1 <= n0 < |all| && 1 <= n1 < |all|
    ensures var q := all[if n0 < n1 then n1 else n0];
            q !in all[..n0] && q !in all[..n1] && q !in all[n0..][Min(|all| - n0, n1)..]
  {
    var most := if n0 < n1 then n1 else n0;
    assert forall i :: 0 <= i < most ==> all[i] != all[most];
    assert forall i :: most < i < |all| ==> all[i] != all[most];
    assert all[n0..][Min(|all| - n0, n1)..] == all[n0 + Min(|all| - n0, n1)..];
  }

  // What is pending when the first n0 records have been marked, one record has been appended, and then
  // the first n1 have been marked.
  lemma PendingAfterBoth(records: seq<CallRecord>, r: CallRecord, n0: nat, n1: nat)
    requires !r.synced && n0 <= |Pending(records)|
    ensures var all := Pending(records) + [|records|];
            Pending(MarkFirst(MarkFirst(records, n0) + [r], n1)) == all[n0..][Min(|all| - n0, n1)..]
  {
    var marked := MarkFirst(records, n0);
    PendingAfterMark(records, n0);
    PendingAppend(marked, r);
    PendingAfterMark(marked + [r], n1);
    assert (Pending(records) + [|records|])[n0..] == Pending(records)[n0..] + [|records|];
  }

  // So a record is marked that is neither among the first n0 nor among the first n1.
  lemma MarkedBehind(records: seq<CallRecord>, r: CallRecord, n0: nat, n1: nat) returns (q: nat)
    requires !r.synced && 1 <= n0 <= |Pending(records)| && 1 <= n1 <= |Pending(records)|
    ensures var now := MarkFirst(MarkFirst(records, n0) + [r], n1);
            q < |now| && IsDue(records, q) && now[q].synced
    ensures q !in Pending(records)[..n0] + Pending(records)[..n1]
  {
    var p := Pending(records);
    var all := p + [|records|];
    PendingMeaning(records);
    q := all[if n0 < n1 then n1 else n0];
    Behind(all, n0, n1);
    assert q == |records| || q in p;
    PendingAfterBoth(records, r, n0, n1);
    PendingMeaning(MarkFirst(MarkFirst(records, n0) + [r], n1));
    assert p[..n0] == all[..n0] && p[..n1] == all[..n1];
  }

  // A sender that has posted its first batch, and whether the backend has processed it.
  ghost function Posted(records: seq<CallRecord>, b: nat, stored: bool): Sender {
    PendingMeaning(records);
    var n := Min(|Pending(records)|, b);
    var at := Pending(records)[..n];
    var task := if stored then Posting(Unsynced(records)[..n], at, []) else Posting(Unsynced(records)[..n], [], at);
    Sender(b, true, [task], false, true, 1, 0, 0)
  }

  lemma FirstFlush(records: seq<CallRecord>, b: nat)
    requires 1 <= b && Pending(records) != []
    ensures FlushStep(records, NewSender(b)) == Posted(records, b, false)
  {
    PendingMeaning(records);
    assert SliceLength(|Unsynced(records)|, b) == Min(|Pending(records)|, b);
  }

  lemma AcceptAt(s: System, k: nat, s': System, x: Sender, at: seq<nat>)
    requires k < |s.senders| && |s.senders[k].tasks| == 1
    requires var task := s.senders[k].tasks[0]; task.Posting? && task.done == [] && task.left == at
                                                && x.tasks == [task.(done := at, left := [])]
    requires x == s.senders[k].(tasks := x.tasks)
    requires s' == s.(senders := s.senders[k := x], log := s.log + at)
    ensures Enabled(s, Accept(k, 0, |at|)) && s' == Step(s, Accept(k, 0, |at|))
  {
    assert [] + at[..|at|] == at && at[|at|..] == [];
    assert s.senders[k].tasks[0 := x.tasks[0]] == x.tasks;
  }

  lemma OkAt(s: System, k: nat, s': System, x: Sender)
    requires Enabled(s, Respond(k, 0, Status(200))) && x.tasks == [Settling]
    requires |s.senders[k].tasks| == 1 && x == s.senders[k].(tasks := x.tasks)
    requires s' == s.(senders := s.senders[k := x], records := MarkFirst(s.records, |s.senders[k].tasks[0].batch|))
    ensures s' == Step(s, Respond(k, 0, Status(200)))
  {
    assert s.senders[k].tasks[0 := Settling] == x.tasks;
  }

  lemma RunFrom(s: System, e: Event, s': System, rest: seq<Event>, end: System)
    requires Enabled(s, e) && s' == Step(s, e) && IsRun(s', rest) && Run(s', rest) == end
    ensures IsRun(s, [e] + rest) && Run(s, [e] + rest) == end
  {
    assert ([e] + rest)[1..] == rest;
  }

  // Both senders have posted their first batches, and the backend has stored them.
  ghost function BothStored(records: seq<CallRecord>, b0: nat, b1: nat): System {
    var x, y := Posted(records, b0, true), Posted(records, b1, true);
    System(records, [x, y], x.tasks[0].done + y.tasks[0].done, [], [])
  }

  // Both have been answered, with one record appended between the answers.
  ghost function BothMarked(records: seq<CallRecord>, b0: nat, b1: nat, r: CallRecord): System {
    var s := BothStored(records, b0, b1);
    var x, y := s.senders[0], s.senders[1];
    System(MarkFirst(MarkFirst(records, |x.tasks[0].batch|) + [r], |y.tasks[0].batch|),
           [x.(tasks := [Settling]), y.(tasks := [Settling])], s.log, [], [])
  }

  lemma StoreBoth(records: seq<CallRecord>, b0: nat, b1: nat, rest: seq<Event>, end: System)
    returns (events: seq<Event>)
    requires Pending(records) != [] && 1 <= b0 && 1 <= b1
    requires IsRun(BothStored(records, b0, b1), rest) && Run(BothStored(records, b0, b1), rest) == end
    ensures var s := System(records, [NewSender(b0), NewSender(b1)], [], [], []);
            IsRun(s, events) && Run(s, events) == end
  {
    var x, y := Posted(records, b0, false), Posted(records, b1, false);
    var x' := Posted(records, b0, true);
    var at0, at1 := x.tasks[0].left, y.tasks[0].left;
    var s := System(records, [NewSender(b0), NewSender(b1)], [], [], []);
    var s1 := System(records, [x, NewSender(b1)], [], [], []);
    var s2 := System(records, [x, y], [], [], []);
    var s3 := System(records, [x', y], at0, [], []);
    var s4 := BothStored(records, b0, b1);
    AcceptAt(s3, 1, s4, s4.senders[1], at1);
    RunFrom(s3, Accept(1, 0, |at1|), s4, rest, end);
    events := [Accept(1, 0, |at1|)] + rest;
    AcceptAt(s2, 0, s3, x', at0);
    RunFrom(s2, Accept(0, 0, |at0|), s3, events, end);
    events := [Accept(0, 0, |at0|)] + events;
    FirstFlush(records, b1);
    RunFrom(s1, Flush(1), s2, events, end);
    events := [Flush(1)] + events;
    FirstFlush(records, b0);
    RunFrom(s, Flush(0), s1, events, end);
    events := [Flush(0)] + events;
  }

  lemma MarkBoth(records: seq<CallRecord>, b0: nat, b1: nat, r: CallRecord) returns (events: seq<Event>)
    requires !r.synced
    ensures IsRun(BothStored(records, b0, b1), events)
    ensures Run(BothStored(records, b0, b1), events) == BothMarked(records, b0, b1, r)
  {
    var s4, s7 := BothStored(records, b0, b1), BothMarked(records, b0, b1, r);
    var x, y := s4.senders[0], s4.senders[1];
    var marked := MarkFirst(records, |x.tasks[0].batch|);
    var s5 := System(marked, [x.(tasks := [Settling]), y], s4.log, [], []);
    var s6 := System(marked + [r], [x.(tasks := [Settling]), y], s4.log, [], []);
    assert s6.senders[1 := s7.senders[1]] == s7.senders;
    OkAt(s6, 1, s7, s7.senders[1]);
    RunFrom(s6, Respond(1, 0, Status(200)), s7, [], s7);
    RunFrom(s5, Append(r), s6, [Respond(1, 0, Status(200))] + [], s7);
    OkAt(s4, 0, s5, s5.senders[0]);
    events := [Respond(0, 0, Status(200))] + ([Append(r)] + ([Respond(1, 0, Status(200))] + []));
    RunFrom(s4, Respond(0, 0, Status(200)), s5, [Append(r)] + ([Respond(1, 0, Status(200))] + []), s7);
  }

  /**
   With two senders on one file the results above fail, for every file with something to send and for
   all batch sizes: both post the same records, the first marks them, a record is appended, and the
   second sender's answer marks as many again. No acknowledgement is lost and nothing is in flight any
   more, and yet a record is marked that the backend does not have.
   */
  lemma TwoSendersLoseARecord(records: seq<CallRecord>, b0: nat, b1: nat, r: CallRecord)
    returns (events: seq<Event>, q: nat)
    requires Pending(records) != [] && 1 <= b0 && 1 <= b1 && !r.synced
    ensures var s := System(records, [NewSender(b0), NewSender(b1)], [], [], []);
            && IsRun(s, events)
            && var end := Run(s, events);
               && q < |end.records| && IsDue(records, q) && end.records[q].synced && q !in end.log
               && end.lost == [] && end.adrift == []
               && |end.senders| == 2 && end.senders[0].tasks == end.senders[1].tasks == [Settling]
  {
    var marking := MarkBoth(records, b0, b1, r);
    events := StoreBoth(records, b0, b1, marking, BothMarked(records, b0, b1, r));
    var n := |Pending(records)|;
    PendingMeaning(records);
    q := MarkedBehind(records, r, Min(n, b0), Min(n, b1));
  }
}
