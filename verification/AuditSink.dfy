/**
 The audit worker: one task that buffers usage and audit records and writes them in batches, when
 a buffer is full, when the ticker fires, and when the channel closes.
 */
module AuditSink {
  import opened Common

  datatype Command<U, A> = UsageLog(usage: U) | AuditLog(audit: A)

  /** What wakes the worker: a command from the channel, or the ticker. */
  datatype Event<U, A> = Received(command: Command<U, A>) | Tick

  /**
   What becomes of a batch: the insert succeeds, or it fails and the fallback file takes the batch,
   or the fallback file cannot be opened either.
   */
  datatype Fate = Stored | FellBack | Dropped

  datatype Flush<T> = Flush(batch: seq<T>, fate: Fate)

  /** One kind of record: the buffer, and all batches flushed so far in order. */
  datatype Lane<T> = Lane(buffer: seq<T>, flushed: seq<Flush<T>>)

  /** An empty buffer is not flushed. Whatever the fate, the buffer is cleared. */
  function FlushLane<T>(lane: Lane<T>, fate: nat -> Fate): Lane<T> {
    if lane.buffer == [] then lane
    else Lane([], lane.flushed + [Flush(lane.buffer, fate(|lane.flushed|))])
  }

  function Push<T>(lane: Lane<T>, x: T, batchSize: nat, fate: nat -> Fate): Lane<T> {
    var pushed := lane.(buffer := lane.buffer + [x]);
    if |pushed.buffer| >= batchSize then FlushLane(pushed, fate) else pushed
  }

  datatype Worker<U, A> = Worker(usage: Lane<U>, audit: Lane<A>)

  /** The fates of the two kinds' batches, numbered per kind. */
  datatype Fates = Fates(usage: nat -> Fate, audit: nat -> Fate)

  function Handle<U, A>(w: Worker<U, A>, event: Event<U, A>, batchSize: nat, fates: Fates): Worker<U, A> {
    match event
    case Received(UsageLog(u)) => w.(usage := Push(w.usage, u, batchSize, fates.usage))
    case Received(AuditLog(a)) => w.(audit := Push(w.audit, a, batchSize, fates.audit))
    case Tick => Worker(FlushLane(w.usage, fates.usage), FlushLane(w.audit, fates.audit))
  }

  /** The worker after some events. */
  function After<U, A>(events: seq<Event<U, A>>, batchSize: nat, fates: Fates): Worker<U, A> {
    if events == [] then Worker(Lane([], []), Lane([], []))
    else Handle(After(events[..|events| - 1], batchSize, fates), events[|events| - 1], batchSize, fates)
  }

  /** And once the channel has closed. */
  function Closed<U, A>(events: seq<Event<U, A>>, batchSize: nat, fates: Fates): Worker<U, A> {
    Handle(After(events, batchSize, fates), Tick, batchSize, fates)
  }

  // ----- what goes in and what comes out -----

  function UsageOf<U, A>(events: seq<Event<U, A>>): seq<U> {
    if events == [] then []
    else
      var e := events[|events| - 1];
      UsageOf(events[..|events| - 1])
      + (if e.Received? && e.command.UsageLog? then [e.command.usage] else [])
  }

  function AuditOf<U, A>(events: seq<Event<U, A>>): seq<A> {
    if events == [] then []
    else
      var e := events[|events| - 1];
      AuditOf(events[..|events| - 1])
      + (if e.Received? && e.command.AuditLog? then [e.command.audit] else [])
  }

  /** All records of all batches, in order. */
  function Written<T>(flushed: seq<Flush<T>>): seq<T> {
    if flushed == [] then [] else Written(flushed[..|flushed| - 1]) + flushed[|flushed| - 1].batch
  }

  /** The records that met one fate, in order: the rows inserted, the fallback lines, those lost. */
  function WithFate<T>(flushed: seq<Flush<T>>, fate: Fate): seq<T> {
    if flushed == [] then []
    else
      var last := flushed[|flushed| - 1];
      WithFate(flushed[..|flushed| - 1], fate) + (if last.fate == fate then last.batch else [])
  }

  /** No batch is empty or over the batch size, and each met the fate of its number. */
  ghost predicate BatchesFit<T>(flushed: seq<Flush<T>>, batchSize: nat, fate: nat -> Fate) {
    forall i :: 0 <= i < |flushed| ==> 1 <= |flushed[i].batch| <= Max(1, batchSize) && flushed[i].fate == fate(i)
  }

  ghost predicate LaneHolds<T>(lane: Lane<T>, received: seq<T>, batchSize: nat, fate: nat -> Fate) {
    && Written(lane.flushed) + lane.buffer == received
    && |lane.buffer| < Max(1, batchSize)
    && BatchesFit(lane.flushed, batchSize, fate)
  }

  lemma WrittenAppend<T>(flushed: seq<Flush<T>>, f: Flush<T>)
    ensures Written(flushed + [f]) == Written(flushed) + f.batch
  {
    assert (flushed + [f])[..|flushed|] == flushed;
  }

  lemma BatchesFitAppend<T>(flushed: seq<Flush<T>>, batch: seq<T>, batchSize: nat, fate: nat -> Fate)
    requires BatchesFit(flushed, batchSize, fate) && 1 <= |batch| <= Max(1, batchSize)
    ensures BatchesFit(flushed + [Flush(batch, fate(|flushed|))], batchSize, fate)
  {
  }

  /** A full or partial buffer goes out as one batch. */
  lemma BufferGoesOut<T>(flushed: seq<Flush<T>>, buffer: seq<T>, received: seq<T>, batchSize: nat, fate: nat -> Fate)
    requires Written(flushed) + buffer == received && BatchesFit(flushed, batchSize, fate)
    requires 1 <= |buffer| <= Max(1, batchSize)
    ensures LaneHolds(Lane([], flushed + [Flush(buffer, fate(|flushed|))]), received, batchSize, fate)
  {
    var f := Flush(buffer, fate(|flushed|));
    WrittenAppend(flushed, f);
    BatchesFitAppend(flushed, buffer, batchSize, fate);
    assert Written(flushed + [f]) + [] == Written(flushed + [f]);
  }

  lemma FlushHolds<T>(lane: Lane<T>, received: seq<T>, batchSize: nat, fate: nat -> Fate)
    requires LaneHolds(lane, received, batchSize, fate)
    ensures LaneHolds(FlushLane(lane, fate), received, batchSize, fate) && FlushLane(lane, fate).buffer == []
  {
    if lane.buffer != [] {
      BufferGoesOut(lane.flushed, lane.buffer, received, batchSize, fate);
    }
  }

  lemma PushHolds<T>(lane: Lane<T>, received: seq<T>, x: T, batchSize: nat, fate: nat -> Fate)
    requires LaneHolds(lane, received, batchSize, fate)
    ensures LaneHolds(Push(lane, x, batchSize, fate), received + [x], batchSize, fate)
  {
    var pushed := lane.buffer + [x];
    assert Written(lane.flushed) + pushed == received + [x];
    if |pushed| >= batchSize {
      BufferGoesOut(lane.flushed, pushed, received + [x], batchSize, fate);
    }
  }

  /**
   At every moment, for each kind: the batches flushed, followed by the buffer, are exactly what was
   received, in order; the buffer is below the batch size, and no batch is empty or over it. The fate
   of each batch is the one met by that kind's insert of that number.
   */
  lemma {:induction false} NothingLostOrDuplicated<U, A>(events: seq<Event<U, A>>, batchSize: nat, fates: Fates)
    ensures LaneHolds(After(events, batchSize, fates).usage, UsageOf(events), batchSize, fates.usage)
    ensures LaneHolds(After(events, batchSize, fates).audit, AuditOf(events), batchSize, fates.audit)
  {
    if events != [] {
      var init := events[..|events| - 1];
      var w := After(init, batchSize, fates);
      NothingLostOrDuplicated(init, batchSize, fates);
      match events[|events| - 1] {
        case Received(UsageLog(u)) =>
          PushHolds(w.usage, UsageOf(init), u, batchSize, fates.usage);
          assert AuditOf(events) == AuditOf(init);
        case Received(AuditLog(a)) =>
          PushHolds(w.audit, AuditOf(init), a, batchSize, fates.audit);
          assert UsageOf(events) == UsageOf(init);
        case Tick =>
          FlushHolds(w.usage, UsageOf(init), batchSize, fates.usage);
          FlushHolds(w.audit, AuditOf(init), batchSize, fates.audit);
          assert UsageOf(events) == UsageOf(init) && AuditOf(events) == AuditOf(init);
      }
    }
  }

  /** When the channel has closed, the buffers are empty and everything received has been flushed, in order. */
  lemma DrainedOnClose<U, A>(events: seq<Event<U, A>>, batchSize: nat, fates: Fates)
    ensures var w := Closed(events, batchSize, fates);
            && w.usage.buffer == [] && Written(w.usage.flushed) == UsageOf(events)
            && w.audit.buffer == [] && Written(w.audit.flushed) == AuditOf(events)
            && LaneHolds(w.usage, UsageOf(events), batchSize, fates.usage)
            && LaneHolds(w.audit, AuditOf(events), batchSize, fates.audit)
  {
    var w := After(events, batchSize, fates);
    NothingLostOrDuplicated(events, batchSize, fates);
    FlushHolds(w.usage, UsageOf(events), batchSize, fates.usage);
    FlushHolds(w.audit, AuditOf(events), batchSize, fates.audit);
    var closed := Closed(events, batchSize, fates);
    assert Written(closed.usage.flushed) + [] == Written(closed.usage.flushed);
    assert Written(closed.audit.flushed) + [] == Written(closed.audit.flushed);
  }

  ghost predicate AllFull<T>(flushed: seq<Flush<T>>, batchSize: nat) {
    forall i :: 0 <= i < |flushed| ==> |flushed[i].batch| == Max(1, batchSize)
  }

  lemma PushFlushesFull<T>(lane: Lane<T>, x: T, batchSize: nat, fate: nat -> Fate)
    requires |lane.buffer| < Max(1, batchSize) && AllFull(lane.flushed, batchSize)
    ensures AllFull(Push(lane, x, batchSize, fate).flushed, batchSize)
  {
  }

  /** Only the ticker and the closing of the channel send a batch out before it is full. */
  lemma {:induction false} BatchesAreFull<U, A>(events: seq<Event<U, A>>, batchSize: nat, fates: Fates)
    requires forall i :: 0 <= i < |events| ==> events[i].Received?
    ensures AllFull(After(events, batchSize, fates).usage.flushed, batchSize)
    ensures AllFull(After(events, batchSize, fates).audit.flushed, batchSize)
  {
    if events != [] {
      var init := events[..|events| - 1];
      var w := After(init, batchSize, fates);
      BatchesAreFull(init, batchSize, fates);
      NothingLostOrDuplicated(init, batchSize, fates);
      match events[|events| - 1] {
        case Received(UsageLog(u)) => PushFlushesFull(w.usage, u, batchSize, fates.usage);
        case Received(AuditLog(a)) => PushFlushesFull(w.audit, a, batchSize, fates.audit);
      }
    }
  }

  lemma LastFate<T>(flushed: seq<Flush<T>>, fate: Fate)
    requires flushed != []
    ensures var last := flushed[|flushed| - 1];
            multiset(WithFate(flushed, fate))
            == multiset(WithFate(flushed[..|flushed| - 1], fate))
               + (if last.fate == fate then multiset(last.batch) else multiset{})
  {
  }

  /** The records that were inserted, written to the fallback, and lost make up all that were written. */
  lemma {:induction false} BatchesPartition<T>(flushed: seq<Flush<T>>)
    ensures multiset(WithFate(flushed, Stored)) + multiset(WithFate(flushed, FellBack))
            + multiset(WithFate(flushed, Dropped)) == multiset(Written(flushed))
  {
    if flushed != [] {
      var init, last := flushed[..|flushed| - 1], flushed[|flushed| - 1];
      BatchesPartition(init);
      LastFate(flushed, Stored);
      LastFate(flushed, FellBack);
      LastFate(flushed, Dropped);
      assert multiset(Written(flushed)) == multiset(Written(init)) + multiset(last.batch);
    }
  }

  lemma {:induction false} NoneDroppedIff<T>(flushed: seq<Flush<T>>)
    requires forall i :: 0 <= i < |flushed| ==> flushed[i].batch != []
    ensures WithFate(flushed, Dropped) == [] <==> forall i :: 0 <= i < |flushed| ==> flushed[i].fate != Dropped
  {
    if flushed != [] {
      var init, last := flushed[..|flushed| - 1], flushed[|flushed| - 1];
      NoneDroppedIff(init);
      assert forall i :: 0 <= i < |flushed| ==> flushed[i] == if i < |init| then init[i] else last;
      assert last.fate == Dropped ==> |WithFate(flushed, Dropped)| > 0;
    }
  }

  /** Every record a run received has, once the channel has closed, met exactly one of the three fates. */
  lemma FatesPartition<U, A>(events: seq<Event<U, A>>, batchSize: nat, fates: Fates)
    ensures var w := Closed(events, batchSize, fates);
            && multiset(WithFate(w.usage.flushed, Stored)) + multiset(WithFate(w.usage.flushed, FellBack))
               + multiset(WithFate(w.usage.flushed, Dropped)) == multiset(UsageOf(events))
            && multiset(WithFate(w.audit.flushed, Stored)) + multiset(WithFate(w.audit.flushed, FellBack))
               + multiset(WithFate(w.audit.flushed, Dropped)) == multiset(AuditOf(events))
  {
    var w := Closed(events, batchSize, fates);
    DrainedOnClose(events, batchSize, fates);
    BatchesPartition(w.usage.flushed);
    BatchesPartition(w.audit.flushed);
  }

  /** No record of a run is lost exactly if none of the run's inserts failed together with its fallback. */
  lemma NothingLostIff<U, A>(events: seq<Event<U, A>>, batchSize: nat, fates: Fates)
    ensures var w := Closed(events, batchSize, fates);
            && (WithFate(w.usage.flushed, Dropped) == []
                <==> forall k: nat :: k < |w.usage.flushed| ==> fates.usage(k) != Dropped)
            && (WithFate(w.audit.flushed, Dropped) == []
                <==> forall k: nat :: k < |w.audit.flushed| ==> fates.audit(k) != Dropped)
  {
    var w := Closed(events, batchSize, fates);
    DrainedOnClose(events, batchSize, fates);
    NoneDroppedIff(w.usage.flushed);
    NoneDroppedIff(w.audit.flushed);
    assert forall k: nat :: k < |w.usage.flushed| ==> w.usage.flushed[k].fate == fates.usage(k);
    assert forall k: nat :: k < |w.audit.flushed| ==> w.audit.flushed[k].fate == fates.audit(k);
  }

  // ----- the worker -----

  method FlushBatch<T>(batch: seq<T>, flushed: seq<Flush<T>>, fate: nat -> Fate)
    returns (batch': seq<T>, flushed': seq<Flush<T>>)
    ensures Lane(batch', flushed') == FlushLane(Lane(batch, flushed), fate)
  {
    if batch == [] {
      return batch, flushed;
    }
    // Whether the insert succeeds, or fails and the fallback is tried, the buffer is cleared.
    return [], flushed + [Flush(batch, fate(|flushed|))];
  }

  method RunWorker<U, A>(events: seq<Event<U, A>>, batchSize: nat, fates: Fates)
    returns (usage: seq<Flush<U>>, audit: seq<Flush<A>>)
    ensures Worker(Lane([], usage), Lane([], audit)) == Closed(events, batchSize, fates)
    ensures Written(usage) == UsageOf(events) && Written(audit) == AuditOf(events)
  {
    var usageBatch: seq<U>, auditBatch: seq<A> := [], [];
    usage, audit := [], [];
    for i := 0 to |events|
      invariant Worker(Lane(usageBatch, usage), Lane(auditBatch, audit)) == After(events[..i], batchSize, fates)
    {
      assert events[..i + 1][..i] == events[..i];
      match events[i] {
        case Received(UsageLog(u)) =>
          usageBatch := usageBatch + [u];
          if |usageBatch| >= batchSize {
            usageBatch, usage := FlushBatch(usageBatch, usage, fates.usage);
          }
        case Received(AuditLog(a)) =>
          auditBatch := auditBatch + [a];
          if |auditBatch| >= batchSize {
            auditBatch, audit := FlushBatch(auditBatch, audit, fates.audit);
          }
        case Tick =>
          if usageBatch != [] {
            usageBatch, usage := FlushBatch(usageBatch, usage, fates.usage);
          }
          if auditBatch != [] {
            auditBatch, audit := FlushBatch(auditBatch, audit, fates.audit);
          }
      }
    }
    assert events[..|events|] == events;
    DrainedOnClose(events, batchSize, fates);
    usageBatch, usage := FlushBatch(usageBatch, usage, fates.usage);
    auditBatch, audit := FlushBatch(auditBatch, audit, fates.audit);
  }
}
