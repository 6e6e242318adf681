/**
 The tunnel controller and the tasks that each keep one frpc child process running.

 Tasks run beside the controller: `Step` interleaves their events with `open` and `close`. Both hold
 the controller's lock; `close` keeps it while it waits for its task to end. If the caller of `close`
 goes away meanwhile, `close` is dropped: the lock is freed and the task runs on, detached.
 */
module Tunnel {
  import opened Common

  type Pid = nat

  datatype Phase = Starting | Waiting(pid: Pid) | Backoff | Stopped

  datatype Task = Task(phase: Phase, signalled: bool)

  /** What can happen to a task next. `WaitFailed` and `KillFailed` are errors of the calls on the child. */
  datatype Event =
    | Spawned(pid: Pid) | SpawnFailed
    | Exited | WaitFailed | Killed | KillFailed
    | Elapsed | Interrupted

  /** All tasks ever spawned, by number; `handle` is the one to close, `waitFor` the one being closed. */
  datatype Controller = Controller(serviceId: Option<string>, sender: bool, handle: Option<nat>, closing: bool,
                                   waitFor: Option<nat>, tasks: seq<Task>, alive: set<Pid>)

  datatype Step =
    | Open(serviceId: string) | CloseBegins | CloseEnds | CloseDropped
    | Supervise(task: nat, event: Event) | Dies(pid: Pid)

  const CLOSED := Controller(None, false, None, false, None, [], {})

  /** The child a task is waiting for. */
  function ChildOf(t: Task): set<Pid> {
    if t.phase.Waiting? then {t.phase.pid} else {}
  }

  /** The children that tasks are waiting for. Until it is waited for, a child's process id stays taken. */
  function Children(tasks: seq<Task>): set<Pid> {
    if tasks == [] then {} else Children(tasks[..|tasks| - 1]) + ChildOf(tasks[|tasks| - 1])
  }

  /** One turn of a supervising loop; an event that cannot happen in this phase changes nothing. */
  function Turn(t: Task, e: Event, taken: set<Pid>): Task {
    match (t.phase, e)
    case (Starting, Spawned(pid)) => if pid in taken then t else t.(phase := Waiting(pid))
    case (Starting, SpawnFailed) => t.(phase := Backoff)
    case (Waiting(_), Exited) => t.(phase := Backoff)
    case (Waiting(_), WaitFailed) => t.(phase := Backoff)
    case (Waiting(_), Killed) => if t.signalled then t.(phase := Stopped) else t
    case (Waiting(_), KillFailed) => if t.signalled then t.(phase := Stopped) else t
    case (Backoff, Elapsed) => t.(phase := Starting)
    case (Backoff, Interrupted) => if t.signalled then t.(phase := Stopped) else t
    case _ => t
  }

  /** The processes alive after that turn. */
  function AliveAfter(alive: set<Pid>, t: Task, e: Event, taken: set<Pid>): set<Pid> {
    match (t.phase, e)
    case (Starting, Spawned(pid)) => if pid in taken then alive else alive + {pid}
    case (Waiting(pid), Exited) => alive - {pid}
    case (Waiting(pid), Killed) => if t.signalled then alive - {pid} else alive
    case _ => alive
  }

  function Next(c: Controller, step: Step): Controller {
    match step
    case Open(id) =>
      if c.closing || c.sender then c
      else
        c.(serviceId := Some(id), sender := true, handle := Some(|c.tasks|), tasks := c.tasks + [Task(Starting, false)])
    case CloseBegins =>
      if c.closing then c
      else
        c.(sender := false, closing := true, handle := None, waitFor := c.handle,
           tasks := match c.handle
                    case Some(k) => if k < |c.tasks| then c.tasks[k := c.tasks[k].(signalled := true)] else c.tasks
                    case None => c.tasks)
    case CloseEnds =>
      if c.closing && (c.waitFor.Some? && c.waitFor.value < |c.tasks| ==> c.tasks[c.waitFor.value].phase == Stopped) then
        c.(serviceId := None, closing := false, waitFor := None)
      else c
    case CloseDropped =>
      if c.closing && c.waitFor.Some? then c.(closing := false, waitFor := None) else c
    case Supervise(k, e) =>
      if k >= |c.tasks| then c
      else
        var taken := c.alive + Children(c.tasks);
        c.(tasks := c.tasks[k := Turn(c.tasks[k], e, taken)], alive := AliveAfter(c.alive, c.tasks[k], e, taken))
    case Dies(pid) => c.(alive := c.alive - {pid})
  }

  function Run(steps: seq<Step>): Controller {
    if steps == [] then CLOSED else Next(Run(steps[..|steps| - 1]), steps[|steps| - 1])
  }

  // ----- which processes are alive -----

  /** The child that event `e` makes task `t` let go of without its having ended. */
  function LetGo(t: Task, e: Event): set<Pid> {
    if e.WaitFailed? || (e.KillFailed? && t.signalled) then ChildOf(t) else {}
  }

  /** The children that tasks let go of alive, because a `wait` or `kill` failed, and that live on. */
  function Orphans(steps: seq<Step>): set<Pid> {
    if steps == [] then {}
    else
      var before := steps[..|steps| - 1];
      match steps[|steps| - 1]
      case Dies(pid) => Orphans(before) - {pid}
      case Supervise(k, e) =>
        var c := Run(before);
        Orphans(before) + (if k < |c.tasks| then LetGo(c.tasks[k], e) * c.alive else {})
      case _ => Orphans(before)
  }

  /** No process is any two tasks' child. */
  ghost predicate Distinct(tasks: seq<Task>) {
    forall i, j :: 0 <= i < j < |tasks| ==> ChildOf(tasks[i]) !! ChildOf(tasks[j])
  }

  lemma {:induction false} ChildrenIff(tasks: seq<Task>, pid: Pid)
    ensures pid in Children(tasks) <==> exists k :: 0 <= k < |tasks| && pid in ChildOf(tasks[k])
  {
    if tasks != [] {
      var init, last := tasks[..|tasks| - 1], tasks[|tasks| - 1];
      ChildrenIff(init, pid);
      if pid in Children(init) {
        var k :| 0 <= k < |init| && pid in ChildOf(init[k]);
        assert pid in ChildOf(tasks[k]);
      }
      if k :| 0 <= k < |tasks| && pid in ChildOf(tasks[k]) {
        assert k < |init| ==> pid in ChildOf(init[k]);
      }
    }
  }

  /** Replacing one task replaces its child among the children. */
  lemma ChildrenWrite(tasks: seq<Task>, k: nat, t: Task)
    requires k < |tasks| && Distinct(tasks)
    ensures Children(tasks[k := t]) == Children(tasks) - ChildOf(tasks[k]) + ChildOf(t)
  {
    var after := tasks[k := t];
    forall pid
      ensures pid in Children(after) <==> pid in Children(tasks) - ChildOf(tasks[k]) + ChildOf(t)
    {
      ChildrenIff(tasks, pid);
      ChildrenIff(after, pid);
      if i :| 0 <= i < |after| && pid in ChildOf(after[i]) {
        assert i != k ==> pid in ChildOf(tasks[i]) && (i < k || k < i);
      }
      if i :| 0 <= i < |tasks| && pid in ChildOf(tasks[i]) {
        assert i != k ==> pid in ChildOf(after[i]);
      }
      assert after[k] == t;
    }
  }

  lemma ChildrenAppend(tasks: seq<Task>, t: Task)
    ensures Children(tasks + [t]) == Children(tasks) + ChildOf(t)
  {
    assert (tasks + [t])[..|tasks|] == tasks;
  }

  /** The processes alive are the orphans and, besides, living children; no process is both. */
  ghost predicate Accounted(c: Controller, orphans: set<Pid>) {
    && orphans <= c.alive <= Children(c.tasks) + orphans
    && orphans !! Children(c.tasks)
    && Distinct(c.tasks)
  }

  /** A task that keeps its child, or drops it, stays apart from the others. */
  lemma DistinctWrite(tasks: seq<Task>, k: nat, t: Task)
    requires k < |tasks| && Distinct(tasks)
    requires ChildOf(t) <= ChildOf(tasks[k]) || ChildOf(t) !! Children(tasks)
    ensures Distinct(tasks[k := t])
  {
    forall i, pid | 0 <= i < |tasks| && pid in ChildOf(tasks[i])
      ensures pid in Children(tasks)
    {
      ChildrenIff(tasks, pid);
    }
  }

  lemma TurnAccounted(c: Controller, orphans: set<Pid>, k: nat, e: Event)
    requires Accounted(c, orphans) && k < |c.tasks|
    ensures Accounted(Next(c, Supervise(k, e)), orphans + LetGo(c.tasks[k], e) * c.alive)
  {
    var taken := c.alive + Children(c.tasks);
    var t, t' := c.tasks[k], Turn(c.tasks[k], e, taken);
    assert ChildOf(t) <= Children(c.tasks) by {
      forall pid | pid in ChildOf(t)
        ensures pid in Children(c.tasks)
      {
        ChildrenIff(c.tasks, pid);
      }
    }
    ChildrenWrite(c.tasks, k, t');
    DistinctWrite(c.tasks, k, t');
  }

  lemma StepAccounted(c: Controller, orphans: set<Pid>, step: Step)
    requires Accounted(c, orphans) && !step.Supervise? && !step.Dies?
    ensures Accounted(Next(c, step), orphans)
  {
    match step {
      case Open(_) => ChildrenAppend(c.tasks, Task(Starting, false));
      case CloseBegins =>
        if !c.closing && c.handle.Some? && c.handle.value < |c.tasks| {
          var k := c.handle.value;
          var t := c.tasks[k].(signalled := true);
          forall pid | pid in ChildOf(c.tasks[k])
            ensures pid in Children(c.tasks)
          {
            ChildrenIff(c.tasks, pid);
          }
          ChildrenWrite(c.tasks, k, t);
          DistinctWrite(c.tasks, k, t);
          assert Children(c.tasks[k := t]) == Children(c.tasks);
        }
      case _ =>
    }
  }

  /**
   In every interleaving the frpc processes alive are exactly the orphans and, besides, those children
   that tasks are waiting for which still live.
   */
  lemma {:induction false} AliveExactly(steps: seq<Step>)
    ensures Accounted(Run(steps), Orphans(steps))
  {
    if steps != [] {
      var before, step := steps[..|steps| - 1], steps[|steps| - 1];
      AliveExactly(before);
      if step.Supervise? {
        if step.task < |Run(before).tasks| {
          TurnAccounted(Run(before), Orphans(before), step.task, step.event);
        }
      } else if !step.Dies? {
        StepAccounted(Run(before), Orphans(before), step);
      }
    }
  }

  // ----- which tasks are running -----

  /** The task that the controller still holds, to close it or while closing it. */
  function Own(c: Controller): set<nat> {
    (if c.handle.Some? then {c.handle.value} else {}) + (if c.waitFor.Some? then {c.waitFor.value} else {})
  }

  /** The tasks still running that the controller holds no more: their `close` was dropped. */
  function Detached(c: Controller): set<nat> {
    set k | 0 <= k < |c.tasks| && c.tasks[k].phase != Stopped && k !in Own(c)
  }

  /** How the controller's fields go together; every task but the open one has been told to stop. */
  ghost predicate FieldsAgree(c: Controller) {
    && (c.closing ==> !c.sender)
    && (c.sender <==> c.handle.Some?)
    && (c.sender ==> c.serviceId.Some?)
    && (c.waitFor.Some? ==> c.closing)
    && (c.handle.Some? ==> c.handle.value < |c.tasks|)
    && (c.waitFor.Some? ==> c.waitFor.value < |c.tasks|)
    && (forall k :: 0 <= k < |c.tasks| ==>
          if c.handle == Some(k) then !c.tasks[k].signalled && c.tasks[k].phase != Stopped else c.tasks[k].signalled)
  }

  lemma StepFieldsAgree(c: Controller, step: Step)
    requires FieldsAgree(c)
    ensures FieldsAgree(Next(c, step))
  {
  }

  lemma {:induction false} FieldsAlwaysAgree(steps: seq<Step>)
    ensures FieldsAgree(Run(steps))
  {
    if steps != [] {
      FieldsAlwaysAgree(steps[..|steps| - 1]);
      StepFieldsAgree(Run(steps[..|steps| - 1]), steps[|steps| - 1]);
    }
  }

  /** A child that ends, or is lost, or cannot be started, is started again after the backoff. */
  lemma ChildIsRestarted(c: Controller, k: nat, e: Event, pid: Pid)
    requires k < |c.tasks| && pid !in c.alive && pid !in Children(c.tasks)
    requires if c.tasks[k].phase.Waiting? then e.Exited? || e.WaitFailed? else c.tasks[k].phase.Starting? && e.SpawnFailed?
    ensures var waiting := Next(c, Supervise(k, e));
            var again := Next(Next(waiting, Supervise(k, Elapsed)), Supervise(k, Spawned(pid)));
            && waiting.tasks[k].phase == Backoff
            && again.tasks[k] == Task(Waiting(pid), c.tasks[k].signalled)
            && again.alive == waiting.alive + {pid}
  {
    var waiting := Next(c, Supervise(k, e));
    var starting := Next(waiting, Supervise(k, Elapsed));
    forall p
      ensures p in Children(starting.tasks) ==> p in Children(c.tasks)
    {
      ChildrenIff(starting.tasks, p);
      ChildrenIff(c.tasks, p);
      if i :| 0 <= i < |starting.tasks| && p in ChildOf(starting.tasks[i]) {
        assert p in ChildOf(c.tasks[i]);
      }
    }
  }

  /** A task that has been told to stop does so, in the backoff at once and otherwise by killing its child. */
  lemma StopsWhenTold(c: Controller, k: nat)
    requires k < |c.tasks| && c.tasks[k].signalled
    ensures c.tasks[k].phase.Backoff? ==> Next(c, Supervise(k, Interrupted)).tasks[k].phase == Stopped
    ensures c.tasks[k].phase.Waiting?
            ==> var killed := Next(c, Supervise(k, Killed));
                killed.tasks[k].phase == Stopped && killed.alive == c.alive - {c.tasks[k].phase.pid}
  {
  }

  /** And only such a task stops. */
  lemma StopsOnlyWhenTold(steps: seq<Step>, k: nat)
    requires k < |Run(steps).tasks| && Run(steps).tasks[k].phase == Stopped
    ensures Run(steps).tasks[k].signalled
  {
    FieldsAlwaysAgree(steps);
  }

  /** The living children of the tasks in `which`. */
  ghost function LivingChildren(c: Controller, which: set<nat>): set<Pid> {
    set k, pid | k in which && 0 <= k < |c.tasks| && pid in ChildOf(c.tasks[k]) && pid in c.alive :: pid
  }

  lemma LivingSplit(c: Controller)
    ensures Children(c.tasks) * c.alive == LivingChildren(c, Own(c)) + LivingChildren(c, Detached(c))
  {
    forall pid
      ensures pid in Children(c.tasks) * c.alive <==> pid in LivingChildren(c, Own(c)) + LivingChildren(c, Detached(c))
    {
      ChildrenIff(c.tasks, pid);
      if pid in c.alive {
        if k :| 0 <= k < |c.tasks| && pid in ChildOf(c.tasks[k]) {
          assert c.tasks[k].phase != Stopped;
          assert k in Own(c) || k in Detached(c);
        }
      }
    }
  }

  lemma AccountedSize(c: Controller, orphans: set<Pid>)
    requires Accounted(c, orphans)
    ensures c.alive == orphans + Children(c.tasks) * c.alive
    ensures |c.alive| == |orphans| + |Children(c.tasks) * c.alive|
  {
    var living := Children(c.tasks) * c.alive;
    assert c.alive == orphans + living;
    assert orphans !! living;
  }

  lemma NothingOwn(c: Controller)
    requires FieldsAgree(c) && !c.sender && !c.closing
    ensures LivingChildren(c, Own(c)) == {}
  {
    assert Own(c) == {};
  }

  lemma ThreeParts(alive: set<Pid>, orphans: set<Pid>, living: set<Pid>, own: set<Pid>, detached: set<Pid>)
    requires alive == orphans + living && living == own + detached
    ensures alive == orphans + own + detached
    ensures own == {} ==> alive == orphans + detached && (alive == {} <==> orphans == {} && detached == {})
  {
  }

  lemma AlivePartsOf(c: Controller, orphans: set<Pid>)
    requires Accounted(c, orphans)
    ensures c.alive == orphans + LivingChildren(c, Own(c)) + LivingChildren(c, Detached(c))
    ensures LivingChildren(c, Own(c)) == {} ==>
              && c.alive == orphans + LivingChildren(c, Detached(c))
              && (c.alive == {} <==> orphans == {} && LivingChildren(c, Detached(c)) == {})
  {
    AccountedSize(c, orphans);
    LivingSplit(c);
    ThreeParts(c.alive, orphans, Children(c.tasks) * c.alive, LivingChildren(c, Own(c)), LivingChildren(c, Detached(c)));
  }

  /**
   The processes alive, whatever the interleaving: the orphans, the child of the task that the
   controller holds, and those of detached tasks. Once `close` has returned or been dropped, just the
   orphans and the children of detached tasks; so none is left exactly if neither has one.
   */
  lemma AliveAre(steps: seq<Step>)
    ensures var c := Run(steps);
            && c.alive == Orphans(steps) + LivingChildren(c, Own(c)) + LivingChildren(c, Detached(c))
            && (!c.sender && !c.closing ==>
                  && c.alive == Orphans(steps) + LivingChildren(c, Detached(c))
                  && (c.alive == {} <==> Orphans(steps) == {} && LivingChildren(c, Detached(c)) == {}))
  {
    AliveExactly(steps);
    AlivePartsOf(Run(steps), Orphans(steps));
    FieldsAlwaysAgree(steps);
    if !Run(steps).sender && !Run(steps).closing {
      NothingOwn(Run(steps));
    }
  }

  lemma OwnIsOne(c: Controller)
    requires FieldsAgree(c)
    ensures |LivingChildren(c, Own(c))| <= 1
  {
    var living := LivingChildren(c, Own(c));
    if living != {} {
      var pid :| pid in living;
      var k :| k in Own(c) && 0 <= k < |c.tasks| && pid in ChildOf(c.tasks[k]);
      forall other | other in living
        ensures other == pid
      {
        var i :| i in Own(c) && 0 <= i < |c.tasks| && other in ChildOf(c.tasks[i]);
        assert i == k;
      }
      assert living == {pid};
    }
  }

  /**
   There is at most one process exactly if orphans and living children of all tasks come to no more;
   in particular while there is no orphan and no detached task has a living child.
   */
  lemma AtMostOneChildIff(steps: seq<Step>)
    ensures |Run(steps).alive| <= 1 <==> |Orphans(steps)| + |Children(Run(steps).tasks) * Run(steps).alive| <= 1
    ensures Orphans(steps) == {} && LivingChildren(Run(steps), Detached(Run(steps))) == {} ==> |Run(steps).alive| <= 1
  {
    var c := Run(steps);
    AliveExactly(steps);
    AccountedSize(c, Orphans(steps));
    FieldsAlwaysAgree(steps);
    if Orphans(steps) == {} && LivingChildren(c, Detached(c)) == {} {
      OwnIsOne(c);
      LivingSplit(c);
      assert c.alive == LivingChildren(c, Own(c));
    }
  }

  // ----- runs in which nothing goes wrong -----

  /** No `wait` or `kill` fails, and no `close` is dropped. */
  predicate Clean(steps: seq<Step>) {
    forall i :: 0 <= i < |steps| ==>
      && steps[i] != CloseDropped
      && (steps[i].Supervise? ==> !steps[i].event.WaitFailed? && !steps[i].event.KillFailed?)
  }

  lemma DetachedNext(c: Controller, step: Step)
    requires FieldsAgree(c) && Detached(c) == {} && step != CloseDropped
    ensures Detached(Next(c, step)) == {}
  {
    forall k
      ensures k !in Detached(Next(c, step))
    {
      assert k !in Detached(c);
    }
  }

  /** Then there is at most one process, and none once `close` has returned. */
  lemma {:induction false} NoOrphans(steps: seq<Step>)
    requires Clean(steps)
    ensures Orphans(steps) == {} && Detached(Run(steps)) == {} && |Run(steps).alive| <= 1
    ensures !Run(steps).sender && !Run(steps).closing ==> Run(steps).alive == {}
  {
    if steps != [] {
      var before, step := steps[..|steps| - 1], steps[|steps| - 1];
      assert step != CloseDropped && (step.Supervise? ==> !step.event.WaitFailed? && !step.event.KillFailed?);
      assert Clean(before) by {
        assert forall i :: 0 <= i < |before| ==> before[i] == steps[i];
      }
      NoOrphans(before);
      FieldsAlwaysAgree(before);
      DetachedNext(Run(before), step);
    }
    AliveAre(steps);
    AtMostOneChildIff(steps);
  }

  // ----- and runs in which something does -----

  lemma RunNext(steps: seq<Step>, step: Step)
    ensures Run(steps + [step]) == Next(Run(steps), step)
  {
    assert (steps + [step])[..|steps|] == steps;
  }

  lemma PairAppended(steps: seq<Step>, step: Step, step': Step)
    ensures steps + [step, step'] == steps + [step] + [step']
  {
  }

  lemma RunTwo(steps: seq<Step>, step: Step, step': Step)
    ensures Run(steps + [step, step']) == Next(Next(Run(steps), step), step')
  {
    PairAppended(steps, step, step');
    RunNext(steps, step);
    RunNext(steps + [step], step');
  }

  /** Open under `id`, with the one task in this phase. */
  function OpenWith(id: string, phase: Phase, alive: set<Pid>): Controller {
    Controller(Some(id), true, Some(0), false, None, [Task(phase, false)], alive)
  }

  lemma OpenAndSpawn(id: string)
    ensures Next(Next(CLOSED, Open(id)), Supervise(0, Spawned(1))) == OpenWith(id, Waiting(1), {1})
  {
    assert [] + [Task(Starting, false)] == [Task(Starting, false)];
    assert Children([Task(Starting, false)]) == {};
  }

  lemma FailAndRestart(id: string)
    ensures Next(Next(OpenWith(id, Waiting(1), {1}), Supervise(0, WaitFailed)), Supervise(0, Elapsed))
            == OpenWith(id, Starting, {1})
  {
  }

  lemma SpawnBeside(id: string)
    ensures Next(OpenWith(id, Starting, {1}), Supervise(0, Spawned(2))).alive == {1, 2}
  {
    assert Children([Task(Starting, false)]) == {};
  }

  /** After a failed `wait` a second process can start beside the first. */
  lemma FailedWaitLeavesTwo(id: string)
    ensures Run([Open(id), Supervise(0, Spawned(1))] + [Supervise(0, WaitFailed), Supervise(0, Elapsed)]
                + [Supervise(0, Spawned(2))]).alive == {1, 2}
  {
    var started := [Open(id), Supervise(0, Spawned(1))];
    var restarted := started + [Supervise(0, WaitFailed), Supervise(0, Elapsed)];
    RunTwo([], Open(id), Supervise(0, Spawned(1)));
    assert [] + started == started;
    OpenAndSpawn(id);
    RunTwo(started, Supervise(0, WaitFailed), Supervise(0, Elapsed));
    FailAndRestart(id);
    RunNext(restarted, Supervise(0, Spawned(2)));
    SpawnBeside(id);
  }

  /** The lock is free again, and the old task, told to stop, still waits for its child. */
  function Dropped(id: string): Controller {
    Controller(Some(id), false, None, false, None, [Task(Waiting(1), true)], {1})
  }

  lemma CloseAndDrop(id: string)
    ensures Next(Next(OpenWith(id, Waiting(1), {1}), CloseBegins), CloseDropped) == Dropped(id)
  {
  }

  lemma ReopenBeside(id: string, id': string)
    ensures Next(Next(Dropped(id), Open(id')), Supervise(1, Spawned(2))).alive == {1, 2}
  {
    var tasks := [Task(Waiting(1), true)] + [Task(Starting, false)];
    ChildrenAppend([Task(Waiting(1), true)], Task(Starting, false));
    assert [Task(Waiting(1), true)][..0] == [];
    assert Children(tasks) == {1};
    assert Next(Dropped(id), Open(id')).tasks == tasks;
  }

  /** After a dropped `close` a new task can start its child while the old one's is still being killed. */
  lemma DroppedCloseLeavesTwo(id: string, id': string)
    ensures Run([Open(id), Supervise(0, Spawned(1))] + [CloseBegins, CloseDropped]
                + [Open(id'), Supervise(1, Spawned(2))]).alive == {1, 2}
  {
    var started := [Open(id), Supervise(0, Spawned(1))];
    RunTwo([], Open(id), Supervise(0, Spawned(1)));
    assert [] + started == started;
    OpenAndSpawn(id);
    RunTwo(started, CloseBegins, CloseDropped);
    CloseAndDrop(id);
    RunTwo(started + [CloseBegins, CloseDropped], Open(id'), Supervise(1, Spawned(2)));
    ReopenBeside(id, id');
  }

  // ----- the controller -----

  class TunController {
    var serviceId: Option<string>
    var sender: bool
    var handle: Option<nat>
    var closing: bool
    var waitFor: Option<nat>
    var tasks: seq<Task>
    var alive: set<Pid>

    function Contents(): Controller
      reads this
    {
      Controller(serviceId, sender, handle, closing, waitFor, tasks, alive)
    }

    constructor ()
      ensures Contents() == CLOSED
    {
      serviceId, sender, handle, closing, waitFor, tasks, alive := None, false, None, false, None, [], {};
    }

    /** With the lock free. */
    method Open(newId: string) returns (status: Option<string>)
      requires !closing
      modifies this
      ensures Contents() == Next(old(Contents()), Step.Open(newId))
      ensures status == if old(sender) then old(serviceId) else Some(newId)
    {
      if sender {
        return serviceId;
      }
      serviceId := Some(newId);
      sender := true;
      handle := Some(|tasks|);
      tasks := tasks + [Task(Starting, false)];
      return serviceId;
    }

    /**
     `events` is what happens to the task while `close` waits for it; the last of them ends the task,
     unless `close` is dropped before that.
     */
    method Close(events: seq<Event>, dropped: bool)
      requires !closing && FieldsAgree(Contents())
      requires handle.Some? && !dropped ==> Stops(Next(Contents(), CloseBegins), handle.value, events)
      modifies this
      ensures var begun := Next(old(Contents()), CloseBegins);
              Contents()
              == if old(handle).None? then Next(begun, CloseEnds)
                 else Next(AfterEvents(begun, old(handle).value, events), if dropped then CloseDropped else CloseEnds)
      ensures !sender && !closing && (old(handle).None? || !dropped ==> serviceId == None)
    {
      sender := false;
      closing := true;
      waitFor, handle := handle, None;
      if waitFor.Some? {
        var k := waitFor.value;
        tasks := tasks[k := tasks[k].(signalled := true)];
        SuperviseFrpc(k, events);
        if dropped {
          closing, waitFor := false, None;
          return;
        }
      }
      serviceId, closing, waitFor := None, false, None;
    }

    /** One task's supervising loop, as far as `events` take it. */
    method SuperviseFrpc(k: nat, events: seq<Event>)
      requires k < |tasks|
      modifies this`tasks, this`alive
      ensures Contents() == AfterEvents(old(Contents()), k, events) && |tasks| == |old(tasks)|
    {
      ghost var start := Contents();
      for i := 0 to |events|
        invariant Contents() == AfterEvents(start, k, events[..i]) && |tasks| == |start.tasks|
      {
        assert events[..i + 1][..i] == events[..i];
        HandleEvent(k, events[i]);
      }
      assert events[..|events|] == events;
    }

    method HandleEvent(k: nat, event: Event)
      requires k < |tasks|
      modifies this`tasks, this`alive
      ensures Contents() == Next(old(Contents()), Supervise(k, event)) && |tasks| == |old(tasks)|
    {
      var t := tasks[k];
      match (t.phase, event)
      case (Starting, Spawned(pid)) =>
        if pid !in alive && pid !in Children(tasks) {
          alive := alive + {pid};
          tasks := tasks[k := t.(phase := Waiting(pid))];
        }
      case (Starting, SpawnFailed) =>
        tasks := tasks[k := t.(phase := Backoff)];
      case (Waiting(pid), Exited) =>
        alive := alive - {pid};
        tasks := tasks[k := t.(phase := Backoff)];
      case (Waiting(_), WaitFailed) =>
        tasks := tasks[k := t.(phase := Backoff)];
      case (Waiting(pid), Killed) =>
        if t.signalled {
          alive := alive - {pid};
          tasks := tasks[k := t.(phase := Stopped)];
        }
      case (Waiting(_), KillFailed) =>
        if t.signalled {
          tasks := tasks[k := t.(phase := Stopped)];
        }
      case (Backoff, Elapsed) =>
        tasks := tasks[k := t.(phase := Starting)];
      case (Backoff, Interrupted) =>
        if t.signalled {
          tasks := tasks[k := t.(phase := Stopped)];
        }
      case _ =>
    }
  }

  function AfterEvents(c: Controller, k: nat, events: seq<Event>): Controller {
    if events == [] then c else Next(AfterEvents(c, k, events[..|events| - 1]), Supervise(k, events[|events| - 1]))
  }

  predicate Stops(c: Controller, k: nat, events: seq<Event>) {
    var after := AfterEvents(c, k, events);
    k < |after.tasks| && after.tasks[k].phase == Stopped
  }
}
