/** The registry of background jobs (src/background-tasks.cpp): jobs post results from their threads, the UI thread
    drains them, owners cancel their groups, and the module shuts it all down. One step for each locked section. */
module Tasks {
  import opened Words

  datatype Group = Group(cancelled: bool, running: nat)

  /** id: results are numbered in the order they were accepted. */
  datatype Queued = Queued(id: nat, group: Option<nat>)

  /** taken: what Drain swapped out and has not looked at yet; cleared: the result it is about to run;
      started: every result run so far, in order; owners: the group of each accepted result. */
  datatype State = State(shutDown: bool, running: nat, wakePending: bool, queue: seq<Queued>, groups: seq<Group>,
                         taken: seq<Queued>, cleared: Option<Queued>, jobs: multiset<Option<nat>>,
                         started: seq<nat>, owners: seq<Option<nat>>)

  const START := State(false, 0, false, [], [], [], None, multiset{}, [], [])

  datatype Event =
    | NewGroup
    | StartJob(group: Option<nat>, threadStarts: bool)
    | Post(group: Option<nat>, wakes: bool)
    | FinishJob(group: Option<nat>)
    | TakeQueue
    | CheckNext
    | RunCleared
    | Cancel(owner: nat)
    | Shutdown

  function Cancelled(s: State, group: Option<nat>): bool {
    group.Some? && group.value < |s.groups| && s.groups[group.value].cancelled
  }

  /** Still wanted: nothing was cancelled or shut down. */
  predicate Open(s: State, group: Option<nat>) { !s.shutDown && !Cancelled(s, group) }

  /** The counter of a job's group goes up or down with it. */
  function Counted(groups: seq<Group>, group: Option<nat>, change: int): (out: seq<Group>)
    ensures |out| == |groups|
  {
    seq(|groups|, g requires 0 <= g < |groups| =>
      if group == Some(g) then groups[g].(running := Max(0, groups[g].running + change)) else groups[g])
  }

  function Without(queue: seq<Queued>, group: nat): (rest: seq<Queued>) {
    if queue == [] then []
    else (if queue[0].group == Some(group) then [] else [queue[0]]) + Without(queue[1..], group)
  }

  predicate Enabled(s: State, e: Event) {
    match e
    case StartJob(group, _) => group.Some? ==> group.value < |s.groups|
    case Post(group, _) => group.Some? ==> group.value < |s.groups|
    case FinishJob(group) => group in s.jobs
    case TakeQueue => s.taken == [] && s.cleared.None?
    case CheckNext => s.taken != [] && s.cleared.None?
    case RunCleared => s.cleared.Some?
    case Cancel(group) => group < |s.groups|
    case _ => true
  }

  function Step(s: State, e: Event): State
    requires Enabled(s, e)
  {
    match e
    case NewGroup => s.(groups := s.groups + [Group(false, 0)])
    case StartJob(group, threadStarts) =>
      if !Open(s, group) || !threadStarts then s
      else s.(running := s.running + 1, groups := Counted(s.groups, group, 1), jobs := s.jobs + multiset{group})
    case Post(group, wakes) =>
      if !Open(s, group) then s
      else s.(queue := s.queue + [Queued(|s.owners|, group)], owners := s.owners + [group],
              wakePending := s.wakePending || wakes)
    case FinishJob(group) =>
      s.(running := Max(0, s.running - 1), groups := Counted(s.groups, group, -1), jobs := s.jobs - multiset{group})
    case TakeQueue =>
      if s.shutDown then s.(wakePending := false)
      else s.(wakePending := false, taken := s.queue, queue := [])
    case CheckNext =>
      s.(taken := s.taken[1..], cleared := if Open(s, s.taken[0].group) then Some(s.taken[0]) else None)
    case RunCleared => s.(cleared := None, started := s.started + [s.cleared.value.id])
    case Cancel(group) =>
      s.(groups := s.groups[group := s.groups[group].(cancelled := true)], queue := Without(s.queue, group))
    case Shutdown => s.(shutDown := true, queue := [])
  }

  // --- What holds in every reachable state ---

  /** Results on their way, oldest first. */
  function Waiting(s: State): seq<Queued> {
    (if s.cleared.Some? then [s.cleared.value] else []) + s.taken + s.queue
  }

  ghost predicate InOrder(started: seq<nat>, waiting: seq<Queued>, count: nat) {
    && (forall i, j :: 0 <= i < j < |started| ==> started[i] < started[j])
    && (forall i, j :: 0 <= i < j < |waiting| ==> waiting[i].id < waiting[j].id)
    && (forall i, j :: 0 <= i < |started| && 0 <= j < |waiting| ==> started[i] < waiting[j].id)
    && (forall i :: 0 <= i < |started| ==> started[i] < count)
    && (forall j :: 0 <= j < |waiting| ==> waiting[j].id < count)
  }

  ghost predicate Labelled(waiting: seq<Queued>, owners: seq<Option<nat>>) {
    forall j :: 0 <= j < |waiting| ==> waiting[j].id < |owners| && waiting[j].group == owners[waiting[j].id]
  }

  ghost predicate Holds(waiting: seq<Queued>, id: nat) {
    exists j :: 0 <= j < |waiting| && waiting[j].id == id
  }

  /** A result is never lost: it ran, it will be looked at, or nobody wants it any more. */
  ghost predicate NothingLost(s: State) {
    forall id :: 0 <= id < |s.owners| ==>
      id in s.started || Holds(Waiting(s), id) || s.shutDown || Cancelled(s, s.owners[id])
  }

  ghost predicate CountersRight(s: State) { Tally(s.running, s.groups, s.jobs) }

  /** Nothing of a cancelled group is in the queue; after shutdown the queue stays empty. */
  ghost predicate QueueOpen(s: State) {
    forall j :: 0 <= j < |s.queue| ==> Open(s, s.queue[j].group)
  }

  ghost predicate OwnersKnown(s: State) {
    && (forall id :: 0 <= id < |s.owners| && s.owners[id].Some? ==> s.owners[id].value < |s.groups|)
  }

  ghost predicate Inv(s: State) {
    && InOrder(s.started, Waiting(s), |s.owners|) && Labelled(Waiting(s), s.owners)
    && NothingLost(s) && CountersRight(s) && QueueOpen(s) && OwnersKnown(s)
  }

  lemma {:induction false} WithoutHolds(queue: seq<Queued>, group: nat)
    ensures forall x :: x in Without(queue, group) <==> x in queue && x.group != Some(group)
    decreases |queue|
  {
    if queue != [] {
      WithoutHolds(queue[1..], group);
      assert queue == [queue[0]] + queue[1..];
    }
  }

  ghost predicate Rising(queue: seq<Queued>) {
    forall i, j :: 0 <= i < j < |queue| ==> queue[i].id < queue[j].id
  }

  lemma {:induction false} WithoutRises(queue: seq<Queued>, group: nat)
    requires Rising(queue)
    ensures Rising(Without(queue, group))
    decreases |queue|
  {
    if queue != [] {
      var more := Without(queue[1..], group);
      WithoutRises(queue[1..], group);
      WithoutHolds(queue[1..], group);
      if queue[0].group != Some(group) {
        FirstRises(queue, more);
      }
    }
  }

  lemma FirstRises(queue: seq<Queued>, more: seq<Queued>)
    requires queue != [] && Rising(queue) && Rising(more) && forall x :: x in more ==> x in queue[1..]
    ensures Rising([queue[0]] + more)
  {
    forall x | x in more
      ensures queue[0].id < x.id
    {
      var k :| 0 <= k < |queue[1..]| && queue[1..][k] == x;
    }
    assert forall j :: 0 <= j < |more| ==> more[j] in more;
  }

  lemma WithoutKeeps(queue: seq<Queued>, group: nat)
    ensures forall x :: x in Without(queue, group) <==> x in queue && x.group != Some(group)
    ensures Rising(queue) ==> Rising(Without(queue, group))
  {
    hide Rising, Without;
    WithoutHolds(queue, group);
    if Rising(queue) {
      WithoutRises(queue, group);
    }
  }

  lemma HoldsOf(waiting: seq<Queued>, waiting': seq<Queued>, id: nat)
    requires forall x :: x in waiting ==> x in waiting'
    ensures Holds(waiting, id) ==> Holds(waiting', id)
  {
    if j :| 0 <= j < |waiting| && waiting[j].id == id {
      assert waiting[j] in waiting';
    }
  }

  /** A step that keeps the results on their way, and cancels nothing. */
  lemma SameWaiting(s: State, s': State)
    requires Inv(s) && Waiting(s') == Waiting(s) && s'.started == s.started && s'.owners == s.owners
    requires s'.queue == s.queue && s'.shutDown == s.shutDown && |s.groups| <= |s'.groups|
    requires forall g :: 0 <= g < |s.groups| ==> s'.groups[g].cancelled == s.groups[g].cancelled
    requires forall g :: |s.groups| <= g < |s'.groups| ==> !s'.groups[g].cancelled
    ensures InOrder(s'.started, Waiting(s'), |s'.owners|) && Labelled(Waiting(s'), s'.owners)
    ensures NothingLost(s') && QueueOpen(s') && OwnersKnown(s')
  {
    hide InOrder, Labelled, Holds, CountersRight, Waiting;
  }

  ghost predicate Tally(running: nat, groups: seq<Group>, jobs: multiset<Option<nat>>) {
    && running == |jobs|
    && (forall g: nat :: g < |groups| ==> groups[g].running == jobs[Some(g)])
    && (forall group :: group in jobs ==> group.Some? ==> group.value < |groups|)
  }

  lemma JobStarts(running: nat, groups: seq<Group>, jobs: multiset<Option<nat>>, group: Option<nat>)
    requires Tally(running, groups, jobs) && (group.Some? ==> group.value < |groups|)
    ensures Tally(running + 1, Counted(groups, group, 1), jobs + multiset{group})
  {
  }

  lemma CountedCancels(groups: seq<Group>, group: Option<nat>, change: int)
    ensures forall g :: 0 <= g < |groups| ==> Counted(groups, group, change)[g].cancelled == groups[g].cancelled
  {
  }

  lemma JobEnds(running: nat, groups: seq<Group>, jobs: multiset<Option<nat>>, group: Option<nat>)
    requires Tally(running, groups, jobs) && group in jobs
    ensures running > 0 && Tally(running - 1, Counted(groups, group, -1), jobs - multiset{group})
  {
    assert jobs == (jobs - multiset{group}) + multiset{group};
  }

  // What happens at the front of the line of waiting results.

  lemma FrontLeaves(started: seq<nat>, waiting: seq<Queued>, owners: seq<Option<nat>>)
    requires waiting != [] && InOrder(started, waiting, |owners|) && Labelled(waiting, owners)
    ensures InOrder(started, waiting[1..], |owners|) && Labelled(waiting[1..], owners)
    ensures InOrder(started + [waiting[0].id], waiting[1..], |owners|)
  {
  }

  lemma FrontOrRest(waiting: seq<Queued>, id: nat)
    requires Holds(waiting, id)
    ensures waiting != [] && (waiting[0].id == id || Holds(waiting[1..], id))
  {
    var j :| 0 <= j < |waiting| && waiting[j].id == id;
    if j > 0 {
      assert waiting[1..][j - 1].id == id;
    }
  }

  lemma PostKeeps(s: State, group: Option<nat>, wakes: bool)
    requires Inv(s) && Enabled(s, Post(group, wakes)) && Open(s, group)
    ensures Inv(Step(s, Post(group, wakes)))
  {
    var s', entry := Step(s, Post(group, wakes)), Queued(|s.owners|, group);
    assert Waiting(s') == Waiting(s) + [entry];
    assert CountersRight(s');
    assert InOrder(s'.started, Waiting(s'), |s'.owners|) by { hide Waiting; }
    assert Labelled(Waiting(s'), s'.owners) by { hide Waiting; }
    forall id | 0 <= id < |s'.owners|
      ensures id in s'.started || Holds(Waiting(s'), id) || s'.shutDown || Cancelled(s', s'.owners[id])
    {
      hide Waiting;
      if id == |s.owners| {
        assert Waiting(s')[|Waiting(s)|].id == id;
      } else {
        HoldsOf(Waiting(s), Waiting(s'), id);
      }
    }
  }

  lemma CheckWaiting(s: State)
    requires Enabled(s, CheckNext)
    ensures Waiting(s) != [] && Waiting(s)[0] == s.taken[0]
    ensures Waiting(Step(s, CheckNext)) == if Open(s, s.taken[0].group) then Waiting(s) else Waiting(s)[1..]
  {
    var s', next := Step(s, CheckNext), s.taken[0];
    assert Waiting(s) == [next] + (s.taken[1..] + s.queue);
    assert Waiting(s') == (if Open(s, next.group) then [next] else []) + (s.taken[1..] + s.queue);
  }

  lemma FrontLabelled(waiting: seq<Queued>, owners: seq<Option<nat>>)
    requires waiting != [] && Labelled(waiting, owners)
    ensures waiting[0].id < |owners| && owners[waiting[0].id] == waiting[0].group
  {
  }

  lemma CheckKeeps(s: State)
    requires Inv(s) && Enabled(s, CheckNext)
    ensures Inv(Step(s, CheckNext))
  {
    hide Waiting, Tally, InOrder, Labelled, Holds, QueueOpen, OwnersKnown;
    var s' := Step(s, CheckNext);
    CheckWaiting(s);
    FrontLeaves(s.started, Waiting(s), s.owners);
    FrontLabelled(Waiting(s), s.owners);
    forall id | 0 <= id < |s'.owners|
      ensures id in s'.started || Holds(Waiting(s'), id) || s'.shutDown || Cancelled(s', s'.owners[id])
    {
      if Holds(Waiting(s), id) {
        FrontOrRest(Waiting(s), id);
      }
    }
    SameOpen(s, s');
  }

  lemma SameOpen(s: State, s': State)
    requires s'.queue == s.queue && s'.groups == s.groups && s'.shutDown == s.shutDown && s'.owners == s.owners
    ensures QueueOpen(s) ==> QueueOpen(s')
    ensures OwnersKnown(s) ==> OwnersKnown(s')
  {
  }

  lemma ClearedWaiting(s: State)
    requires Enabled(s, RunCleared)
    ensures Waiting(s) != [] && Waiting(s)[0] == s.cleared.value
    ensures Waiting(Step(s, RunCleared)) == Waiting(s)[1..]
  {
    var s' := Step(s, RunCleared);
    assert Waiting(s) == [s.cleared.value] + (s.taken + s.queue) && Waiting(s') == s.taken + s.queue;
  }

  lemma RunClearedKeeps(s: State)
    requires Inv(s) && Enabled(s, RunCleared)
    ensures Inv(Step(s, RunCleared))
  {
    var s' := Step(s, RunCleared);
    ClearedWaiting(s);
    FrontLeaves(s.started, Waiting(s), s.owners);
    hide Waiting, Tally, InOrder, Labelled, Holds;
    assert s'.started[|s.started|] == s.cleared.value.id;
    forall id | 0 <= id < |s'.owners|
      ensures id in s'.started || Holds(Waiting(s'), id) || s'.shutDown || Cancelled(s', s'.owners[id])
    {
      if Holds(Waiting(s), id) {
        FrontOrRest(Waiting(s), id);
      }
    }
  }

  function Front(s: State): seq<Queued> { (if s.cleared.Some? then [s.cleared.value] else []) + s.taken }

  lemma CancelWaiting(s: State, group: nat)
    requires InOrder(s.started, Waiting(s), |s.owners|) && Labelled(Waiting(s), s.owners) && Enabled(s, Cancel(group))
    ensures var s' := Step(s, Cancel(group));
            InOrder(s'.started, Waiting(s'), |s'.owners|) && Labelled(Waiting(s'), s'.owners)
    ensures var s' := Step(s, Cancel(group));
            forall x :: x in Waiting(s) ==> x in Waiting(s') || x.group == Some(group)
  {
    var s' := Step(s, Cancel(group));
    WithoutKeeps(s.queue, group);
    TailOrdered(s.started, Front(s), s.queue, |s.owners|);
    hide InOrder, Without, Rising;
    assert Waiting(s) == Front(s) + s.queue && Waiting(s') == Front(s) + s'.queue;
    StillOrdered(s.started, Front(s), s.queue, s'.queue, |s.owners|);
    StillLabelled(Front(s), s.queue, s'.queue, s.owners);
    hide Labelled, Waiting, Front;
  }

  lemma TailOrdered(started: seq<nat>, front: seq<Queued>, queue: seq<Queued>, count: nat)
    requires InOrder(started, front + queue, count)
    ensures Rising(queue)
  {
    assert forall i :: 0 <= i < |queue| ==> (front + queue)[|front| + i] == queue[i];
  }

  lemma StillLabelled(front: seq<Queued>, queue: seq<Queued>, queue': seq<Queued>, owners: seq<Option<nat>>)
    requires Labelled(front + queue, owners) && forall x :: x in queue' ==> x in queue
    ensures Labelled(front + queue', owners)
  {
    assert forall i :: 0 <= i < |front| ==> (front + queue)[i] == front[i];
    forall x | x in queue'
      ensures x.id < |owners| && x.group == owners[x.id]
    {
      var k :| 0 <= k < |queue| && queue[k] == x;
      assert (front + queue)[|front| + k] == x;
    }
    assert forall j :: 0 <= j < |queue'| ==> queue'[j] in queue';
  }

  lemma StillOrdered(started: seq<nat>, front: seq<Queued>, queue: seq<Queued>, queue': seq<Queued>, count: nat)
    requires InOrder(started, front + queue, count) && forall x :: x in queue' ==> x in queue
    requires Rising(queue')
    ensures InOrder(started, front + queue', count)
  {
    assert forall i :: 0 <= i < |front| ==> (front + queue)[i] == front[i];
    assert forall i :: 0 <= i < |queue| ==> (front + queue)[|front| + i] == queue[i];
    forall x | x in queue'
      ensures x.id < count && (forall i :: 0 <= i < |front| ==> front[i].id < x.id)
              && forall i :: 0 <= i < |started| ==> started[i] < x.id
    {
      var k :| 0 <= k < |queue| && queue[k] == x;
      assert (front + queue)[|front| + k] == x;
    }
    assert forall j :: 0 <= j < |queue'| ==> queue'[j] in queue';
  }

  lemma CancelledTally(running: nat, groups: seq<Group>, jobs: multiset<Option<nat>>, g: nat)
    requires Tally(running, groups, jobs) && g < |groups|
    ensures Tally(running, groups[g := groups[g].(cancelled := true)], jobs)
  {
  }

  lemma CancelKeeps(s: State, group: nat)
    requires Inv(s) && Enabled(s, Cancel(group))
    ensures Inv(Step(s, Cancel(group)))
  {
    hide InOrder, Waiting, Without, Tally, QueueOpen, Labelled;
    var s' := Step(s, Cancel(group));
    CancelWaiting(s, group);
    CancelledTally(s.running, s.groups, s.jobs, group);
    CancelledQueue(s, group);
    forall id | 0 <= id < |s'.owners|
      ensures id in s'.started || Holds(Waiting(s'), id) || s'.shutDown || Cancelled(s', s'.owners[id])
    {
      if Holds(Waiting(s), id) {
        var j :| 0 <= j < |Waiting(s)| && Waiting(s)[j].id == id;
        assert Waiting(s)[j] in Waiting(s);
        LabelledAt(Waiting(s), s.owners, j);
        if Waiting(s)[j] in Waiting(s') {
          assert Holds(Waiting(s'), id);
        }
      }
    }
  }

  lemma LabelledAt(waiting: seq<Queued>, owners: seq<Option<nat>>, j: nat)
    requires Labelled(waiting, owners) && j < |waiting|
    ensures waiting[j].id < |owners| && owners[waiting[j].id] == waiting[j].group
  {
  }

  lemma CancelledQueue(s: State, group: nat)
    requires QueueOpen(s) && Enabled(s, Cancel(group))
    ensures QueueOpen(Step(s, Cancel(group)))
  {
    var s' := Step(s, Cancel(group));
    WithoutKeeps(s.queue, group);
    hide Without;
    forall j | 0 <= j < |s'.queue|
      ensures Open(s', s'.queue[j].group)
    {
      assert s'.queue[j] in s'.queue;
    }
  }

  lemma ShutdownKeeps(s: State)
    requires Inv(s)
    ensures Inv(Step(s, Shutdown))
  {
    var s' := Step(s, Shutdown);
    assert Waiting(s') == Waiting(s)[..|Waiting(s')|];
    hide Waiting;
    assert InOrder(s'.started, Waiting(s'), |s'.owners|) && Labelled(Waiting(s'), s'.owners);
  }

  lemma NewGroupKeeps(s: State)
    requires Inv(s)
    ensures Inv(Step(s, NewGroup))
  {
    hide InOrder, Labelled, Holds, NothingLost, Tally, QueueOpen, OwnersKnown;
    SameWaiting(s, Step(s, NewGroup));
    GroupAdded(s);
  }

  lemma StartJobKeeps(s: State, group: Option<nat>, threadStarts: bool)
    requires Inv(s) && Enabled(s, StartJob(group, threadStarts))
    ensures Inv(Step(s, StartJob(group, threadStarts)))
  {
    hide InOrder, Labelled, Holds, NothingLost, Tally, QueueOpen, OwnersKnown;
    if Open(s, group) && threadStarts {
      SameWaiting(s, Step(s, StartJob(group, threadStarts)));
      JobStarts(s.running, s.groups, s.jobs, group);
    }
  }

  lemma FinishJobKeeps(s: State, group: Option<nat>)
    requires Inv(s) && Enabled(s, FinishJob(group))
    ensures Inv(Step(s, FinishJob(group)))
  {
    hide InOrder, Labelled, Holds, NothingLost, Tally, QueueOpen, OwnersKnown;
    JobEnds(s.running, s.groups, s.jobs, group);
    CountedCancels(s.groups, group, -1);
    hide Counted;
    var s' := Step(s, FinishJob(group));
    assert Waiting(s') == Waiting(s);
    hide Waiting, Step;
    SameWaiting(s, s');
  }

  lemma StepKeeps(s: State, e: Event)
    requires Inv(s) && Enabled(s, e)
    ensures Inv(Step(s, e))
  {
    hide Inv, Waiting, Without, Counted;
    match e
    case NewGroup => NewGroupKeeps(s);
    case StartJob(group, threadStarts) => StartJobKeeps(s, group, threadStarts);
    case Post(group, wakes) => if Open(s, group) { PostKeeps(s, group, wakes); }
    case FinishJob(group) => FinishJobKeeps(s, group);
    case TakeQueue => TakeKeeps(s);
    case CheckNext => CheckKeeps(s);
    case RunCleared => RunClearedKeeps(s);
    case Cancel(group) => CancelKeeps(s, group);
    case Shutdown => ShutdownKeeps(s);
  }

  lemma GroupAdded(s: State)
    requires CountersRight(s)
    ensures CountersRight(s.(groups := s.groups + [Group(false, 0)]))
  {
    var g := |s.groups|;
    assert Some(g) !in s.jobs;
  }

  lemma TakeKeeps(s: State)
    requires Inv(s) && Enabled(s, TakeQueue)
    ensures Inv(Step(s, TakeQueue))
  {
    var s' := Step(s, TakeQueue);
    assert Waiting(s') == Waiting(s);
    hide Waiting;
    assert s.shutDown ==> s'.queue == s.queue;
    assert QueueOpen(s') && CountersRight(s') && OwnersKnown(s') && NothingLost(s');
  }

  // --- Whole runs ---

  function Run(s: State, events: seq<Event>): Option<State>
    decreases |events|
  {
    if events == [] then Some(s)
    else if Enabled(s, events[0]) then Run(Step(s, events[0]), events[1..])
    else None
  }

  lemma {:induction false} RunKeeps(s: State, events: seq<Event>)
    requires Inv(s) && Run(s, events).Some?
    ensures Inv(Run(s, events).value)
    decreases |events|
  {
    hide Inv, Step, Enabled;
    if events != [] {
      StepKeeps(s, events[0]);
      RunKeeps(Step(s, events[0]), events[1..]);
    }
  }

  lemma StartHolds()
    ensures Inv(START)
  {
  }

  /** Over any run: results start in the order they were accepted, each at most once; none of a living group is lost;
      and the counters say how many jobs are unfinished, in all and of each group. */
  lemma Delivery(events: seq<Event>)
    requires Run(START, events).Some?
    ensures var s := Run(START, events).value;
            forall i, j :: 0 <= i < j < |s.started| ==> s.started[i] < s.started[j] < |s.owners|
    ensures var s := Run(START, events).value;
            forall id :: 0 <= id < |s.owners| && Open(s, s.owners[id]) ==> id in s.started || Holds(Waiting(s), id)
    ensures var s := Run(START, events).value;
            s.running == |s.jobs| && forall g :: 0 <= g < |s.groups| ==> s.groups[g].running == s.jobs[Some(g)]
  {
    StartHolds();
    RunKeeps(START, events);
    hide Run, Waiting;
  }

  /** The result that was about to run when the owner cancelled from another thread. */
  function Escaping(s: State, group: nat): set<nat> {
    if s.cleared.Some? && s.cleared.value.group == Some(group) then {s.cleared.value.id} else {}
  }

  ghost predicate NoneStarts(s: State, s': State, group: nat) {
    && s.started <= s'.started && s.owners <= s'.owners
    && forall k :: |s.started| <= k < |s'.started| ==>
         s'.started[k] < |s'.owners| && (s'.owners[s'.started[k]] != Some(group) || s'.started[k] in Escaping(s, group))
  }

  lemma StepStartsNone(s: State, e: Event, group: nat)
    requires Inv(s) && Enabled(s, e) && (s.shutDown || Cancelled(s, Some(group)))
    ensures var s' := Step(s, e);
            && (s.shutDown ==> s'.shutDown) && (Cancelled(s, Some(group)) ==> Cancelled(s', Some(group)))
            && NoneStarts(s, s', group) && Escaping(s', group) <= Escaping(s, group)
  {
    hide Inv, Waiting, Without, Counted, Cancelled, NoneStarts, Escaping, Step, Enabled;
    StaysCancelled(s, e, group);
    if e.RunCleared? {
      ClearedStartsNone(s, group);
    } else {
      OtherStartsNone(s, e, group);
    }
  }

  lemma ClearedStartsNone(s: State, group: nat)
    requires Inv(s) && Enabled(s, RunCleared)
    ensures var s' := Step(s, RunCleared);
            s'.shutDown == s.shutDown && NoneStarts(s, s', group) && Escaping(s', group) <= Escaping(s, group)
  {
    hide Inv;
    ClearedIsKnown(s);
  }

  lemma OtherStartsNone(s: State, e: Event, group: nat)
    requires Enabled(s, e) && !e.RunCleared? && (s.shutDown || Cancelled(s, Some(group)))
    ensures var s' := Step(s, e);
            (s.shutDown ==> s'.shutDown) && NoneStarts(s, s', group) && Escaping(s', group) <= Escaping(s, group)
  {
    hide Without, Counted, Cancelled;
  }

  lemma ClearedIsKnown(s: State)
    requires Inv(s) && s.cleared.Some?
    ensures s.cleared.value.id < |s.owners| && s.owners[s.cleared.value.id] == s.cleared.value.group
  {
    hide InOrder, Labelled, NothingLost, Tally, QueueOpen, OwnersKnown, Waiting;
    ClearedWaiting(s);
    FrontLabelled(Waiting(s), s.owners);
  }

  lemma StaysCancelled(s: State, e: Event, group: nat)
    requires Enabled(s, e)
    ensures Cancelled(s, Some(group)) ==> Cancelled(Step(s, e), Some(group))
  {
    hide Without;
  }

  /** Once a group is cancelled, or the registry shut down, no result of that group starts any more, except the one
      already cleared to run. */
  lemma {:induction false} NothingAfterCancel(s: State, events: seq<Event>, group: nat)
    requires Inv(s) && Run(s, events).Some? && (s.shutDown || Cancelled(s, Some(group)))
    ensures NoneStarts(s, Run(s, events).value, group)
    decreases |events|
  {
    hide Inv, Step, Enabled;
    if events != [] {
      var s1 := Step(s, events[0]);
      StepStartsNone(s, events[0], group);
      StepKeeps(s, events[0]);
      NothingAfterCancel(s1, events[1..], group);
      var s' := Run(s1, events[1..]).value;
      hide Run;
      forall k | |s.started| <= k < |s'.started|
        ensures s'.started[k] < |s'.owners|
                && (s'.owners[s'.started[k]] != Some(group) || s'.started[k] in Escaping(s, group))
      {
        if k < |s1.started| {
          assert s'.started[k] == s1.started[k];
        }
      }
    }
  }

  /** The run from s to s' started a result of the group. */
  ghost predicate StartsOne(s: State, s': State, group: nat) {
    exists k :: |s.started| <= k < |s'.started| && s'.started[k] < |s'.owners| && s'.owners[s'.started[k]] == Some(group)
  }

  lemma ClearedStarts(s: State)
    requires Inv(s) && s.cleared.Some? && s.cleared.value.group.Some?
    ensures Run(s, [RunCleared]).Some? && StartsOne(s, Run(s, [RunCleared]).value, s.cleared.value.group.value)
  {
    ClearedIsKnown(s);
    hide Inv;
    var s' := Step(s, RunCleared);
    assert Run(s', []) == Some(s') && [RunCleared][1..] == [];
    assert s'.started[|s.started|] == s.cleared.value.id;
  }

  /** Exactly when a cancel (or the shutdown) comes too late: a result of the group can start afterwards if and only if
      one is cleared to run, which is between the drain's check and the call. */
  lemma TooLateIffCleared(s: State, group: nat)
    requires Inv(s) && (s.shutDown || Cancelled(s, Some(group)))
    ensures (exists events :: Run(s, events).Some? && StartsOne(s, Run(s, events).value, group))
            <==> s.cleared.Some? && s.cleared.value.group == Some(group)
  {
    if s.cleared.Some? && s.cleared.value.group == Some(group) {
      ClearedStarts(s);
      hide Inv, Run, StartsOne;
      var events := [RunCleared];
      assert Run(s, events).Some? && StartsOne(s, Run(s, events).value, group);
    } else {
      forall events | Run(s, events).Some?
        ensures !StartsOne(s, Run(s, events).value, group)
      {
        hide Inv, Run;
        NothingAfterCancel(s, events, group);
      }
    }
  }

  /** The draining thread cancels between two results, never while one is cleared to run. */
  ghost predicate CancelsBetween(s: State, events: seq<Event>)
    requires Run(s, events).Some?
    decreases |events|
  {
    events == [] ||
    ((events[0].Cancel? ==> s.cleared.None?) && CancelsBetween(Step(s, events[0]), events[1..]))
  }

  /** So when all cancels come from the draining thread, none of a group's results starts after its cancel. */
  lemma {:induction false} CancelBetweenIsFinal(s: State, events: seq<Event>, k: nat, group: nat)
    requires Inv(s) && Run(s, events).Some? && CancelsBetween(s, events)
    requires k < |events| && events[k] == Cancel(group)
    ensures Run(s, events[..k + 1]).Some?
    ensures !StartsOne(Run(s, events[..k + 1]).value, Run(s, events).value, group)
    decreases |events|
  {
    var s1 := Step(s, events[0]);
    StepKeeps(s, events[0]);
    assert events[..k + 1][1..] == events[1..][..k];
    hide Inv;
    if k == 0 {
      assert Run(s1, []) == Some(s1);
      NothingAfterCancel(s1, events[1..], group);
    } else {
      hide Step, Enabled;
      assert events[1..][..k] == events[1..][..k - 1 + 1];
      CancelBetweenIsFinal(s1, events[1..], k - 1, group);
    }
  }

  /** A cancel from elsewhere can find a result cleared. */
  lemma CancelElsewhereTooLate()
    ensures var events := [NewGroup, StartJob(Some(0), true), Post(Some(0), true), TakeQueue, CheckNext, Cancel(0), RunCleared];
            var s := Run(START, events);
            s.Some? && s.value.started == [0] && s.value.owners == [Some(0)] && s.value.groups[0].cancelled
  {
    var s := ClearedToRun();
    hide Inv, Without, Counted;
    var s' := Step(Step(s, Cancel(0)), RunCleared);
    assert Run(Step(s, Cancel(0)), [RunCleared]) == Some(s');
    assert Run(s, [Cancel(0), RunCleared]) == Some(s');
    RunsOn(START, [NewGroup, StartJob(Some(0), true), Post(Some(0), true), TakeQueue, CheckNext], [Cancel(0), RunCleared]);
  }

  lemma ClearedToRun() returns (s: State)
    ensures Run(START, [NewGroup, StartJob(Some(0), true), Post(Some(0), true), TakeQueue, CheckNext]) == Some(s)
    ensures s.cleared == Some(Queued(0, Some(0))) && s.started == [] && s.owners == [Some(0)] && |s.groups| == 1
  {
    var s1 := Step(START, NewGroup);
    var s2 := Step(s1, StartJob(Some(0), true));
    var s3 := Step(s2, Post(Some(0), true));
    var s4 := Step(s3, TakeQueue);
    s := Step(s4, CheckNext);
    hide Inv, Without;
    assert Run(s3, [TakeQueue, CheckNext]) == Some(s) by {
      assert Run(s4, [CheckNext]) == Some(s);
    }
    assert Run(s2, [Post(Some(0), true), TakeQueue, CheckNext]) == Some(s);
    assert Run(s1, [StartJob(Some(0), true), Post(Some(0), true), TakeQueue, CheckNext]) == Some(s);
  }

  lemma {:induction false} RunsOn(s: State, a: seq<Event>, b: seq<Event>)
    requires Run(s, a).Some?
    ensures Run(s, a + b) == Run(Run(s, a).value, b)
    decreases |a|
  {
    hide Step, Enabled;
    if a == [] {
      assert a + b == b;
    } else {
      RunsOn(Step(s, a[0]), a[1..], b);
      assert (a + b)[1..] == a[1..] + b;
    }
  }

  /** Every post asks for a drain that is not already asked for, and the waker never fails. */
  predicate Wakes(e: Event) { e.Post? ==> e.wakes }

  lemma {:induction false} AlwaysWoken(s: State, events: seq<Event>)
    requires Run(s, events).Some? && (s.queue != [] ==> s.wakePending) && (s.shutDown ==> s.queue == [])
    requires forall k :: 0 <= k < |events| ==> Wakes(events[k])
    ensures var s' := Run(s, events).value; s'.queue != [] ==> s'.wakePending
    decreases |events|
  {
    if events != [] {
      assert Wakes(events[0]);
      AlwaysWoken(Step(s, events[0]), events[1..]);
    }
  }

  // --- The registry itself, one method for each locked section ---

  // --- What gets in, what wakes the drain, and what it runs ---

  /** A result is accepted, as the newest in the queue, exactly while nothing is shut down and its group is not cancelled. */
  lemma AcceptedIff(s: State, group: Option<nat>, wakes: bool)
    requires Enabled(s, Post(group, wakes))
    ensures var s' := Step(s, Post(group, wakes));
            if s.shutDown || (group.Some? && s.groups[group.value].cancelled) then s' == s
            else s'.queue == s.queue + [Queued(|s.owners|, group)] && s'.owners == s.owners + [group]
  {
  }

  /** The first result accepted after a drain took the queue calls the waker: whatever else happens in between, no call is
      still pending then. */
  lemma {:induction false} WokenAgain(s: State, between: seq<Event>)
    requires Run(s, between).Some? && !s.wakePending
    requires forall k :: 0 <= k < |between| ==> !between[k].Post?
    ensures !Run(s, between).value.wakePending
    decreases |between|
  {
    if between != [] {
      WokenAgain(Step(s, between[0]), between[1..]);
    }
  }

  /** A drain leaves no call pending, and takes the queue as it is. */
  lemma TakesAll(s: State)
    requires Enabled(s, TakeQueue)
    ensures var s' := Step(s, TakeQueue);
            !s'.wakePending && s'.started == s.started && s'.groups == s.groups && s'.shutDown == s.shutDown && s'.cleared.None?
            && (!s.shutDown ==> s'.taken == s.queue && s'.queue == [])
  {
  }

  /** The drain looks at every result it took, and runs those still wanted. */
  function DrainSteps(s: State, items: seq<Queued>): seq<Event> {
    if items == [] then []
    else [CheckNext] + (if Open(s, items[0].group) then [RunCleared] else []) + DrainSteps(s, items[1..])
  }

  /** The numbers of the results whose group is not cancelled, in order. */
  function StillWanted(groups: seq<Group>, items: seq<Queued>): seq<nat> {
    if items == [] then []
    else (if items[0].group.Some? && items[0].group.value < |groups| && groups[items[0].group.value].cancelled then []
          else [items[0].id]) + StillWanted(groups, items[1..])
  }

  lemma {:induction false} SameDrain(s: State, s': State, items: seq<Queued>)
    requires s'.shutDown == s.shutDown && s'.groups == s.groups
    ensures DrainSteps(s', items) == DrainSteps(s, items)
  {
    if items != [] {
      SameDrain(s, s', items[1..]);
    }
  }

  /** One result looked at. */
  lemma OneTaken(s: State) returns (s': State)
    requires s.cleared.None? && s.taken != []
    ensures var steps := [CheckNext] + if Open(s, s.taken[0].group) then [RunCleared] else [];
            Run(s, steps) == Some(s')
    ensures s' == s.(taken := s.taken[1..],
                     started := s.started + if Open(s, s.taken[0].group) then [s.taken[0].id] else [])
  {
    var s1 := Step(s, CheckNext);
    if Open(s, s.taken[0].group) {
      s' := Step(s1, RunCleared);
      assert Run(s1, [RunCleared]) == Some(s') by { assert Run(s', []) == Some(s') && [RunCleared][1..] == []; }
      assert ([CheckNext] + [RunCleared])[1..] == [RunCleared];
    } else {
      s' := s1;
      assert ([CheckNext] + [])[1..] == [];
    }
  }

  lemma {:induction false} RunsTaken(s: State)
    requires s.cleared.None? && !s.shutDown
    ensures var r := Run(s, DrainSteps(s, s.taken));
            r.Some? && r.value == s.(taken := [], started := s.started + StillWanted(s.groups, s.taken))
    decreases |s.taken|
  {
    if s.taken == [] {
      assert s.started + [] == s.started;
    } else {
      var s' := OneTaken(s);
      hide Step, Enabled, Run;
      SameDrain(s, s', s.taken[1..]);
      RunsTaken(s');
      var one := [CheckNext] + if Open(s, s.taken[0].group) then [RunCleared] else [];
      RunsOn(s, one, DrainSteps(s, s.taken[1..]));
      var id := if Open(s, s.taken[0].group) then [s.taken[0].id] else [];
      assert s.started + id + StillWanted(s.groups, s.taken[1..]) == s.started + (id + StillWanted(s.groups, s.taken[1..]));
    }
  }

  /** A drain that nothing interrupts runs every queued result whose group is not cancelled, in the order they were posted,
      and nothing else. */
  lemma DrainRunsAll(s: State)
    requires Enabled(s, TakeQueue) && !s.shutDown
    ensures var events := [TakeQueue] + DrainSteps(s, s.queue);
            var r := Run(s, events);
            r.Some? && r.value == s.(wakePending := false, queue := [], started := s.started + StillWanted(s.groups, s.queue))
  {
    var s1 := Step(s, TakeQueue);
    TakesAll(s);
    SameDrain(s, s1, s.queue);
    RunsTaken(s1);
    var rest := DrainSteps(s, s.queue);
    assert ([TakeQueue] + rest)[1..] == rest;
    hide DrainSteps, StillWanted;
  }

  lemma JobKnown(s: State, group: Option<nat>)
    requires Inv(s) && group in s.jobs
    ensures s.running > 0 && (group.Some? ==> group.value < |s.groups|)
  {
    JobEnds(s.running, s.groups, s.jobs, group);
    hide InOrder, Labelled, NothingLost, QueueOpen, OwnersKnown;
  }

  lemma Finishing(s: State, group: Option<nat>)
    requires Inv(s) && group in s.jobs
    ensures Enabled(s, FinishJob(group)) && s.running > 0
    ensures Step(s, FinishJob(group))
            == s.(running := s.running - 1, groups := Counted(s.groups, group, -1), jobs := s.jobs - multiset{group})
  {
    JobKnown(s, group);
    hide Inv, Counted;
  }

  lemma FirstErased(kept: seq<Queued>, queue: seq<Queued>, group: nat)
    requires queue != []
    ensures kept + Without(queue, group)
            == (if queue[0].group == Some(group) then kept else kept + [queue[0]]) + Without(queue[1..], group)
  {
  }

  /** Takes the group's results out, one after the other. */
  method Erase(results: seq<Queued>, group: nat) returns (queue: seq<Queued>)
    ensures queue == Without(results, group)
  {
    queue := results;
    var i := 0;
    while i < |queue|
      invariant 0 <= i <= |queue| && queue[..i] + Without(queue[i..], group) == Without(results, group)
      decreases |queue| - i
    {
      FirstErased(queue[..i], queue[i..], group);
      assert queue[i..][1..] == queue[i + 1..];
      if queue[i].group == Some(group) {
        var erased := queue[..i] + queue[i + 1..];
        assert erased[..i] == queue[..i] && erased[i..] == queue[i + 1..];
        hide Without;
        queue := erased;
      } else {
        hide Without;
        assert queue[..i + 1] == queue[..i] + [queue[i]];
        i := i + 1;
      }
    }
    assert queue[..i] == queue && queue[i..] == [];
  }

  class Registry {
    const hasWaker: bool
    var shutDown: bool
    var running: nat
    var wakePending: bool
    var queue: seq<Queued>
    var groups: seq<Group>
    /** Drain's own: the results it swapped out, and the one it is about to run. */
    var items: seq<Queued>
    var next: Option<Queued>
    ghost var jobs: multiset<Option<nat>>
    ghost var started: seq<nat>
    var accepted: nat
    ghost var owners: seq<Option<nat>>

    ghost function Value(): State
      reads this
    {
      State(shutDown, running, wakePending, queue, groups, items, next, jobs, started, owners)
    }

    ghost predicate Valid()
      reads this
    {
      Inv(Value()) && accepted == |owners|
    }

    constructor (hasWaker: bool)
      ensures Valid() && Value() == START && this.hasWaker == hasWaker
    {
      this.hasWaker := hasWaker;
      shutDown, running, wakePending, queue, groups, items, next := false, 0, false, [], [], [], None;
      jobs, started, owners, accepted := multiset{}, [], [], 0;
      new;
      hide Inv;
      StartHolds();
      assert Value() == START;
    }

    method NewGroup() returns (group: nat)
      requires Valid()
      modifies this
      ensures Valid() && Value() == Step(old(Value()), Event.NewGroup) && group == |old(groups)|
    {
      hide Inv;
      StepKeeps(Value(), Event.NewGroup);
      group := |groups|;
      groups := groups + [Group(false, 0)];
    }

    /** False: refused, and the work never runs. */
    method StartJob(group: Option<nat>, threadStarts: bool) returns (ok: bool)
      requires Valid() && (group.Some? ==> group.value < |groups|)
      modifies this
      ensures Valid() && Value() == Step(old(Value()), Event.StartJob(group, threadStarts))
      ensures ok <==> !old(shutDown) && !(group.Some? && old(groups)[group.value].cancelled) && threadStarts
    {
      hide Inv;
      StepKeeps(Value(), Event.StartJob(group, threadStarts));
      if shutDown || (group.Some? && groups[group.value].cancelled) {
        return false;
      }
      running := running + 1;
      groups := Counted(groups, group, 1);
      if threadStarts {
        jobs := jobs + multiset{group};
        return true;
      }
      running := running - 1;
      groups := Counted(groups, group, -1);
      assert groups == old(groups);
      ok := false;
    }

    method FinishJob(group: Option<nat>)
      requires Valid() && group in jobs
      modifies this
      ensures Valid() && Value() == Step(old(Value()), Event.FinishJob(group))
    {
      hide Inv, Counted, Step, Enabled;
      Finishing(Value(), group);
      StepKeeps(Value(), Event.FinishJob(group));
      running := running - 1;
      groups := Counted(groups, group, -1);
      jobs := jobs - multiset{group};
    }

    /** ok: false when dropped already, it never runs; called: the waker was. wakeThrows: the waker failed. The job need not be running any more: its
        context can be copied, and outlive it. */
    method Post(group: Option<nat>, wakeThrows: bool) returns (ok: bool, called: bool)
      requires Valid() && (group.Some? ==> group.value < |groups|)
      modifies this
      ensures Valid() && (ok <==> !old(shutDown) && !(group.Some? && old(groups)[group.value].cancelled))
      ensures called <==> ok && hasWaker && !old(wakePending)
      ensures Value() == Step(old(Value()), Event.Post(group, hasWaker && !wakeThrows))
    {
      hide Inv;
      StepKeeps(Value(), Event.Post(group, hasWaker && !wakeThrows));
      if shutDown || (group.Some? && groups[group.value].cancelled) {
        return false, false;
      }
      called := false;
      queue := queue + [Queued(accepted, group)];
      accepted, owners := accepted + 1, owners + [group];
      if !wakePending && hasWaker {
        wakePending, called := true, true;
        if wakeThrows {
          wakePending := false;
        }
      }
      ok := true;
    }

    method TakeQueue()
      requires Valid() && items == [] && next.None?
      modifies this
      ensures Valid() && Value() == Step(old(Value()), Event.TakeQueue)
    {
      hide Inv;
      StepKeeps(Value(), Event.TakeQueue);
      wakePending := false;
      if shutDown {
        return;
      }
      items, queue := queue, [];
    }

    method CheckNext()
      requires Valid() && items != [] && next.None?
      modifies this
      ensures Valid() && Value() == Step(old(Value()), Event.CheckNext)
    {
      hide Inv;
      StepKeeps(Value(), Event.CheckNext);
      var item := items[0];
      items := items[1..];
      var deliver := !shutDown && !(item.group.Some? && item.group.value < |groups| && groups[item.group.value].cancelled);
      next := if deliver then Some(item) else None;
    }

    /** The result runs; what it does to the registry are steps of their own. */
    method RunCleared()
      requires Valid() && next.Some?
      modifies this
      ensures Valid() && Value() == Step(old(Value()), Event.RunCleared)
    {
      hide Inv;
      StepKeeps(Value(), Event.RunCleared);
      started := started + [next.value.id];
      next := None;
    }

    /** Every queued result of the group is dropped, the others keep their order. */
    method Cancel(group: nat)
      requires Valid() && group < |groups|
      modifies this
      ensures Valid() && Value() == Step(old(Value()), Event.Cancel(group))
    {
      hide Inv;
      StepKeeps(Value(), Event.Cancel(group));
      groups := groups[group := groups[group].(cancelled := true)];
      queue := Erase(queue, group);
      assert Value() == Step(old(Value()), Event.Cancel(group));
    }

    method Shutdown()
      requires Valid()
      modifies this
      ensures Valid() && Value() == Step(old(Value()), Event.Shutdown)
    {
      hide Inv;
      StepKeeps(Value(), Event.Shutdown);
      shutDown, queue := true, [];
    }
  }
}
