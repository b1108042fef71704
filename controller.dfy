/**
 * The membership controller of MongoDBReplicaSetImpl: bootstrap on the first added
 * server, join and leave tasks run one at a time by a single-thread executor that
 * re-queues a task whose guard does not hold yet, the PRIMARY_ENTITY attribute kept
 * up to date by removals and by primary signals, and stop.
 */
module Controller {
  import opened Wrappers
  import opened Roles

  /** A unit of work on the single-thread executor. */
  datatype Task = Join(server: ServerId) | Leave(server: ServerId)

  /** A call made through a server's MongoDB client, recorded in order. */
  datatype RemoteCall =
    | InitializeReplicaSet(target: ServerId, setName: string, id: int)
    | AddMemberToReplicaSet(primary: ServerId, member: ServerId, id: int)
    | RemoveMemberFromReplicaSet(primary: ServerId, member: ServerId)

  /**
   * What a task can observe when it runs: the replica set's members, in group order,
   * and every server's SERVICE_UP attribute (a removed server is no longer a member
   * but its attribute is still read).
   */
  datatype World = World(members: seq<Replica>, serviceUp: ServerId -> bool)

  /** What serverAdded did. */
  datatype AddOutcome = Bootstrapped | BootstrapFailed | JoinScheduled | Rejected

  /** An IS_PRIMARY_FOR_REPLICA_SET event: its source and its value (None for null). */
  datatype PrimarySignal = PrimarySignal(source: ServerId, value: Option<bool>)

  /** Whether a task's guard holds, so that it performs its call instead of re-queueing. */
  predicate Ready(t: Task, w: World) {
    match t
    case Join(s) => w.serviceUp(s) && GetPrimary(w.members).Some?
    case Leave(s) => GetPrimary(w.members).Some? && !w.serviceUp(s)
  }

  /**
   * The executor queue after its head task has run once: the head is gone, and goes
   * back to the tail when its guard did not hold.
   */
  function AfterStep(q: seq<Task>, w: World): (r: seq<Task>)
    requires q != []
    ensures |r| == if Ready(q[0], w) then |q| - 1 else |q|
    ensures r[..|q| - 1] == q[1..]
    ensures !Ready(q[0], w) ==> r[|q| - 1] == q[0]
  {
    q[1..] + (if Ready(q[0], w) then [] else [q[0]])
  }

  /** Every queued task is a leave task. */
  predicate OnlyLeaves(q: seq<Task>) {
    forall i :: 0 <= i < |q| ==> q[i].Leave?
  }

  /** The queue after one run per world in ws, the i-th run seeing ws[i]. */
  function AfterSteps(q: seq<Task>, ws: seq<World>): seq<Task>
    requires |ws| <= |q|
    decreases |ws|
  {
    if ws == [] then q else AfterSteps(AfterStep(q, ws[0]), ws[1..])
  }

  /**
   * No task blocks another: whatever the earlier tasks do, after k runs the task
   * that was k-th in the queue is at its head, with its successors behind it.
   * Tasks submitted between runs (ServerAdded, ServerRemoved) only append to the tail,
   * so they leave this prefix, and hence the conclusion, unchanged.
   */
  lemma {:induction false} QueueAdvances(q: seq<Task>, ws: seq<World>)
    requires |ws| <= |q|
    ensures |AfterSteps(q, ws)| >= |q| - |ws|
    ensures AfterSteps(q, ws)[..|q| - |ws|] == q[|ws|..]
    decreases |ws|
  {
    if ws != [] {
      var q1 := AfterStep(q, ws[0]);
      QueueAdvances(q1, ws[1..]);
      var r := AfterSteps(q1, ws[1..]);
      assert r[..|q1| - |ws[1..]|] == q1[|ws[1..]|..];
      assert r[..|q| - |ws|] == r[..|q1| - |ws[1..]|][..|q| - |ws|];
      assert q1[|ws[1..]|..][..|q| - |ws|] == q[|ws|..];
    }
  }

  /** How one IS_PRIMARY_FOR_REPLICA_SET event changes PRIMARY_ENTITY. */
  function Observe(primary: Option<ServerId>, e: PrimarySignal): Option<ServerId> {
    if e.value == Some(true) then Some(e.source) else primary
  }

  /** PRIMARY_ENTITY after a series of events, oldest first. */
  function ObserveAll(primary: Option<ServerId>, es: seq<PrimarySignal>): Option<ServerId>
    decreases |es|
  {
    if es == [] then primary else Observe(ObserveAll(primary, es[..|es| - 1]), es[|es| - 1])
  }

  /** No event after position i claims primary. */
  predicate NoTrueAfter(es: seq<PrimarySignal>, i: int) {
    forall j :: 0 <= j < |es| && j > i ==> es[j].value != Some(true)
  }

  /** Without a true event, PRIMARY_ENTITY is left as it was. */
  lemma {:induction false} NoTrueSignalKeepsPrimary(primary: Option<ServerId>, es: seq<PrimarySignal>)
    requires NoTrueAfter(es, -1)
    ensures ObserveAll(primary, es) == primary
    decreases |es|
  {
    if es != [] {
      NoTrueSignalKeepsPrimary(primary, es[..|es| - 1]);
    }
  }

  /**
   * The last true signal wins: after a series of events PRIMARY_ENTITY names the
   * source of the last event whose value is true, whatever came before it.
   */
  lemma {:induction false} LastTrueSignalWins(primary: Option<ServerId>, es: seq<PrimarySignal>, i: nat)
    requires i < |es| && es[i].value == Some(true) && NoTrueAfter(es, i)
    ensures ObserveAll(primary, es) == Some(es[i].source)
    decreases |es|
  {
    if i < |es| - 1 {
      var init := es[..|es| - 1];
      assert init[i] == es[i];
      assert NoTrueAfter(init, i);
      LastTrueSignalWins(primary, init, i);
    }
  }

  /**
   * The member IDs issued when nextMemberId has reached n: bootstrap takes 0 with a
   * get-and-increment, and each join then takes the incremented value, so 1 is skipped.
   */
  function ExpectedIds(n: nat): seq<int>
    decreases n
  {
    if n == 0 then [] else if n == 1 then [0] else ExpectedIds(n - 1) + [n]
  }

  /** The IDs are issued in increasing order, never twice, never 1, and none exceeds n. */
  lemma {:induction false} ExpectedIdsShape(n: nat)
    ensures |ExpectedIds(n)| == n
    ensures forall i, j :: 0 <= i < j < n ==> ExpectedIds(n)[i] < ExpectedIds(n)[j]
    ensures forall i :: 0 <= i < n ==> 0 <= ExpectedIds(n)[i] <= n && ExpectedIds(n)[i] != 1
    ensures n > 0 ==> ExpectedIds(n)[0] == 0
  {
    if n > 1 {
      ExpectedIdsShape(n - 1);
    }
  }

  /** The member ID a call passes to the MongoDB client, if it passes one. */
  function IdOf(c: RemoteCall): seq<int> {
    match c
    case InitializeReplicaSet(_, _, id) => [id]
    case AddMemberToReplicaSet(_, _, id) => [id]
    case RemoveMemberFromReplicaSet(_, _) => []
  }

  /** A join after bootstrap issues n + 1, which is above every ID issued so far. */
  lemma ExpectedIdsNext(n: nat)
    requires n >= 1
    ensures ExpectedIds(n + 1) == ExpectedIds(n) + [n + 1]
    ensures forall i :: 0 <= i < |ExpectedIds(n)| ==> ExpectedIds(n)[i] < n + 1
  {
    ExpectedIdsShape(n);
  }

  /** Bootstrap on an empty ID history issues ID 0 and is the one initialisation. */
  lemma InitKeepsIds(log: seq<RemoteCall>, server: ServerId, setName: string)
    requires IssuedIds(log) == ExpectedIds(0) && Initializations(log) == 0
    ensures IssuedIds(log + [InitializeReplicaSet(server, setName, 0)]) == ExpectedIds(1)
    ensures Initializations(log + [InitializeReplicaSet(server, setName, 0)]) == 1
  {
    LogAppend(log, InitializeReplicaSet(server, setName, 0));
  }

  /** A successful join keeps the IDs issued equal to ExpectedIds and adds no initialisation. */
  lemma JoinKeepsIds(log: seq<RemoteCall>, n: nat, primary: ServerId, member: ServerId)
    requires n >= 1 && IssuedIds(log) == ExpectedIds(n) && Initializations(log) == 1
    ensures IssuedIds(log + [AddMemberToReplicaSet(primary, member, n + 1)]) == ExpectedIds(n + 1)
    ensures Initializations(log + [AddMemberToReplicaSet(primary, member, n + 1)]) == 1
    ensures forall i :: 0 <= i < |IssuedIds(log)| ==> IssuedIds(log)[i] < n + 1
  {
    LogAppend(log, AddMemberToReplicaSet(primary, member, n + 1));
    ExpectedIdsNext(n);
  }

  /** The member IDs passed to the MongoDB client, in call order. */
  function IssuedIds(log: seq<RemoteCall>): seq<int>
    decreases |log|
  {
    if log == [] then [] else IssuedIds(log[..|log| - 1]) + IdOf(log[|log| - 1])
  }

  /** The number of initializeReplicaSet calls in the log. */
  function Initializations(log: seq<RemoteCall>): nat
    decreases |log|
  {
    if log == [] then 0
    else Initializations(log[..|log| - 1]) + (if log[|log| - 1].InitializeReplicaSet? then 1 else 0)
  }

  /** Appending one call to the log extends the issued IDs and the initialisation count by that call's share. */
  lemma LogAppend(log: seq<RemoteCall>, c: RemoteCall)
    ensures IssuedIds(log + [c]) == IssuedIds(log) + IdOf(c)
    ensures Initializations(log + [c]) == Initializations(log) + (if c.InitializeReplicaSet? then 1 else 0)
  {
    assert (log + [c])[..|log|] == log;
  }

  class ReplicaSet {
    /** The replica set's name (REPLICA_SET_NAME). */
    const name: string
    /** Next member ID to hand out (the AtomicInteger nextMemberId). */
    var nextMemberId: int
    /** True until the first server has been added (the AtomicBoolean mustInitialise). */
    var mustInitialise: bool
    /** The PRIMARY_ENTITY attribute. */
    var primaryEntity: Option<ServerId>
    /** The replica set's SERVICE_UP attribute. */
    var serviceUp: bool
    /** Whether this controller has set SERVICE_STATE to ON_FIRE. */
    var onFire: bool
    /** The single-thread executor's pending tasks, head first. */
    var queue: seq<Task>
    /** Whether the executor has been shut down. */
    var stopped: bool
    /** Every call made through a MongoDB client, oldest first. */
    var log: seq<RemoteCall>

    /**
     * The controller's invariant: bootstrap has been attempted exactly when
     * mustInitialise is false and then exactly once; the IDs handed out are those of
     * ExpectedIds; join tasks exist only after bootstrap; a stopped executor is empty.
     */
    ghost predicate Valid()
      reads this
    {
      nextMemberId >= 0 &&
      (mustInitialise <==> nextMemberId == 0) &&
      Initializations(log) == (if mustInitialise then 0 else 1) &&
      IssuedIds(log) == ExpectedIds(nextMemberId) &&
      (mustInitialise ==> OnlyLeaves(queue)) &&
      (stopped ==> queue == [])
    }

    constructor (setName: string)
      ensures Valid()
      ensures name == setName && nextMemberId == 0 && mustInitialise
      ensures primaryEntity == None && !serviceUp && !onFire
      ensures queue == [] && !stopped && log == []
    {
      name := setName;
      nextMemberId := 0;
      mustInitialise := true;
      primaryEntity := None;
      serviceUp := false;
      onFire := false;
      queue := [];
      stopped := false;
      log := [];
    }

    /**
     * serverAdded: the first call initialises the replica set on that server with
     * ID 0, and records the server as primary on success or sets ON_FIRE on failure;
     * every later call only submits a join task (refused once the executor is shut down).
     * initialised is the result of the remote initializeReplicaSet call.
     */
    method ServerAdded(server: ServerId, initialised: bool) returns (outcome: AddOutcome)
      requires Valid()
      modifies this
      ensures Valid()
      ensures stopped == old(stopped)
      ensures old(mustInitialise) ==>
        !mustInitialise && nextMemberId == 1 && queue == old(queue) &&
        log == old(log) + [InitializeReplicaSet(server, name, 0)]
      ensures old(mustInitialise) && initialised ==>
        outcome == Bootstrapped && primaryEntity == Some(server) && serviceUp && onFire == old(onFire)
      ensures old(mustInitialise) && !initialised ==>
        outcome == BootstrapFailed && onFire && primaryEntity == old(primaryEntity) && serviceUp == old(serviceUp)
      ensures !old(mustInitialise) ==>
        !mustInitialise && nextMemberId == old(nextMemberId) && log == old(log) &&
        primaryEntity == old(primaryEntity) && serviceUp == old(serviceUp) && onFire == old(onFire)
      ensures !old(mustInitialise) && !stopped ==> outcome == JoinScheduled && queue == old(queue) + [Join(server)]
      ensures !old(mustInitialise) && stopped ==> outcome == Rejected && queue == old(queue)
    {
      if mustInitialise {
        mustInitialise := false;
        var id := nextMemberId;
        nextMemberId := nextMemberId + 1;
        InitKeepsIds(log, server, name);
        log := log + [InitializeReplicaSet(server, name, id)];
        if initialised {
          primaryEntity := Some(server);
          serviceUp := true;
          outcome := Bootstrapped;
        } else {
          onFire := true;
          outcome := BootstrapFailed;
        }
      } else if stopped {
        outcome := Rejected;
      } else {
        queue := queue + [Join(server)];
        outcome := JoinScheduled;
      }
    }

    /**
     * serverRemoved: PRIMARY_ENTITY is cleared if and only if it names the removed
     * server, then a leave task is submitted (refused once the executor is shut down).
     */
    method ServerRemoved(server: ServerId) returns (scheduled: bool)
      requires Valid()
      modifies this
      ensures Valid()
      ensures primaryEntity == if old(primaryEntity) == Some(server) then None else old(primaryEntity)
      ensures scheduled == !stopped
      ensures queue == old(queue) + (if scheduled then [Leave(server)] else [])
      ensures nextMemberId == old(nextMemberId) && mustInitialise == old(mustInitialise) && log == old(log)
      ensures serviceUp == old(serviceUp) && onFire == old(onFire) && stopped == old(stopped)
    {
      if primaryEntity == Some(server) {
        primaryEntity := None;
      }
      scheduled := !stopped;
      if scheduled {
        queue := queue + [Leave(server)];
      }
    }

    /**
     * The run() of a join task: when the server's SERVICE_UP is true and getPrimary()
     * finds a primary, addMemberToReplicaSet is called on that primary with the next
     * member ID, which is above every ID issued before; otherwise the task is queued again.
     */
    method RunJoin(server: ServerId, w: World)
      requires Valid() && !mustInitialise && !stopped
      modifies this`nextMemberId, this`log, this`queue
      ensures Valid()
      ensures Ready(Join(server), w) ==>
        nextMemberId == old(nextMemberId) + 1 && queue == old(queue) &&
        (forall i :: 0 <= i < |IssuedIds(old(log))| ==> IssuedIds(old(log))[i] < nextMemberId) &&
        log == old(log) + [AddMemberToReplicaSet(GetPrimary(w.members).value.server, server, nextMemberId)]
      ensures !Ready(Join(server), w) ==>
        nextMemberId == old(nextMemberId) && log == old(log) && queue == old(queue) + [Join(server)]
    {
      var isAvailable := w.serviceUp(server);
      var primary := GetPrimary(w.members);
      assert Ready(Join(server), w) <==> isAvailable && primary.Some?;
      if isAvailable && primary.Some? {
        JoinKeepsIds(log, nextMemberId, primary.value.server, server);
        log := log + [AddMemberToReplicaSet(primary.value.server, server, nextMemberId + 1)];
        nextMemberId := nextMemberId + 1;
      } else {
        queue := queue + [Join(server)];
      }
    }

    /**
     * The run() of a leave task: when getPrimary() finds a primary and the server's
     * SERVICE_UP is false, removeMemberFromReplicaSet is called on that primary;
     * otherwise the task is queued again.
     */
    method RunLeave(server: ServerId, w: World)
      requires Valid() && !stopped
      modifies this`log, this`queue
      ensures Valid()
      ensures Ready(Leave(server), w) ==>
        queue == old(queue) &&
        log == old(log) + [RemoveMemberFromReplicaSet(GetPrimary(w.members).value.server, server)]
      ensures !Ready(Leave(server), w) ==> log == old(log) && queue == old(queue) + [Leave(server)]
    {
      var isAvailable := w.serviceUp(server);
      var primary := GetPrimary(w.members);
      assert Ready(Leave(server), w) <==> primary.Some? && !isAvailable;
      if primary.Some? && !isAvailable {
        LogAppend(log, RemoveMemberFromReplicaSet(primary.value.server, server));
        log := log + [RemoveMemberFromReplicaSet(primary.value.server, server)];
      } else {
        queue := queue + [Leave(server)];
        assert mustInitialise ==> OnlyLeaves(queue) by {
          if mustInitialise {
            assert forall i :: 0 <= i < |old(queue)| ==> queue[i] == old(queue)[i];
          }
        }
      }
    }

    /**
     * One run of the executor: the head task leaves the queue and runs once. Tasks
     * read SERVICE_UP and getPrimary() from the world, never PRIMARY_ENTITY; a join
     * takes a fresh member ID only when it makes its call. Nothing runs once the
     * executor is shut down.
     */
    method Step(w: World) returns (ran: bool)
      requires Valid()
      modifies this`nextMemberId, this`log, this`queue
      ensures Valid()
      ensures ran == (!stopped && old(queue) != [])
      ensures !ran ==> queue == old(queue) && log == old(log) && nextMemberId == old(nextMemberId)
      ensures ran ==> queue == AfterStep(old(queue), w)
      ensures ran && old(queue[0]).Join? && Ready(old(queue[0]), w) ==>
        nextMemberId == old(nextMemberId) + 1 &&
        (forall i :: 0 <= i < |IssuedIds(old(log))| ==> IssuedIds(old(log))[i] < nextMemberId) &&
        log == old(log) + [AddMemberToReplicaSet(GetPrimary(w.members).value.server, old(queue[0]).server, nextMemberId)]
      ensures ran && old(queue[0]).Leave? && Ready(old(queue[0]), w) ==>
        nextMemberId == old(nextMemberId) &&
        log == old(log) + [RemoveMemberFromReplicaSet(GetPrimary(w.members).value.server, old(queue[0]).server)]
      ensures ran && !Ready(old(queue[0]), w) ==> nextMemberId == old(nextMemberId) && log == old(log)
    {
      if stopped || queue == [] {
        return false;
      }
      ran := true;
      var t := queue[0];
      assert mustInitialise ==> t.Leave?;
      queue := queue[1..];
      assert mustInitialise ==> OnlyLeaves(queue) by {
        if mustInitialise {
          assert forall i :: 0 <= i < |queue| ==> queue[i] == old(queue)[i + 1];
        }
      }
      match t
      case Join(s) => RunJoin(s, w);
      case Leave(s) => RunLeave(s, w);
    }

    /** The IS_PRIMARY_FOR_REPLICA_SET listener: a true value overwrites PRIMARY_ENTITY. */
    method OnPrimarySignal(e: PrimarySignal)
      requires Valid()
      modifies this`primaryEntity
      ensures Valid()
      ensures primaryEntity == Observe(old(primaryEntity), e)
    {
      if e.value == Some(true) {
        primaryEntity := Some(e.source);
      }
    }

    /** stop: the executor is shut down at once, dropping every pending task, and SERVICE_UP goes false. */
    method Stop()
      requires Valid()
      modifies this`queue, this`stopped, this`serviceUp
      ensures Valid()
      ensures queue == [] && stopped && !serviceUp
    {
      queue := [];
      stopped := true;
      serviceUp := false;
    }
  }
}
