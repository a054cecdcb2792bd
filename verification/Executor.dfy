/** The executor on its own: tasks that give up the processor with `yield_now` are scheduled round robin. */
module Executor {
  import opened Basics
  import opened Wakeup

  type pos = n: int | n >= 1 witness 1

  // ----- Tasks -----

  /** The future returned by `yield_now`. */
  datatype YieldNow = YieldNow(yielded: bool)

  /** A task waiting in `current`, if anywhere, with `more` calls of `yield_now` still to come: `None` if it loops forever. */
  datatype Task = Task(current: Option<YieldNow>, more: Option<nat>)

  /** The task waits in a `yield_now` that has not been polled yet. */
  predicate IsPending(t: Task) {
    t.current.Some? && !t.current.value.yielded
  }

  /** How many polls the task takes until it is done, if it ever is. */
  function PollsLeft(t: Task): Option<pos> {
    if t.more == None then None
    else Some(if t.current.Some? && !t.current.value.yielded then t.more.value + 2 else t.more.value + 1)
  }

  // ----- Round robin -----

  datatype Entry = Entry(id: TaskId, left: Option<pos>)

  /** What a polled task puts back into the queue. */
  function Requeued(e: Entry): (r: seq<Entry>)
    ensures |r| <= 1
  {
    match e.left
    case None => [e]
    case Some(n) => if n == 1 then [] else [Entry(e.id, Some(n - 1))]
  }

  /** The first `n` polls made by taking the front of the queue. */
  function TurnOrder(q: seq<Entry>, n: nat): seq<TaskId>
    decreases n
  {
    if q == [] || n == 0 then [] else [q[0].id] + TurnOrder(q[1..] + Requeued(q[0]), n - 1)
  }

  /** The queue after those polls. */
  function QueueAfter(q: seq<Entry>, n: nat): seq<Entry>
    decreases n
  {
    if q == [] || n == 0 then q else QueueAfter(q[1..] + Requeued(q[0]), n - 1)
  }

  function Ids(q: seq<Entry>): (ids: seq<TaskId>)
    ensures |ids| == |q|
  {
    seq(|q|, i requires 0 <= i < |q| => q[i].id)
  }

  /** The tasks that are still alive after each has been polled once. */
  function Survivors(q: seq<Entry>): seq<Entry> {
    if q == [] then [] else Requeued(q[0]) + Survivors(q[1..])
  }

  /** The first `n` polls of rounds in each of which every task that is alive is polled once, always in the same order. */
  function FirstOfRounds(q: seq<Entry>, n: nat): seq<TaskId>
    decreases n
  {
    if q == [] then []
    else if n <= |q| then Ids(q)[..n]
    else Ids(q) + FirstOfRounds(Survivors(q), n - |q|)
  }

  lemma Assoc<T>(a: seq<T>, b: seq<T>, c: seq<T>)
    ensures (a + b) + c == a + (b + c)
  {
  }

  lemma IdsJoin(q: seq<Entry>, next: seq<TaskId>)
    requires q != []
    ensures Ids(q) + next == [q[0].id] + (Ids(q[1..]) + next)
  {
    assert Ids(q) == [q[0].id] + Ids(q[1..]);
    Assoc([q[0].id], Ids(q[1..]), next);
  }

  /** Polling the front moves what is left of it to the back. */
  lemma OneTurn(e: Entry, rest: seq<Entry>, n: nat)
    requires n > 0
    ensures TurnOrder([e] + rest, n) == [e.id] + TurnOrder(rest + Requeued(e), n - 1)
    ensures QueueAfter([e] + rest, n) == QueueAfter(rest + Requeued(e), n - 1)
  {
    assert ([e] + rest)[1..] == rest;
  }

  /** The first task of a round, given the rest of the round. */
  lemma RoundStep(e: Entry, rest: seq<Entry>, ys: seq<Entry>, n: nat, tail: seq<TaskId>)
    requires n > 0 && TurnOrder(rest + (ys + Requeued(e)), n - 1) == Ids(rest) + tail
    ensures TurnOrder([e] + (rest + ys), n) == [e.id] + (Ids(rest) + tail)
  {
    OneTurn(e, rest + ys, n);
    Assoc(rest, ys, Requeued(e));
  }

  /** A whole round: the tasks in front are polled in order, and those that go on line up behind the others. */
  lemma {:induction false} OneRound(xs: seq<Entry>, ys: seq<Entry>, n: nat)
    requires n >= |xs|
    ensures TurnOrder(xs + ys, n) == Ids(xs) + TurnOrder(ys + Survivors(xs), n - |xs|)
    decreases |xs|
  {
    if xs == [] {
      assert xs + ys == ys && ys + Survivors(xs) == ys;
    } else {
      var e, rest := xs[0], xs[1..];
      var tail := TurnOrder((ys + Requeued(e)) + Survivors(rest), n - |xs|);
      OneRound(rest, ys + Requeued(e), n - 1);
      RoundStep(e, rest, ys, n, tail);
      IdsJoin(xs, tail);
      assert xs + ys == [e] + (rest + ys);
      Assoc(ys, Requeued(e), Survivors(rest));
    }
  }

  /** What a round leaves in the queue. */
  lemma {:induction false} RoundLeaves(xs: seq<Entry>, ys: seq<Entry>)
    ensures QueueAfter(xs + ys, |xs|) == ys + Survivors(xs)
    decreases |xs|
  {
    if xs == [] {
      assert xs + ys == ys && ys + Survivors(xs) == ys;
    } else {
      var e, rest := xs[0], xs[1..];
      assert QueueAfter([e] + (rest + ys), |xs|) == (ys + Requeued(e)) + Survivors(rest) by {
        OneTurn(e, rest + ys, |xs|);
        Assoc(rest, ys, Requeued(e));
        RoundLeaves(rest, ys + Requeued(e));
      }
      assert xs + ys == [e] + (rest + ys);
      Assoc(ys, Requeued(e), Survivors(rest));
    }
  }

  lemma {:induction false} PartOfRound(xs: seq<Entry>, ys: seq<Entry>, n: nat)
    requires n <= |xs|
    ensures TurnOrder(xs + ys, n) == Ids(xs)[..n]
    decreases n
  {
    if n == 0 {
    } else {
      var e, rest := xs[0], xs[1..];
      assert xs + ys == [e] + (rest + ys);
      OneTurn(e, rest + ys, n);
      Assoc(rest, ys, Requeued(e));
      PartOfRound(rest, ys + Requeued(e), n - 1);
      assert Ids(xs)[..n] == [e.id] + Ids(rest)[..n - 1];
    }
  }

  /** A FIFO queue in which every polled task goes to the back is round robin, for any number of turns. */
  lemma {:induction false} QueueIsRoundRobin(q: seq<Entry>, n: nat)
    ensures TurnOrder(q, n) == FirstOfRounds(q, n)
    decreases n
  {
    assert q + [] == q && [] + Survivors(q) == Survivors(q);
    if q == [] {
    } else if n <= |q| {
      PartOfRound(q, [], n);
    } else {
      OneRound(q, [], n);
      QueueIsRoundRobin(Survivors(q), n - |q|);
    }
  }

  // ----- What a round polls -----

  /** The queue at the start of round `r`. */
  function AtRound(q: seq<Entry>, r: nat): seq<Entry>
    decreases r
  {
    if r == 0 then q else AtRound(Survivors(q), r - 1)
  }

  /** The survivors are what the tasks of the round put back. */
  lemma {:induction false} SurvivorsAre(q: seq<Entry>, e: Entry)
    ensures e in Survivors(q) <==> exists f :: f in q && e in Requeued(f)
  {
    if q == [] {
    } else {
      SurvivorsAre(q[1..], e);
      assert q == [q[0]] + q[1..];
    }
  }

  lemma IdListed(q: seq<Entry>, id: TaskId)
    ensures id in Ids(q) <==> exists f :: f in q && f.id == id
  {
    if id in Ids(q) {
      var k :| 0 <= k < |q| && Ids(q)[k] == id;
      assert q[k] in q;
    }
    if f :| f in q && f.id == id {
      var k :| 0 <= k < |q| && q[k] == f;
      assert Ids(q)[k] == id;
    }
  }

  lemma SurvivorsAreOld(q: seq<Entry>, id: TaskId)
    requires id in Ids(Survivors(q))
    ensures exists f :: f in q && f.id == id && Requeued(f) != []
    ensures id in Ids(q)
  {
    IdListed(Survivors(q), id);
    var e :| e in Survivors(q) && e.id == id;
    SurvivorsAre(q, e);
    IdListed(q, id);
  }

  lemma {:induction false} SurvivorsDistinct(q: seq<Entry>)
    requires NoDuplicates(Ids(q))
    ensures NoDuplicates(Ids(Survivors(q)))
  {
    if q == [] {
    } else {
      var e, rest := q[0], Survivors(q[1..]);
      assert Ids(q) == [e.id] + Ids(q[1..]);
      assert forall k :: 0 <= k < |q| - 1 ==> Ids(q[1..])[k] == Ids(q)[k + 1];
      assert e.id == Ids(q)[0] && e.id !in Ids(q[1..]);
      SurvivorsDistinct(q[1..]);
      assert e.id !in Ids(rest) by {
        if e.id in Ids(rest) {
          SurvivorsAreOld(q[1..], e.id);
        }
      }
      assert Ids(Survivors(q)) == Ids(Requeued(e)) + Ids(rest);
    }
  }

  lemma SameEntry(q: seq<Entry>, e: Entry, f: Entry)
    requires NoDuplicates(Ids(q)) && e in q && f in q && e.id == f.id
    ensures e == f
  {
    var i :| 0 <= i < |q| && q[i] == e;
    var j :| 0 <= j < |q| && q[j] == f;
    assert Ids(q)[i] == Ids(q)[j];
  }

  lemma {:induction false} GoneForGood(q: seq<Entry>, id: TaskId, r: nat)
    requires id !in Ids(q)
    ensures id !in Ids(AtRound(q, r))
    decreases r
  {
    if r == 0 {
    } else {
      if id in Ids(Survivors(q)) {
        SurvivorsAreOld(q, id);
      }
      GoneForGood(Survivors(q), id, r - 1);
    }
  }

  /**
   * No round polls a task twice, and round `r` polls a task exactly when it has more than `r` polls to come:
   * an endless task is polled once in every round.
   */
  lemma {:induction false} PolledOncePerRound(q: seq<Entry>, e: Entry, r: nat)
    requires NoDuplicates(Ids(q)) && e in q
    ensures NoDuplicates(Ids(AtRound(q, r)))
    ensures e.id in Ids(AtRound(q, r)) <==> e.left == None || e.left.value > r
    decreases r
  {
    SurvivorsDistinct(q);
    if r == 0 {
      IdListed(q, e.id);
    } else if Requeued(e) == [] {
      if e.id in Ids(Survivors(q)) {
        SurvivorsAreOld(q, e.id);
        var f :| f in q && f.id == e.id && Requeued(f) != [];
        SameEntry(q, e, f);
      }
      GoneForGood(Survivors(q), e.id, r - 1);
      RoundsDistinct(Survivors(q), r - 1);
    } else {
      var e' := Requeued(e)[0];
      SurvivorsAre(q, e');
      PolledOncePerRound(Survivors(q), e', r - 1);
    }
  }

  lemma {:induction false} RoundsDistinct(q: seq<Entry>, r: nat)
    requires NoDuplicates(Ids(q))
    ensures NoDuplicates(Ids(AtRound(q, r)))
    decreases r
  {
    if r == 0 {
    } else {
      SurvivorsDistinct(q);
      RoundsDistinct(Survivors(q), r - 1);
    }
  }

  // ----- When the queue runs empty -----

  predicate AllFinite(q: seq<Entry>) {
    forall i :: 0 <= i < |q| ==> q[i].left.Some?
  }

  /** The polls that the tasks with an end still take. */
  function Total(q: seq<Entry>): nat {
    if q == [] then 0 else (if q[0].left.Some? then q[0].left.value else 0) + Total(q[1..])
  }

  lemma {:induction false} TotalAppend(xs: seq<Entry>, ys: seq<Entry>)
    ensures Total(xs + ys) == Total(xs) + Total(ys)
  {
    if xs == [] {
      assert xs + ys == ys;
    } else {
      assert (xs + ys)[1..] == xs[1..] + ys;
      TotalAppend(xs[1..], ys);
    }
  }

  lemma TurnOfFinite(q: seq<Entry>)
    requires q != []
    ensures var q' := q[1..] + Requeued(q[0]);
      (AllFinite(q') <==> AllFinite(q)) && (AllFinite(q) ==> Total(q') == Total(q) - 1)
  {
    var q' := q[1..] + Requeued(q[0]);
    TotalAppend(q[1..], Requeued(q[0]));
    if AllFinite(q') {
      forall i | 0 <= i < |q| ensures q[i].left.Some? {
        assert i == 0 || q'[i - 1] == q[i];
        assert q[0].left.Some? || q'[|q| - 1] == q[0];
      }
    }
  }

  /** The queue runs empty exactly when every task has an end, and then after all their polls, not earlier. */
  lemma {:induction false} RunsEmpty(q: seq<Entry>, n: nat)
    ensures QueueAfter(q, n) == [] <==> AllFinite(q) && Total(q) <= n
    decreases n
  {
    if q == [] {
    } else if n == 0 {
    } else {
      TurnOfFinite(q);
      RunsEmpty(q[1..] + Requeued(q[0]), n - 1);
    }
  }

  // ----- How often a task is polled -----

  function Count(ids: seq<TaskId>, id: TaskId): nat {
    if ids == [] then 0 else (if ids[0] == id then 1 else 0) + Count(ids[1..], id)
  }

  lemma TurnKeepsDistinct(q: seq<Entry>)
    requires q != [] && NoDuplicates(Ids(q))
    ensures NoDuplicates(Ids(q[1..] + Requeued(q[0])))
  {
    var q' := q[1..] + Requeued(q[0]);
    assert forall k :: 0 <= k < |q| ==> Ids(q)[k] == q[k].id;
    assert forall k :: 0 <= k < |q'| ==> Ids(q')[k] == (if k < |q| - 1 then q[k + 1].id else q[0].id);
    forall i, j | 0 <= i < j < |q'| ensures Ids(q')[i] != Ids(q')[j] {
      assert Ids(q')[i] == Ids(q)[i + 1];
      assert Ids(q')[j] == if j < |q| - 1 then Ids(q)[j + 1] else Ids(q)[0];
    }
  }

  /** The entry a task has after `polled` of its polls, if it has any left. */
  function Later(e: Entry, polled: nat): Option<Entry> {
    match e.left
    case None => Some(e)
    case Some(k) => if polled < k then Some(Entry(e.id, Some(k - polled))) else None
  }

  /**
   * In `n` turns a task is polled at most as often as it has polls to come. While it has been polled less often it is
   * still queued, with as many to come as are missing; then it is gone.
   */
  lemma {:induction false} PolledAsDue(q: seq<Entry>, e: Entry, n: nat)
    requires NoDuplicates(Ids(q)) && e in q
    ensures var polled := Count(TurnOrder(q, n), e.id);
      && (e.left.Some? ==> polled <= e.left.value)
      && match Later(e, polled)
         case Some(e') => e' in QueueAfter(q, n)
         case None => e.id !in Ids(QueueAfter(q, n))
    decreases n
  {
    if n == 0 {
    } else {
      var q' := q[1..] + Requeued(q[0]);
      TurnKeepsDistinct(q);
      assert Count(TurnOrder(q, n), e.id) == (if q[0].id == e.id then 1 else 0) + Count(TurnOrder(q', n - 1), e.id);
      if q[0].id != e.id {
        assert e in q[1..];
        PolledAsDue(q', e, n - 1);
      } else {
        SameEntry(q, e, q[0]);
        if Requeued(e) != [] {
          assert Requeued(e)[0] in q';
          PolledAsDue(q', Requeued(e)[0], n - 1);
        } else {
          FrontIsGone(q);
          NotPolled(q', e.id, n - 1);
        }
      }
    }
  }

  lemma FrontIsGone(q: seq<Entry>)
    requires q != [] && NoDuplicates(Ids(q)) && Requeued(q[0]) == []
    ensures q[0].id !in Ids(q[1..] + Requeued(q[0]))
  {
    assert q[1..] + Requeued(q[0]) == q[1..];
    assert forall k :: 0 <= k < |q| - 1 ==> Ids(q[1..])[k] == Ids(q)[k + 1];
    assert Ids(q)[0] == q[0].id;
  }

  lemma {:induction false} NotPolled(q: seq<Entry>, id: TaskId, n: nat)
    requires id !in Ids(q)
    ensures Count(TurnOrder(q, n), id) == 0 && id !in Ids(QueueAfter(q, n))
    decreases n
  {
    if q == [] || n == 0 {
    } else {
      var q' := q[1..] + Requeued(q[0]);
      assert q[0].id != id by {
        assert Ids(q)[0] == q[0].id;
      }
      assert forall k :: 0 <= k < |q'| ==> Ids(q')[k] == if k < |q| - 1 then Ids(q)[k + 1] else q[0].id;
      NotPolled(q', id, n - 1);
    }
  }

  // ----- The executor -----

  predicate AllKnown(queue: seq<TaskId>, tasks: map<TaskId, Task>) {
    forall i :: 0 <= i < |queue| ==> queue[i] in tasks
  }

  /** The queue with what is left to do for each task. */
  function Entries(queue: seq<TaskId>, tasks: map<TaskId, Task>): (q: seq<Entry>)
    requires AllKnown(queue, tasks)
    ensures |q| == |queue|
    ensures forall i :: 0 <= i < |q| ==> q[i] == Entry(queue[i], PollsLeft(tasks[queue[i]]))
  {
    seq(|queue|, i requires 0 <= i < |queue| => Entry(queue[i], PollsLeft(tasks[queue[i]])))
  }

  /** The queue after one turn, when only the polled task and its entry changed. */
  lemma RequeuedEntries(q: seq<Entry>, queue: seq<TaskId>, tasks: map<TaskId, Task>)
    requires q != [] && AllKnown(queue, tasks)
    requires |queue| == |q| - 1 + |Requeued(q[0])|
    requires forall i :: 1 <= i < |q| ==> q[i] == Entry(queue[i - 1], PollsLeft(tasks[queue[i - 1]]))
    requires Requeued(q[0]) != [] ==> Requeued(q[0])[0] == Entry(queue[|q| - 1], PollsLeft(tasks[queue[|q| - 1]]))
    ensures Entries(queue, tasks) == q[1..] + Requeued(q[0])
  {
  }

  /** One turn is one poll more. */
  lemma TurnSplits(q: seq<Entry>, polls: seq<TaskId>, n: nat)
    requires q != [] && n > 0
    ensures QueueAfter(q, n) == QueueAfter(q[1..] + Requeued(q[0]), n - 1)
    ensures polls + TurnOrder(q, n) == (polls + [q[0].id]) + TurnOrder(q[1..] + Requeued(q[0]), n - 1)
  {
    Assoc(polls, [q[0].id], TurnOrder(q[1..] + Requeued(q[0]), n - 1));
  }

  /** A task is gone exactly after its last poll: one more than its yields, and another if it waits in one. */
  predicate EndsAfter(t: Task, polled: nat, gone: bool) {
    match t.more
    case None => !gone
    case Some(m) =>
      var due := if IsPending(t) then m + 2 else m + 1;
      polled <= due && (gone <==> polled == due)
  }

  /** What that means for a task of the executor. */
  lemma DueOf(q: seq<Entry>, q': seq<Entry>, tasks: map<TaskId, Task>, queue: seq<TaskId>,
              tasks': map<TaskId, Task>, queue': seq<TaskId>, n: nat, id: TaskId)
    requires AllKnown(queue, tasks) && q == Entries(queue, tasks) && NoDuplicates(queue) && id in queue
    requires AllKnown(queue', tasks') && q' == Entries(queue', tasks') && q' == QueueAfter(q, n)
    requires id in queue' <==> id in tasks'
    ensures EndsAfter(tasks[id], Count(TurnOrder(q, n), id), id !in tasks')
  {
    var e := Entry(id, PollsLeft(tasks[id]));
    var k :| 0 <= k < |queue| && queue[k] == id;
    assert q[k] == e && Ids(q) == queue && Ids(q') == queue';
    PolledAsDue(q, e, n);
    IdListed(q', id);
  }

  class Executor {
    var tasks: map<TaskId, Task>
    var taskQueue: seq<TaskId>
    var wakerCache: set<TaskId>
    var panicked: bool
    ghost var polls: seq<TaskId>

    /** Between polls every live task has exactly one entry, and cached wakers belong to live tasks. */
    ghost predicate Valid()
      reads this
    {
      && !panicked && |taskQueue| <= CAPACITY && NoDuplicates(taskQueue)
      && (forall id :: id in taskQueue <==> id in tasks)
      && (forall id :: id in wakerCache ==> id in tasks)
    }

    ghost function Pending(): (q: seq<Entry>)
      requires Valid()
      reads this
      ensures |q| == |taskQueue|
    {
      Entries(taskQueue, tasks)
    }

    constructor ()
      ensures Valid() && tasks == map[] && polls == []
    {
      tasks, taskQueue, wakerCache, panicked, polls := map[], [], {}, false, [];
    }

    /** `spawn`: a second task of the same id and a full queue panic. */
    method Spawn(id: TaskId, task: Task)
      requires Valid()
      modifies this
      ensures panicked <==> id in old(tasks) || |old(taskQueue)| >= CAPACITY
      ensures !panicked ==> Valid() && Pending() == old(Pending()) + [Entry(id, PollsLeft(task))]
      ensures polls == old(polls)
    {
      if id in tasks {
        panicked := true;
        return;
      }
      tasks := tasks[id := task];
      Wake(id);
      assert !panicked ==> Pending() == old(Pending()) + [Entry(id, PollsLeft(task))];
    }

    /** `wake_task` */
    method Wake(id: TaskId)
      requires !panicked
      modifies this`taskQueue, this`panicked
      ensures panicked <==> |old(taskQueue)| >= CAPACITY
      ensures taskQueue == if panicked then old(taskQueue) else old(taskQueue) + [id]
    {
      if |taskQueue| < CAPACITY {
        taskQueue := taskQueue + [id];
      } else {
        panicked := true;
      }
    }

    /** Polls a task: it runs to its next `yield_now`, which wakes it and suspends it, or to its end. */
    method Poll(id: TaskId) returns (done: bool)
      requires !panicked && id in tasks && |taskQueue| < CAPACITY
      modifies this`tasks, this`taskQueue, this`panicked
      ensures !panicked && done == (PollsLeft(old(tasks)[id]) == Some(1))
      ensures var task, pending := old(tasks)[id], IsPending(old(tasks)[id]);
        && (done <==> !pending && task.more == Some(0))
        && (!done ==> id in tasks && tasks[id].current == Some(YieldNow(true))
                      && tasks[id].more == if pending || task.more == None then task.more else Some(task.more.value - 1))
      ensures done ==> tasks == old(tasks) && taskQueue == old(taskQueue)
      ensures !done ==>
        && taskQueue == old(taskQueue) + [id] && id in tasks && tasks == old(tasks)[id := tasks[id]]
        && Requeued(Entry(id, PollsLeft(old(tasks)[id]))) == [Entry(id, PollsLeft(tasks[id]))]
    {
      var task := tasks[id];
      if task.current.Some? && !task.current.value.yielded {
        tasks := tasks[id := task.(current := Some(YieldNow(true)))];
        Wake(id);
        return false;
      }
      if task.more == Some(0) {
        return true;
      }
      var more := if task.more.Some? then Some(task.more.value - 1) else None;
      tasks := tasks[id := Task(Some(YieldNow(true)), more)];
      Wake(id);
      done := false;
    }

    /** One turn of the loop of `run_ready_tasks`. */
    method RunOne()
      requires Valid() && taskQueue != []
      modifies this
      ensures Valid()
      ensures var q := old(Pending());
        Pending() == q[1..] + Requeued(q[0]) && polls == old(polls) + [q[0].id]
    {
      ghost var q, rest, before := Pending(), taskQueue[1..], tasks;
      var id := taskQueue[0];
      assert id !in rest;
      taskQueue := taskQueue[1..];
      wakerCache := wakerCache + {id};
      polls := polls + [id];
      var done := Poll(id);
      if done {
        tasks := tasks - {id};
        wakerCache := wakerCache - {id};
        assert taskQueue == rest;
      } else {
        assert taskQueue == rest + [id];
      }
      RequeuedEntries(q, taskQueue, tasks);
    }

    /** At most `turns` turns of the loop of `run_ready_tasks`. */
    method RunTurns(turns: nat)
      requires Valid()
      modifies this
      ensures Valid() && Pending() == QueueAfter(old(Pending()), turns)
      ensures polls == old(polls) + TurnOrder(old(Pending()), turns)
    {
      ghost var q := Pending();
      var left: nat := turns;
      while taskQueue != [] && left > 0
        invariant Valid() && QueueAfter(Pending(), left) == QueueAfter(q, turns)
        invariant polls + TurnOrder(Pending(), left) == old(polls) + TurnOrder(q, turns)
        decreases left
      {
        TurnSplits(Pending(), polls, left);
        RunOne();
        left := left - 1;
      }
    }

    /**
     * The loop of `run_ready_tasks`, for at most `turns` turns. Whatever the number, the polls made are the first of the
     * rounds, the queue has not overflowed and every live task has exactly one entry. A task with `m` yields to come is
     * gone exactly when it has been polled `m + 1` times, or once more if it waits in a yield not polled yet; an endless
     * one never.
     */
    method RunReadyTasks(turns: nat)
      requires Valid()
      modifies this
      ensures Valid() && Pending() == QueueAfter(old(Pending()), turns)
      ensures polls == old(polls) + FirstOfRounds(old(Pending()), turns)
      ensures taskQueue == [] <==> AllFinite(old(Pending())) && Total(old(Pending())) <= turns
      ensures taskQueue == [] ==> tasks == map[] && wakerCache == {}
      ensures forall id :: id in old(tasks) ==> EndsAfter(old(tasks)[id], Count(polls[|old(polls)|..], id), id !in tasks)
    {
      ghost var q, tasks0, queue0, polls0 := Pending(), tasks, taskQueue, polls;
      QueueIsRoundRobin(q, turns);
      RunsEmpty(q, turns);
      RunTurns(turns);
      assert taskQueue == [] ==> forall id :: id !in tasks;
      assert polls[|polls0|..] == TurnOrder(q, turns);
      forall id | id in tasks0 ensures EndsAfter(tasks0[id], Count(TurnOrder(q, turns), id), id !in tasks) {
        DueOf(q, Pending(), tasks0, queue0, tasks, taskQueue, turns, id);
      }
    }
  }
}
