/**
 * The executor, the keyboard task and the keyboard interrupt as one step system. Each action is atomic;
 * an interrupt may fall between any two of them unless interrupts are disabled.
 */
module Wakeup {
  import opened Basics

  type TaskId = nat
  type Scancode = nat

  const CAPACITY := 100
  /** The task of `print_keypresses`, the first one to be created. */
  const KEYBOARD: TaskId := 0

  /** Where the processor is. */
  datatype Pc =
    | Scheduling                 // about to pop the ready queue
    | Polling(id: TaskId, woken: bool)   // inside the poll of a task other than the keyboard task
    | FirstPoll                  // the keyboard task runs for the first time: `ScancodeStream::new`
    | FirstPop                   // inside `poll_next`, before the first pop
    | Registering                // ... before the waker is registered
    | SecondPop                  // ... before the second pop
    | Idle                       // in `sleep_if_idle`, interrupts still enabled
    | Checking                   // in `sleep_if_idle`, interrupts disabled
    | Halted
    | Panicked

  /** `pushed`, `popped`, `accepted` and `delivered` record everything that went through the two queues. */
  datatype State = State(
    tasks: set<TaskId>,
    cachedWakers: set<TaskId>,
    ready: seq<TaskId>,
    scancodes: seq<Scancode>,
    initialized: bool,
    waker: Option<TaskId>,
    pc: Pc,
    pushed: seq<TaskId>,
    popped: seq<TaskId>,
    accepted: seq<Scancode>,
    delivered: seq<Scancode>)

  datatype Action =
    | KeyInterrupt(code: Scancode)
    | OtherInterrupt
    | PopTask
    | WakeSelf                   // the polled task calls its own waker
    | ReturnPending
    | ReturnDone
    | KeyboardStep               // the next atomic step of the keyboard task
    | SleepStep                  // the next atomic step of `sleep_if_idle`

  // ----- The steps -----

  /** `task_queue.push(id).expect(..)` */
  function Push(s: State, id: TaskId): State {
    if |s.ready| < CAPACITY then s.(ready := s.ready + [id], pushed := s.pushed + [id]) else s.(pc := Panicked)
  }

  /** Returning from an interrupt resumes a halted processor. */
  function Resume(s: State): State {
    if s.pc == Halted then s.(pc := Scheduling) else s
  }

  /** `add_scancode`: a full or missing queue drops the code and wakes nobody. */
  function AddScancode(s: State, code: Scancode): State {
    if !s.initialized || |s.scancodes| >= CAPACITY then s
    else
      var s1 := s.(scancodes := s.scancodes + [code], accepted := s.accepted + [code]);
      if s1.waker.Some? then Push(s1.(waker := None), s1.waker.value) else s1
  }

  function Pop(s: State): State {
    if s.ready == [] then s.(pc := Idle)
    else
      var id := s.ready[0];
      var s1 := s.(ready := s.ready[1..], popped := s.popped + [id]);
      if id !in s.tasks then s1
      else s1.(cachedWakers := s.cachedWakers + {id},
               pc := if id != KEYBOARD then Polling(id, false) else if s.initialized then FirstPop else FirstPoll)
  }

  /** A pop from the scancode queue that finds a code: the consumer takes it and polls the stream again. */
  function Deliver(s: State): State
    requires s.scancodes != []
  {
    s.(scancodes := s.scancodes[1..], delivered := s.delivered + [s.scancodes[0]], pc := FirstPop)
  }

  function Keyboard(s: State): State {
    match s.pc
    case FirstPoll => s.(initialized := true, pc := FirstPop)
    case FirstPop => if s.scancodes != [] then Deliver(s) else s.(pc := Registering)
    case Registering => s.(waker := Some(KEYBOARD), pc := SecondPop)
    case SecondPop => if s.scancodes != [] then Deliver(s) else s.(pc := Scheduling)
    case _ => s
  }

  /** `sleep_if_idle` */
  function Sleep(s: State): State {
    match s.pc
    case Idle => s.(pc := Checking)
    case Checking => if s.ready == [] then s.(pc := Halted) else s.(pc := Scheduling)
    case _ => s
  }

  /** One atomic step; an action that is not possible in a state changes nothing. */
  function Step(s: State, a: Action): State {
    if s.pc == Panicked then s
    else
      match a
      case KeyInterrupt(code) => if s.pc == Checking then s else AddScancode(Resume(s), code)
      case OtherInterrupt => if s.pc == Checking then s else Resume(s)
      case PopTask => if s.pc == Scheduling then Pop(s) else s
      case WakeSelf => if s.pc.Polling? then Push(s.(pc := Polling(s.pc.id, true)), s.pc.id) else s
      case ReturnPending => if s.pc.Polling? then s.(pc := Scheduling) else s
      case ReturnDone =>
        if s.pc.Polling? then
          s.(pc := Scheduling, tasks := s.tasks - {s.pc.id}, cachedWakers := s.cachedWakers - {s.pc.id})
        else s
      case KeyboardStep => Keyboard(s)
      case SleepStep => Sleep(s)
  }

  function Exec(s: State, actions: seq<Action>): State {
    if actions == [] then s else Step(Exec(s, actions[..|actions| - 1]), actions[|actions| - 1])
  }

  /** The state in which the executor starts to run, with the given tasks spawned in this order. */
  function Start(ids: seq<TaskId>): State {
    State(set id | id in ids, {}, ids, [], false, None, Scheduling, ids, [], [], [])
  }

  /** The tasks a start may have: distinct, the keyboard task among them, and not more than the queue holds. */
  predicate GoodStart(ids: seq<TaskId>) {
    |ids| <= CAPACITY && KEYBOARD in ids && NoDuplicates(ids)
  }

  // ----- What every step keeps -----

  predicate InKeyboard(pc: Pc) {
    pc.FirstPoll? || pc.FirstPop? || pc.Registering? || pc.SecondPop?
  }

  predicate Inv(s: State) {
    && |s.ready| <= CAPACITY && |s.scancodes| <= CAPACITY
    && s.popped + s.ready == s.pushed
    && s.delivered + s.scancodes == s.accepted
    && KEYBOARD in s.tasks && s.cachedWakers <= s.tasks
    && (s.waker.Some? ==> s.waker.value == KEYBOARD)
    && (!s.initialized ==> s.scancodes == [] && s.waker == None)
    && (s.pc == FirstPoll <==> InKeyboard(s.pc) && !s.initialized)
    && (s.pc.Polling? ==> s.pc.id in s.tasks && s.pc.id != KEYBOARD && (s.pc.woken ==> s.pc.id in s.ready))
    && (!InKeyboard(s.pc) ==> KEYBOARD in s.ready || (s.waker == Some(KEYBOARD) && s.scancodes == []))
    && (s.pc == SecondPop ==> KEYBOARD in s.ready || s.waker == Some(KEYBOARD))
    && (s.pc == Halted ==> s.ready == [])
  }

  lemma StartInv(ids: seq<TaskId>)
    requires GoodStart(ids)
    ensures Inv(Start(ids))
  {
  }

  lemma PushKeeps(s: State, id: TaskId)
    requires |s.ready| <= CAPACITY && s.popped + s.ready == s.pushed
    ensures var s' := Push(s, id);
      s'.pc != Panicked ==>
        && s' == s.(ready := s.ready + [id], pushed := s.pushed + [id])
        && |s'.ready| <= CAPACITY && s'.popped + s'.ready == s'.pushed && id in s'.ready
        && forall x :: x in s.ready ==> x in s'.ready
  {
    assert s.popped + (s.ready + [id]) == (s.popped + s.ready) + [id];
  }

  lemma KeyInterruptInv(s: State, code: Scancode)
    requires Inv(s) && s.pc != Checking && s.pc != Panicked
    ensures var s' := AddScancode(Resume(s), code); s'.pc != Panicked ==> Inv(s')
  {
    var r := Resume(s);
    if r.initialized && |r.scancodes| < CAPACITY {
      var s1 := r.(scancodes := r.scancodes + [code], accepted := r.accepted + [code]);
      assert s1.delivered + s1.scancodes == (s.delivered + s.scancodes) + [code];
      if s1.waker.Some? {
        PushKeeps(s1.(waker := None), KEYBOARD);
      }
    }
  }

  lemma PopInv(s: State)
    requires Inv(s) && s.pc == Scheduling
    ensures Inv(Pop(s))
  {
    if s.ready != [] {
      assert s.ready == [s.ready[0]] + s.ready[1..];
      assert (s.popped + [s.ready[0]]) + s.ready[1..] == s.popped + s.ready;
    }
  }

  lemma KeyboardInv(s: State)
    requires Inv(s) && s.pc != Panicked
    ensures Inv(Keyboard(s)) && Keyboard(s).pc != Panicked
  {
    if s.scancodes != [] {
      assert (s.delivered + [s.scancodes[0]]) + s.scancodes[1..] == s.delivered + s.scancodes;
    }
  }

  lemma StepInv(s: State, a: Action)
    requires Inv(s) && Step(s, a).pc != Panicked
    ensures s.pc != Panicked && Inv(Step(s, a))
  {
    match a
    case KeyInterrupt(code) =>
      if s.pc != Checking {
        KeyInterruptInv(s, code);
      }
    case OtherInterrupt =>
    case PopTask =>
      if s.pc == Scheduling {
        PopInv(s);
      }
    case WakeSelf =>
      if s.pc.Polling? {
        PushKeeps(s.(pc := Polling(s.pc.id, true)), s.pc.id);
      }
    case ReturnPending =>
    case ReturnDone =>
    case KeyboardStep => KeyboardInv(s);
    case SleepStep =>
  }

  /** Every interleaving that does not panic keeps the invariant. */
  lemma {:induction false} ExecInv(s: State, actions: seq<Action>)
    requires Inv(s) && Exec(s, actions).pc != Panicked
    ensures Inv(Exec(s, actions))
  {
    if actions == [] {
    } else {
      PanicIsFinal(Exec(s, actions[..|actions| - 1]), actions[|actions| - 1]);
      ExecInv(s, actions[..|actions| - 1]);
      StepInv(Exec(s, actions[..|actions| - 1]), actions[|actions| - 1]);
    }
  }

  lemma PanicIsFinal(s: State, a: Action)
    requires Step(s, a).pc != Panicked
    ensures s.pc != Panicked
  {
  }

  // ----- No lost wakeup -----

  /**
   * Whatever the interleaving: a scancode that waits while the keyboard task is not running has that task in
   * the ready queue, and the processor is halted only when nothing is ready and no scancode waits.
   */
  lemma NoLostWakeup(ids: seq<TaskId>, actions: seq<Action>)
    requires GoodStart(ids)
    ensures var s := Exec(Start(ids), actions);
      s.pc != Panicked ==>
        && (s.scancodes != [] && !InKeyboard(s.pc) ==> KEYBOARD in s.ready)
        && (s.pc == Halted ==> s.ready == [] && s.scancodes == [])
        && s.cachedWakers <= s.tasks && KEYBOARD in s.tasks
  {
    StartInv(ids);
    if Exec(Start(ids), actions).pc != Panicked {
      ExecInv(Start(ids), actions);
    }
  }

  /** Every accepted scancode is delivered once and in order: what was not delivered yet is still queued. */
  lemma DeliveredInOrder(ids: seq<TaskId>, actions: seq<Action>)
    requires GoodStart(ids)
    ensures var s := Exec(Start(ids), actions);
      s.pc != Panicked ==> s.delivered + s.scancodes == s.accepted && |s.scancodes| <= CAPACITY
  {
    StartInv(ids);
    if Exec(Start(ids), actions).pc != Panicked {
      ExecInv(Start(ids), actions);
    }
  }

  // ----- Which scancodes are accepted -----

  /** A key interrupt that is not masked finds the queue there and not full. Whether a waker is registered is no matter. */
  predicate Accepts(s: State, a: Action) {
    a.KeyInterrupt? && s.pc != Checking && s.pc != Panicked && s.initialized && |s.scancodes| < 100
  }

  lemma StepAccepts(s: State, a: Action)
    ensures Step(s, a).accepted == if Accepts(s, a) then s.accepted + [a.code] else s.accepted
  {
  }

  /** The codes of the interrupts of a run that are accepted, in order. */
  function CodesOf(s: State, actions: seq<Action>): seq<Scancode> {
    if actions == [] then []
    else
      var n := |actions| - 1;
      CodesOf(s, actions[..n]) + if Accepts(Exec(s, actions[..n]), actions[n]) then [actions[n].code] else []
  }

  /** What a run accepts is the codes of exactly those interrupts, in order, and nothing else. */
  lemma {:induction false} AcceptedExactly(s: State, actions: seq<Action>)
    ensures Exec(s, actions).accepted == s.accepted + CodesOf(s, actions)
  {
    if actions == [] {
    } else {
      var n := |actions| - 1;
      AcceptedExactly(s, actions[..n]);
      StepAccepts(Exec(s, actions[..n]), actions[n]);
    }
  }

  /** So what has been delivered and what waits are together the accepted codes: none is lost, none is invented. */
  lemma NothingLost(ids: seq<TaskId>, actions: seq<Action>)
    requires GoodStart(ids)
    ensures var s := Exec(Start(ids), actions);
      s.pc != Panicked ==> s.delivered + s.scancodes == CodesOf(Start(ids), actions)
  {
    StartInv(ids);
    AcceptedExactly(Start(ids), actions);
    if Exec(Start(ids), actions).pc != Panicked {
      ExecInv(Start(ids), actions);
    }
  }

  // ----- Progress of the keyboard task -----

  function Steps(n: nat): seq<Action> {
    seq(n, _ => KeyboardStep)
  }

  lemma {:induction false} ExecFirst(s: State, a: Action, actions: seq<Action>)
    ensures Exec(s, [a] + actions) == Exec(Step(s, a), actions)
  {
    if actions == [] {
      assert ([a] + actions)[..0] == [];
    } else {
      var k := |actions| - 1;
      assert ([a] + actions)[..k + 1] == [a] + actions[..k];
      ExecFirst(s, a, actions[..k]);
    }
  }

  lemma EmptyPollReturns(s: State)
    requires s.pc == FirstPop && s.scancodes == []
    ensures Exec(s, Steps(3)) == s.(waker := Some(KEYBOARD), pc := Scheduling)
  {
    ExecTwo(s, KeyboardStep, KeyboardStep);
    assert Steps(3)[..2] == [KeyboardStep, KeyboardStep];
  }

  /** The state once the keyboard task has taken everything and gone back to sleep. */
  function Drained(s: State): State {
    s.(scancodes := [], delivered := s.delivered + s.scancodes, waker := Some(KEYBOARD), pc := Scheduling)
  }

  /** Left alone, one poll delivers everything that waits, registers the waker and returns to the scheduler. */
  lemma {:induction false} PollDrains(s: State)
    requires s.pc == FirstPop
    ensures Exec(s, Steps(|s.scancodes| + 3)) == Drained(s)
    decreases |s.scancodes|
  {
    if s.scancodes == [] {
      EmptyPollReturns(s);
      assert s.delivered + s.scancodes == s.delivered;
    } else {
      var n := |s.scancodes| + 2;
      ExecFirst(s, KeyboardStep, Steps(n));
      assert Steps(n + 1) == [KeyboardStep] + Steps(n);
      assert Drained(Deliver(s)) == Drained(s) by {
        assert (s.delivered + [s.scancodes[0]]) + s.scancodes[1..] == s.delivered + s.scancodes;
      }
      PollDrains(Deliver(s));
    }
  }

  // ----- Every scancode can be delivered -----

  /** The processor runs on undisturbed: no interrupt, and polled tasks return without waking anyone. */
  predicate Undisturbed(actions: seq<Action>) {
    forall k :: 0 <= k < |actions| ==>
      actions[k].PopTask? || actions[k].ReturnPending? || actions[k].KeyboardStep? || actions[k].SleepStep?
  }

  /** Some undisturbed continuation delivers everything that waits and leaves the keyboard task asleep. */
  ghost predicate CanDeliver(s: State) {
    exists actions :: Undisturbed(actions) && Delivers(s, Exec(s, actions))
  }

  predicate Delivers(s: State, s': State) {
    s'.pc != Panicked && s'.scancodes == [] && s'.delivered == s.delivered + s.scancodes && s'.accepted == s.accepted
  }

  lemma DeliverLater(s: State, a: Action)
    requires a.PopTask? || a.ReturnPending? || a.KeyboardStep? || a.SleepStep?
    requires CanDeliver(Step(s, a)) && Step(s, a).accepted == s.accepted
    requires Step(s, a).delivered + Step(s, a).scancodes == s.delivered + s.scancodes
    ensures CanDeliver(s)
  {
    var actions :| Undisturbed(actions) && Delivers(Step(s, a), Exec(Step(s, a), actions));
    ExecFirst(s, a, actions);
    assert Undisturbed([a] + actions) && Delivers(s, Exec(s, [a] + actions));
  }

  lemma DrainsFromPoll(s: State)
    requires s.pc == FirstPop
    ensures CanDeliver(s)
  {
    PollDrains(s);
    assert Undisturbed(Steps(|s.scancodes| + 3));
    assert Delivers(s, Exec(s, Steps(|s.scancodes| + 3)));
  }

  lemma DrainsFromKeyboard(s: State)
    requires Inv(s) && InKeyboard(s.pc)
    ensures CanDeliver(s)
  {
    match s.pc
    case FirstPop => DrainsFromPoll(s);
    case FirstPoll =>
      DrainsFromPoll(Step(s, KeyboardStep));
      DeliverLater(s, KeyboardStep);
    case Registering =>
      DrainsFromSecond(Step(s, KeyboardStep));
      DeliverLater(s, KeyboardStep);
    case SecondPop => DrainsFromSecond(s);
  }

  lemma DrainsFromSecond(s: State)
    requires s.pc == SecondPop
    ensures CanDeliver(s)
  {
    var s' := Step(s, KeyboardStep);
    if s.scancodes == [] {
      assert s' == s.(pc := Scheduling);
      assert Exec(s, []) == s;
      assert Undisturbed([]) && Delivers(s, Exec(s, []));
    } else {
      DrainsFromPoll(s');
      assert s.delivered + s.scancodes == s'.delivered + s'.scancodes;
      DeliverLater(s, KeyboardStep);
    }
  }

  /** The scheduler reaches the keyboard task once it has popped what is queued in front of it. */
  lemma {:induction false} DrainsFromScheduler(s: State, k: nat)
    requires Inv(s) && s.pc == Scheduling && k < |s.ready| && s.ready[k] == KEYBOARD
    ensures CanDeliver(s)
    decreases k
  {
    var s' := Step(s, PopTask);
    PopInv(s);
    if s.ready[0] == KEYBOARD {
      DrainsFromKeyboard(s');
    } else if s.ready[0] !in s.tasks {
      DrainsFromScheduler(s', k - 1);
    } else {
      DrainsFromScheduler(Step(s', ReturnPending), k - 1);
      DeliverLater(s', ReturnPending);
    }
    DeliverLater(s, PopTask);
  }

  lemma DrainsFromIdle(s: State)
    requires Inv(s) && s.scancodes != [] && (s.pc == Idle || s.pc == Checking)
    ensures CanDeliver(s)
  {
    var k :| 0 <= k < |s.ready| && s.ready[k] == KEYBOARD;
    var checking := s.(pc := Checking);
    assert Step(checking, SleepStep) == s.(pc := Scheduling);
    DrainsFromScheduler(s.(pc := Scheduling), k);
    DeliverLater(checking, SleepStep);
    if s.pc == Idle {
      DeliverLater(s, SleepStep);
    }
  }

  /**
   * No accepted scancode is ever stuck: from every state that a run can reach without a panic, the processor running on
   * undisturbed delivers everything that waits, in order.
   */
  lemma AlwaysDeliverable(ids: seq<TaskId>, actions: seq<Action>)
    requires GoodStart(ids) && Exec(Start(ids), actions).pc != Panicked
    ensures CanDeliver(Exec(Start(ids), actions))
  {
    var s := Exec(Start(ids), actions);
    StartInv(ids);
    ExecInv(Start(ids), actions);
    if s.scancodes == [] {
      assert Exec(s, []) == s;
      assert Undisturbed([]) && Delivers(s, Exec(s, []));
    } else if InKeyboard(s.pc) {
      DrainsFromKeyboard(s);
    } else {
      var k :| 0 <= k < |s.ready| && s.ready[k] == KEYBOARD;
      match s.pc
      case Scheduling => DrainsFromScheduler(s, k);
      case Polling(_, _) =>
        DrainsFromScheduler(s.(pc := Scheduling), k);
        DeliverLater(s, ReturnPending);
      case Idle => DrainsFromIdle(s);
      case Checking => DrainsFromIdle(s);
    }
  }

  // ----- What the scheduler does -----

  /** The front of the ready queue, if it is a live task, is polled; a dead one is skipped. */
  lemma PopPollsFront(s: State)
    requires s.pc == Scheduling && s.ready != []
    ensures var s' := Step(s, PopTask);
      var id := s.ready[0];
      && s'.ready == s.ready[1..] && s'.popped == s.popped + [id] && s'.tasks == s.tasks
      && (id !in s.tasks ==> s'.pc == Scheduling)
      && (id in s.tasks && id != KEYBOARD ==> s'.pc.Polling? && s'.pc.id == id)
      && (id in s.tasks && id == KEYBOARD ==> s'.pc == if s.initialized then FirstPop else FirstPoll)
      && (id in s.tasks ==> id in s'.cachedWakers)
  {
  }

  /** From an empty ready queue the executor halts unless an interrupt falls in between; any interrupt resumes it. */
  lemma HaltsWhenIdle(s: State)
    requires s.pc == Scheduling && s.ready == []
    ensures Exec(s, [PopTask, SleepStep, SleepStep]) == s.(pc := Halted)
    ensures Step(s.(pc := Halted), OtherInterrupt) == s
  {
    ExecFirst(s, PopTask, [SleepStep, SleepStep]);
    ExecTwo(Step(s, PopTask), SleepStep, SleepStep);
    assert [PopTask] + [SleepStep, SleepStep] == [PopTask, SleepStep, SleepStep];
  }

  /** A finished task and its cached waker are removed, and no others. */
  lemma DoneIsRemoved(s: State)
    requires s.pc.Polling?
    ensures var s' := Step(s, ReturnDone);
      s'.tasks == s.tasks - {s.pc.id} && s'.cachedWakers == s.cachedWakers - {s.pc.id} && s'.pc == Scheduling
  {
  }

  // ----- Fairness -----

  /** The records of the ready queue only grow. */
  lemma StepGrows(s: State, a: Action)
    ensures s.popped <= Step(s, a).popped && s.pushed <= Step(s, a).pushed
  {
  }

  lemma {:induction false} ExecGrows(s: State, actions: seq<Action>)
    ensures s.popped <= Exec(s, actions).popped && s.pushed <= Exec(s, actions).pushed
  {
    if actions == [] {
    } else {
      ExecGrows(s, actions[..|actions| - 1]);
      StepGrows(Exec(s, actions[..|actions| - 1]), actions[|actions| - 1]);
    }
  }

  /**
   * The task at position `k` of the ready queue is the one popped after exactly `k` other pops, whatever is
   * pushed meanwhile; until then it is still queued, that much closer to the front.
   */
  lemma ReadyQueueIsFair(s: State, actions: seq<Action>, k: nat)
    requires Inv(s) && k < |s.ready| && Exec(s, actions).pc != Panicked
    ensures var s' := Exec(s, actions);
      var pops := |s'.popped| - |s.popped|;
      if k < pops then s'.popped[|s.popped| + k] == s.ready[k]
      else k - pops < |s'.ready| && s'.ready[k - pops] == s.ready[k]
  {
    var s' := Exec(s, actions);
    ExecInv(s, actions);
    ExecGrows(s, actions);
    FirstInFirstOut(s.popped, s.ready, s'.popped, s'.ready, k);
  }

  /** Two moments of a queue, each given by what has left it and what is in it. */
  lemma FirstInFirstOut(popped: seq<TaskId>, ready: seq<TaskId>, popped': seq<TaskId>, ready': seq<TaskId>, k: nat)
    requires popped <= popped' && popped + ready <= popped' + ready' && k < |ready|
    ensures var pops := |popped'| - |popped|;
      if k < pops then popped'[|popped| + k] == ready[k]
      else k - pops < |ready'| && ready'[k - pops] == ready[k]
  {
    assert (popped' + ready')[|popped| + k] == (popped + ready)[|popped| + k];
  }

  // ----- Overflow -----

  /** One round of a poll in which the interrupt falls between the registration and the second pop. */
  function SpareRound(): seq<Action> {
    [KeyboardStep, KeyboardStep, KeyInterrupt(0), KeyboardStep]
  }

  function SpareRounds(n: nat): seq<Action> {
    if n == 0 then [PopTask, KeyboardStep] else SpareRounds(n - 1) + SpareRound()
  }

  lemma {:induction false} ExecAppend(s: State, xs: seq<Action>, ys: seq<Action>)
    ensures Exec(s, xs + ys) == Exec(Exec(s, xs), ys)
    decreases |ys|
  {
    if ys == [] {
      assert xs + ys == xs;
    } else {
      assert (xs + ys)[..|xs + ys| - 1] == xs + ys[..|ys| - 1];
      ExecAppend(s, xs, ys[..|ys| - 1]);
    }
  }

  lemma ExecTwo(s: State, a: Action, b: Action)
    ensures Exec(s, [a, b]) == Step(Step(s, a), b)
  {
    ExecFirst(s, a, [b]);
    ExecFirst(Step(s, a), b, []);
    assert [a, b] == [a] + [b] && [b] == [b] + [];
  }

  /** Four actions in a row. */
  lemma ExecFour(s: State, a: Action, b: Action, c: Action, d: Action)
    ensures Exec(s, [a, b, c, d]) == Step(Step(Step(Step(s, a), b), c), d)
  {
    ExecFirst(s, a, [b, c, d]);
    ExecTwo(Step(s, a), b, c);
    assert [a, b, c, d] == [a] + [b, c, d] && [b, c, d][..2] == [b, c];
  }

  /** The keyboard task is about to poll an empty queue, with `n` ids waiting. */
  predicate Polls(s: State, n: nat) {
    s.pc == FirstPop && s.initialized && s.scancodes == [] && s.waker == None && |s.ready| == n
  }

  /** What the interrupt does in such a round. */
  lemma SpareInterrupt(s: State, n: nat)
    requires Polls(s, n)
    ensures var s3 := Step(Step(Step(s, KeyboardStep), KeyboardStep), KeyInterrupt(0));
      if n < CAPACITY then Polls(Step(s3, KeyboardStep), n + 1) else s3.pc == Panicked
  {
    var s2 := s.(waker := Some(KEYBOARD), pc := SecondPop);
    assert Step(Step(s, KeyboardStep), KeyboardStep) == s2;
    var s3 := AddScancode(s2, 0);
    assert Step(s2, KeyInterrupt(0)) == s3;
    if n < CAPACITY {
      assert s3.scancodes == [0] && s3.pc == SecondPop && s3.waker == None && s3.ready == s.ready + [KEYBOARD];
    }
  }

  /** Such a round leaves one more spare id of the keyboard task in the ready queue, until there is no room for it. */
  lemma SpareRoundEffect(s: State, n: nat)
    requires Polls(s, n)
    ensures if n < CAPACITY then Polls(Exec(s, SpareRound()), n + 1) else Exec(s, SpareRound()).pc == Panicked
  {
    ExecFour(s, KeyboardStep, KeyboardStep, KeyInterrupt(0), KeyboardStep);
    SpareInterrupt(s, n);
  }

  lemma FirstPollStarts()
    ensures Polls(Exec(Start([KEYBOARD]), [PopTask, KeyboardStep]), 0)
  {
    ExecTwo(Start([KEYBOARD]), PopTask, KeyboardStep);
  }

  lemma {:induction false} SpareWakes(n: nat)
    requires n <= CAPACITY
    ensures Polls(Exec(Start([KEYBOARD]), SpareRounds(n)), n)
  {
    if n == 0 {
      FirstPollStarts();
    } else {
      SpareWakes(n - 1);
      SpareRoundEffect(Exec(Start([KEYBOARD]), SpareRounds(n - 1)), n - 1);
      ExecAppend(Start([KEYBOARD]), SpareRounds(n - 1), SpareRound());
    }
  }

  /** The bound of the ready queue can be broken by interrupts alone: with one task, the 101st spare id panics. */
  lemma InterruptsCanOverflow()
    ensures Exec(Start([KEYBOARD]), SpareRounds(CAPACITY + 1)).pc == Panicked
  {
    SpareWakes(CAPACITY);
    SpareRoundEffect(Exec(Start([KEYBOARD]), SpareRounds(CAPACITY)), CAPACITY);
    ExecAppend(Start([KEYBOARD]), SpareRounds(CAPACITY), SpareRound());
  }

  // ----- When the queue overflows -----

  /** The action pushes an id to the ready queue: an interrupt with a registered waker, or a task that wakes itself. */
  predicate Pushes(s: State, a: Action) {
    match a
    case KeyInterrupt(_) =>
      s.pc != Panicked && s.pc != Checking && s.initialized && |s.scancodes| < CAPACITY && s.waker.Some?
    case WakeSelf => s.pc.Polling?
    case _ => false
  }

  lemma OnlyFullQueuesPanic(s: State, a: Action)
    requires |s.ready| <= CAPACITY && s.pc != Panicked
    ensures Step(s, a).pc == Panicked <==> |s.ready| == CAPACITY && Pushes(s, a)
  {
  }

  /** Action `k` of a run pushes to a queue that is full by then. */
  ghost predicate OverflowsAt(s: State, actions: seq<Action>, k: nat)
    requires k < |actions|
  {
    |Exec(s, actions[..k]).ready| == CAPACITY && Pushes(Exec(s, actions[..k]), actions[k])
  }

  ghost predicate Overflows(s: State, actions: seq<Action>) {
    exists k :: 0 <= k < |actions| && OverflowsAt(s, actions, k)
  }

  lemma OverflowsSoFar(s: State, actions: seq<Action>)
    requires actions != []
    ensures var n := |actions| - 1;
      Overflows(s, actions) <==> Overflows(s, actions[..n]) || OverflowsAt(s, actions, n)
  {
    var n := |actions| - 1;
    forall k | 0 <= k < n ensures OverflowsAt(s, actions[..n], k) <==> OverflowsAt(s, actions, k) {
      assert actions[..n][..k] == actions[..k];
    }
    if Overflows(s, actions) {
      var k :| 0 <= k < |actions| && OverflowsAt(s, actions, k);
      assert k == n || OverflowsAt(s, actions[..n], k);
    }
    if Overflows(s, actions[..n]) {
      var k :| 0 <= k < n && OverflowsAt(s, actions[..n], k);
      assert OverflowsAt(s, actions, k);
    }
  }

  /** A run panics exactly when some action of it pushes to a queue that is full by then. */
  lemma {:induction false} PanicsExactly(s: State, actions: seq<Action>)
    requires Inv(s) && s.pc != Panicked
    ensures Exec(s, actions).pc == Panicked <==> Overflows(s, actions)
  {
    if actions == [] {
    } else {
      var n := |actions| - 1;
      PanicsExactly(s, actions[..n]);
      OverflowsSoFar(s, actions);
      if Exec(s, actions[..n]).pc != Panicked {
        ExecInv(s, actions[..n]);
        OnlyFullQueuesPanic(Exec(s, actions[..n]), actions[n]);
      }
    }
  }

  /**
   * A push that is not paid for: an interrupt while the keyboard task runs with its waker registered, or a task
   * that wakes itself again in the same poll.
   */
  predicate Noisy(s: State, a: Action) {
    Pushes(s, a) && (a.KeyInterrupt? ==> InKeyboard(s.pc)) && (a.WakeSelf? ==> s.pc.Polling? && s.pc.woken)
  }

  /** The number of such pushes in a run. */
  function Noise(s: State, actions: seq<Action>): nat {
    if actions == [] then 0
    else
      var n := |actions| - 1;
      Noise(s, actions[..n]) + if Noisy(Exec(s, actions[..n]), actions[n]) then 1 else 0
  }

  /** Entries that may still come without noise: one for the keyboard task, one for the task being polled. */
  function Due(s: State): nat {
    (if InKeyboard(s.pc) || s.waker.Some? then 1 else 0) + (if s.pc.Polling? && !s.pc.woken then 1 else 0)
  }

  lemma StepPays(s: State, a: Action)
    requires Inv(s) && Step(s, a).pc != Panicked
    ensures var s' := Step(s, a); |s'.ready| + Due(s') <= |s.ready| + Due(s) + if Noisy(s, a) then 1 else 0
  {
  }

  lemma {:induction false} RunPays(s: State, actions: seq<Action>)
    requires Inv(s) && Exec(s, actions).pc != Panicked
    ensures var s' := Exec(s, actions); |s'.ready| + Due(s') <= |s.ready| + Due(s) + Noise(s, actions)
  {
    if actions == [] {
    } else {
      var n := |actions| - 1;
      PanicIsFinal(Exec(s, actions[..n]), actions[n]);
      ExecInv(s, actions[..n]);
      RunPays(s, actions[..n]);
      StepPays(Exec(s, actions[..n]), actions[n]);
    }
  }

  /**
   * The queue never holds more ids than there were tasks at the start plus noisy pushes, so a run that panics has
   * made more noisy pushes than the queue has room beside the tasks. `NoiseBoundIsMet` shows that the bound is reached.
   */
  lemma {:induction false} NoiseBoundsQueue(ids: seq<TaskId>, actions: seq<Action>)
    requires GoodStart(ids)
    ensures var s := Exec(Start(ids), actions);
      if s.pc == Panicked then |ids| + Noise(Start(ids), actions) > CAPACITY
      else |s.ready| + Due(s) <= |ids| + Noise(Start(ids), actions)
  {
    StartInv(ids);
    var s0 := Start(ids);
    if Exec(s0, actions).pc != Panicked {
      RunPays(s0, actions);
    } else {
      var n := |actions| - 1;
      var before := Exec(s0, actions[..n]);
      if before.pc == Panicked {
        NoiseBoundsQueue(ids, actions[..n]);
      } else {
        ExecInv(s0, actions[..n]);
        RunPays(s0, actions[..n]);
        OnlyFullQueuesPanic(before, actions[n]);
        assert Noisy(before, actions[n]) || Due(before) > 0;
      }
    }
  }

  lemma {:induction false} NoiseAppend(s: State, xs: seq<Action>, ys: seq<Action>)
    ensures Noise(s, xs + ys) == Noise(s, xs) + Noise(Exec(s, xs), ys)
    decreases |ys|
  {
    if ys == [] {
      assert xs + ys == xs;
    } else {
      var n := |ys| - 1;
      assert (xs + ys)[..|xs + ys| - 1] == xs + ys[..n];
      NoiseAppend(s, xs, ys[..n]);
      ExecAppend(s, xs, ys[..n]);
    }
  }

  lemma {:induction false} SilentActions(s: State, actions: seq<Action>)
    requires forall k :: 0 <= k < |actions| ==> !actions[k].KeyInterrupt? && !actions[k].WakeSelf?
    ensures Noise(s, actions) == 0
  {
    if actions == [] {
    } else {
      SilentActions(s, actions[..|actions| - 1]);
    }
  }

  lemma SpareRoundNoise(s: State, n: nat)
    requires Polls(s, n)
    ensures Noise(s, SpareRound()) == 1
  {
    var front := [KeyboardStep, KeyboardStep];
    var s2 := s.(waker := Some(KEYBOARD), pc := SecondPop);
    ExecTwo(s, KeyboardStep, KeyboardStep);
    assert Exec(s, front) == s2 && Noisy(s2, KeyInterrupt(0));
    SilentActions(s, front);
    assert (front + [KeyInterrupt(0)])[..2] == front;
    assert Noise(s, front + [KeyInterrupt(0)]) == 1;
    SilentActions(Exec(s, front + [KeyInterrupt(0)]), [KeyboardStep]);
    NoiseAppend(s, front + [KeyInterrupt(0)], [KeyboardStep]);
    assert SpareRound() == (front + [KeyInterrupt(0)]) + [KeyboardStep];
  }

  lemma {:induction false} SpareNoise(n: nat)
    requires n <= CAPACITY
    ensures Noise(Start([KEYBOARD]), SpareRounds(n)) == n
  {
    var s0 := Start([KEYBOARD]);
    if n == 0 {
      SilentActions(s0, SpareRounds(0));
    } else {
      SpareNoise(n - 1);
      SpareWakes(n - 1);
      SpareRoundNoise(Exec(s0, SpareRounds(n - 1)), n - 1);
      NoiseAppend(s0, SpareRounds(n - 1), SpareRound());
    }
  }

  /** The bound is met: after `n` rounds with a spare wake the queue holds `n` ids, and one more is due. */
  lemma NoiseBoundIsMet(n: nat)
    requires n <= CAPACITY
    ensures var s := Exec(Start([KEYBOARD]), SpareRounds(n));
      |s.ready| + Due(s) == |[KEYBOARD]| + Noise(Start([KEYBOARD]), SpareRounds(n))
  {
    SpareWakes(n);
    SpareNoise(n);
  }

  // ----- One entry per task -----

  /** Every task has at most one entry, and the keyboard task none while its waker is registered or it runs. */
  predicate OneEntryEach(s: State, ids: seq<TaskId>) {
    && s.pc != Panicked && NoDuplicates(s.ready)
    && (forall x :: x in s.ready ==> x in ids) && (forall x :: x in s.tasks ==> x in ids)
    && (s.waker.Some? || InKeyboard(s.pc) ==> KEYBOARD !in s.ready)
    && (s.pc.Polling? && !s.pc.woken ==> s.pc.id !in s.ready)
  }

  /** An id that is not queued can be pushed without overflow. */
  lemma PushFits(s: State, ids: seq<TaskId>, id: TaskId)
    requires |ids| <= CAPACITY && NoDuplicates(s.ready) && id in ids && id !in s.ready
    requires forall x :: x in s.ready ==> x in ids
    ensures Push(s, id) == s.(ready := s.ready + [id], pushed := s.pushed + [id])
    ensures NoDuplicates(s.ready + [id]) && forall x :: x in s.ready + [id] ==> x in ids
  {
    NoDuplicatesIsShorter(s.ready + [id], ids);
  }

  lemma QuietInterrupt(s: State, ids: seq<TaskId>, code: Scancode)
    requires |ids| <= CAPACITY && Inv(s) && OneEntryEach(s, ids) && s.pc != Checking && !Noisy(s, KeyInterrupt(code))
    ensures OneEntryEach(AddScancode(Resume(s), code), ids)
  {
    var r := Resume(s);
    if r.initialized && |r.scancodes| < CAPACITY && r.waker.Some? {
      PushFits(r.(scancodes := r.scancodes + [code], accepted := r.accepted + [code], waker := None), ids, KEYBOARD);
    }
  }

  lemma QuietPop(s: State, ids: seq<TaskId>)
    requires Inv(s) && OneEntryEach(s, ids)
    ensures OneEntryEach(Pop(s), ids)
  {
    if s.ready != [] {
      assert s.ready[0] !in s.ready[1..];
    }
  }

  lemma QuietStep(s: State, ids: seq<TaskId>, a: Action)
    requires |ids| <= CAPACITY && Inv(s) && OneEntryEach(s, ids) && !Noisy(s, a)
    ensures OneEntryEach(Step(s, a), ids)
  {
    match a
    case KeyInterrupt(code) =>
      if s.pc != Checking {
        QuietInterrupt(s, ids, code);
      }
    case WakeSelf =>
      if s.pc.Polling? {
        PushFits(s.(pc := Polling(s.pc.id, true)), ids, s.pc.id);
      }
    case PopTask =>
      QuietPop(s, ids);
    case _ =>
  }

  /** A noisy push puts an id into the queue that is there already, or that of the running keyboard task. */
  lemma NoisyStep(s: State, ids: seq<TaskId>, a: Action)
    requires Inv(s) && Noisy(s, a)
    ensures !OneEntryEach(Step(s, a), ids)
  {
    var s' := Step(s, a);
    if s'.pc != Panicked && a.WakeSelf? {
      var i :| 0 <= i < |s.ready| && s.ready[i] == s.pc.id;
      assert s'.ready[i] == s'.ready[|s.ready|];
    } else if s'.pc != Panicked {
      assert s'.ready[|s.ready|] == KEYBOARD;
    }
  }

  ghost predicate AlwaysOneEntry(s: State, ids: seq<TaskId>, actions: seq<Action>) {
    forall k :: 0 <= k <= |actions| ==> OneEntryEach(Exec(s, actions[..k]), ids)
  }

  lemma AlwaysSoFar(s: State, ids: seq<TaskId>, actions: seq<Action>)
    requires actions != []
    ensures AlwaysOneEntry(s, ids, actions) <==>
              AlwaysOneEntry(s, ids, actions[..|actions| - 1]) && OneEntryEach(Exec(s, actions), ids)
  {
    var n := |actions| - 1;
    assert forall k :: 0 <= k <= n ==> actions[..n][..k] == actions[..k];
    assert actions[..n + 1] == actions;
    if AlwaysOneEntry(s, ids, actions) {
      forall k | 0 <= k <= n ensures OneEntryEach(Exec(s, actions[..n][..k]), ids) {
        assert OneEntryEach(Exec(s, actions[..k]), ids);
      }
    }
    if AlwaysOneEntry(s, ids, actions[..n]) && OneEntryEach(Exec(s, actions), ids) {
      forall k | 0 <= k <= n + 1 ensures OneEntryEach(Exec(s, actions[..k]), ids) {
        assert k == n + 1 || OneEntryEach(Exec(s, actions[..n][..k]), ids);
      }
    }
  }

  lemma {:induction false} OneEntryRun(s: State, ids: seq<TaskId>, actions: seq<Action>)
    requires |ids| <= CAPACITY && Inv(s) && OneEntryEach(s, ids)
    ensures AlwaysOneEntry(s, ids, actions) <==> Noise(s, actions) == 0
    ensures Noise(s, actions) == 0 ==> OneEntryEach(Exec(s, actions), ids)
  {
    if actions == [] {
    } else {
      var n := |actions| - 1;
      OneEntryRun(s, ids, actions[..n]);
      AlwaysSoFar(s, ids, actions);
      if Noise(s, actions[..n]) == 0 {
        ExecInv(s, actions[..n]);
        if Noisy(Exec(s, actions[..n]), actions[n]) {
          NoisyStep(Exec(s, actions[..n]), ids, actions[n]);
        } else {
          QuietStep(Exec(s, actions[..n]), ids, actions[n]);
        }
      }
    }
  }

  /**
   * At every moment of a run each task is queued at most once, and the keyboard task not at all while it runs or
   * its waker is registered, exactly when the run makes no noisy push. Such a run never panics.
   */
  lemma OneEntryIffQuiet(ids: seq<TaskId>, actions: seq<Action>)
    requires GoodStart(ids)
    ensures AlwaysOneEntry(Start(ids), ids, actions) <==> Noise(Start(ids), actions) == 0
    ensures Noise(Start(ids), actions) == 0 ==>
      var s := Exec(Start(ids), actions); s.pc != Panicked && NoDuplicates(s.ready) && |s.ready| <= |ids|
  {
    StartInv(ids);
    OneEntryRun(Start(ids), ids, actions);
    if Noise(Start(ids), actions) == 0 {
      NoDuplicatesIsShorter(Exec(Start(ids), actions).ready, ids);
    }
  }
}
