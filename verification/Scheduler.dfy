/**
 The cooperative scheduler of sw/src/main.c. A task runs until it returns and
 may yield in between, which runs every other task that is not already running.
*/
module Scheduler {
  import opened Bytes

  /** `enum task_num`. */
  const USB := 0
  const TTY := 1
  const LED := 2
  const TOUCH := 3
  const CLI := 4
  const KEYBOARD := 5
  const VIDEO := 6
  const DISK := 7
  const TASKS := 8

  /** The task list, in order. */
  const LIST: seq<nat> := [TTY, USB, LED, KEYBOARD, VIDEO, DISK]

  // ---------------------------------------------------------------------
  //  The bit mask
  // ---------------------------------------------------------------------

  function Bit(n: nat): byte
    requires n < TASKS
  {
    if n == 0 then 1 else if n == 1 then 2 else if n == 2 then 4 else if n == 3 then 8
    else if n == 4 then 16 else if n == 5 then 32 else if n == 6 then 64 else 128
  }

  predicate Has(mask: byte, n: nat)
    requires n < TASKS
  {
    mask & Bit(n) != 0
  }

  function With(mask: byte, n: nat): byte
    requires n < TASKS
  {
    mask | Bit(n)
  }

  function Without(mask: byte, n: nat): byte
    requires n < TASKS
  {
    mask & !Bit(n)
  }

  /** Tasks at or above n whose bit is clear. */
  function Clear(mask: byte, n: nat): nat
    requires n <= TASKS
    decreases TASKS - n
  {
    if n == TASKS then 0 else (if Has(mask, n) then 0 else 1) + Clear(mask, n + 1)
  }

  lemma {:induction false} BitsAreApart(mask: byte, n: nat, m: nat)
    requires n < TASKS && m < TASKS
    ensures Has(With(mask, n), m) <==> m == n || Has(mask, m)
    ensures Has(Without(mask, n), m) <==> m != n && Has(mask, m)
  {
  }

  lemma SetThenClear(mask: byte, n: nat)
    requires n < TASKS && !Has(mask, n)
    ensures Without(With(mask, n), n) == mask
  {
  }

  lemma {:induction false} SettingClears(mask: byte, n: nat, m: nat)
    requires n < TASKS && m <= TASKS && !Has(mask, n)
    ensures Clear(mask, m) == Clear(With(mask, n), m) + if m <= n then 1 else 0
    decreases TASKS - m
  {
    hide Has, With;
    if m < TASKS {
      BitsAreApart(mask, n, m);
      SettingClears(mask, n, m + 1);
    }
  }

  // ---------------------------------------------------------------------
  //  What has been started
  // ---------------------------------------------------------------------

  /** A task, and the tasks on the call stack when it was started. */
  datatype Start = Start(task: nat, below: seq<nat>)

  predicate Distinct(s: seq<nat>) {
    forall i, j :: 0 <= i < j < |s| ==> s[i] != s[j]
  }

  /** Every start is on top of stack, of a task that is not running. */
  predicate Proper(log: seq<Start>, stack: seq<nat>) {
    forall i :: 0 <= i < |log| ==>
      stack <= log[i].below && Distinct(log[i].below) && log[i].task !in log[i].below
  }

  /** The tasks started straight on top of a stack of n. */
  function StartedAt(log: seq<Start>, n: nat): seq<nat> {
    if log == [] then []
    else StartedAt(log[..|log| - 1], n) + (if |log[|log| - 1].below| == n then [log[|log| - 1].task] else [])
  }

  lemma {:induction false} StartedJoins(a: seq<Start>, b: seq<Start>, n: nat)
    ensures StartedAt(a + b, n) == StartedAt(a, n) + StartedAt(b, n)
    decreases |b|
  {
    if b == [] {
      assert a + b == a;
    } else {
      StartedJoins(a, b[..|b| - 1], n);
      assert (a + b)[..|a + b| - 1] == a + b[..|b| - 1];
    }
  }

  lemma {:induction false} NoneSoLow(log: seq<Start>, stack: seq<nat>, n: nat)
    requires Proper(log, stack) && n < |stack|
    ensures StartedAt(log, n) == []
  {
    if log != [] {
      assert stack <= log[|log| - 1].below;
      NoneSoLow(log[..|log| - 1], stack, n);
    }
  }

  /** The tasks of a list that are not running. */
  function Idle(mask: byte, list: seq<nat>): seq<nat>
    requires forall i :: 0 <= i < |list| ==> list[i] < TASKS
  {
    if list == [] then []
    else Idle(mask, list[..|list| - 1]) + (if Has(mask, list[|list| - 1]) then [] else [list[|list| - 1]])
  }

  /** The mask is the set of the tasks on the stack, each there once. */
  predicate Agree(mask: byte, stack: seq<nat>) {
    && Distinct(stack)
    && (forall i :: 0 <= i < |stack| ==> stack[i] < TASKS)
    && (forall n :: 0 <= n < TASKS ==> (Has(mask, n) <==> n in stack))
    && |stack| + Clear(mask, 0) == TASKS
  }

  lemma {:induction false} TaskEnters(mask: byte, stack: seq<nat>, task: nat)
    requires Agree(mask, stack) && task < TASKS && !Has(mask, task)
    ensures Agree(With(mask, task), stack + [task]) && Clear(With(mask, task), 0) < Clear(mask, 0)
    ensures Distinct(stack) && task !in stack
    ensures Without(With(mask, task), task) == mask
  {
    hide Has, With, Without, Clear;
    SettingClears(mask, task, 0);
    SetThenClear(mask, task);
    forall n | 0 <= n < TASKS
      ensures Has(With(mask, task), n) <==> n == task || Has(mask, n)
    {
      BitsAreApart(mask, task, n);
    }
  }

  lemma {:induction false} TaskLeaves(task: nat, below: seq<nat>, more: seq<Start>)
    requires Distinct(below) && task !in below && Proper(more, below + [task])
    ensures Proper([Start(task, below)] + more, below)
    ensures StartedAt([Start(task, below)] + more, |below|) == [task]
  {
    var first := Start(task, below);
    NoneSoLow(more, below + [task], |below|);
    StartedJoins([first], more, |below|);
    assert [first][..0] == [];
    assert StartedAt([first], |below|) == [task];
    assert [task] + [] == [task];
    forall i | 0 <= i < |more|
      ensures below <= more[i].below
    {
      assert below <= below + [task] <= more[i].below;
    }
  }

  lemma {:induction false} ProperJoins(a: seq<Start>, b: seq<Start>, stack: seq<nat>)
    requires Proper(a, stack) && Proper(b, stack)
    ensures Proper(a + b, stack)
  {
  }

  lemma NothingStarted(stack: seq<nat>)
    ensures Proper([], stack) && StartedAt([], |stack|) == []
  {
  }

  lemma {:induction false} IdleOn(mask: byte, list: seq<nat>, k: nat)
    requires k < |list| && forall i :: 0 <= i < |list| ==> list[i] < TASKS
    ensures Idle(mask, list[..k + 1]) == Idle(mask, list[..k]) + (if Has(mask, list[k]) then [] else [list[k]])
  {
    hide Has;
    assert list[..k + 1][..k] == list[..k];
  }

  class OperatingSystem {
    /** `active_tasks`. */
    var active: byte
    /** How often the k-th task to be started yields. */
    const plan: nat -> nat
    var started: nat
    ghost var stack: seq<nat>

    ghost predicate Valid()
      reads this
    {
      Agree(active, stack)
    }

    constructor (plan: nat -> nat)
      ensures Valid() && active == 0 && stack == [] && this.plan == plan
    {
      this.plan := plan;
      active, started, stack := 0, 0, [];
    }

    /** A task that is running is not started again. The log is of this task
        and all it leads to. */
    method RunTask(task: nat) returns (ghost log: seq<Start>)
      requires Valid() && task < TASKS
      modifies this
      ensures Valid() && active == old(active) && stack == old(stack)
      ensures Proper(log, stack)
      ensures StartedAt(log, |stack|) == if Has(active, task) then [] else [task]
      decreases Clear(active, 0), 0
    {
      hide Has, With, Without, Clear, Agree, Proper, Distinct, StartedAt;
      log := [];
      NothingStarted(stack);
      if !Has(active, task) {
        ghost var mask, below := active, stack;
        TaskEnters(mask, below, task);
        active := With(active, task);
        stack := stack + [task];
        ghost var more := Task();
        active := Without(active, task);
        stack := below;
        TaskLeaves(task, below, more);
        log := [Start(task, below)] + more;
      }
    }

    /** The body of a task: whatever it does, it yields a number of times. */
    method Task() returns (ghost log: seq<Start>)
      requires Valid()
      modifies this
      ensures Valid() && active == old(active) && stack == old(stack)
      ensures Proper(log, stack)
      decreases Clear(active, 0), 3
    {
      hide Agree, Proper, Clear;
      log := [];
      NothingStarted(stack);
      var times := plan(started);
      started := started + 1;
      var k := 0;
      while k < times
        invariant Valid() && active == old(active) && stack == old(stack)
        invariant Proper(log, stack)
      {
        ghost var more := Yield();
        ProperJoins(log, more, stack);
        log := log + more;
        k := k + 1;
      }
    }

    /** Yielding starts every task that is not running, in the order of the
        list, and changes nothing for the one that yields. */
    method Yield() returns (ghost log: seq<Start>)
      requires Valid()
      modifies this
      ensures Valid() && active == old(active) && stack == old(stack)
      ensures Proper(log, stack)
      ensures StartedAt(log, |stack|) == Idle(active, LIST)
      decreases Clear(active, 0), 2
    {
      log := RunTaskList();
    }

    method RunTaskList() returns (ghost log: seq<Start>)
      requires Valid()
      modifies this
      ensures Valid() && active == old(active) && stack == old(stack)
      ensures Proper(log, stack)
      ensures StartedAt(log, |stack|) == Idle(active, LIST)
      decreases Clear(active, 0), 1
    {
      hide Has, Clear, Agree, Proper, StartedAt, Idle;
      log := [];
      NothingStarted(stack);
      NothingIdle(active);
      var k := 0;
      while k < |LIST|
        invariant 0 <= k <= |LIST|
        invariant Valid() && active == old(active) && stack == old(stack)
        invariant Proper(log, stack) && StartedAt(log, |stack|) == Idle(active, LIST[..k])
      {
        ghost var more := RunTask(LIST[k]);
        StartedJoins(log, more, |stack|);
        ProperJoins(log, more, stack);
        IdleOn(active, LIST, k);
        log := log + more;
        k := k + 1;
      }
      assert LIST[..k] == LIST;
    }
  }

  lemma {:induction false} IdleIsExact(mask: byte, list: seq<nat>, t: nat)
    requires (forall i :: 0 <= i < |list| ==> list[i] < TASKS) && Distinct(list) && t < TASKS
    ensures t in Idle(mask, list) <==> t in list && !Has(mask, t)
    ensures Distinct(Idle(mask, list))
    ensures forall i :: 0 <= i < |Idle(mask, list)| ==> Idle(mask, list)[i] in list
    decreases |list|
  {
    hide Has;
    if list != [] {
      var init, last := list[..|list| - 1], list[|list| - 1];
      assert list == init + [last];
      IdleIsExact(mask, init, t);
    }
  }

  /** With `Yield`: every task but touch and command line is started exactly
      once by a yield, if its bit is clear, and these two never. */
  lemma {:induction false} EachTaskOnce(mask: byte, t: nat)
    requires t < TASKS
    ensures t in Idle(mask, LIST) <==> t != 3 && t != 4 && !Has(mask, t)
    ensures Distinct(Idle(mask, LIST))
  {
    IdleIsExact(mask, LIST, t);
    assert LIST == [1, 0, 2, 5, 6, 7];
  }

  lemma NothingIdle(mask: byte)
    ensures Idle(mask, LIST[..0]) == []
  {
  }
}
