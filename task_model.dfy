/**
 * The meaning of one tick of the task executor (TaskExcutor.Update), as pure
 * functions over values: drain the pending adds, walk the live tasks under the
 * execute budget, drop the tasks seen in Done.  The class in TaskExecution is
 * proved to do exactly what Tick says; the lemmas here say what Tick means.
 */
module TaskModel {

  datatype TaskState = Free | WaitOther | Executing | Done

  /** One target of a task's Completed delegate; a multicast delegate is a sequence of them. */
  type Callback = nat

  datatype Task = Task(name: string, state: TaskState, completed: seq<Callback>)

  /** The two lifecycle hooks of a task, and one invocation of a hook. */
  datatype Hook = Execute | Update
  datatype Call = Call(task: string, hook: Hook)

  /**
   * What the hooks of the tasks do this tick: each gives the state the task is in
   * after the hook ran.  A hook changes nothing but that task's state.
   */
  datatype Hooks = Hooks(execute: Task -> TaskState, update: Task -> TaskState)

  /** The live tasks by name, and the order in which enumerating the dictionary meets them. */
  datatype Registry = Registry(tasks: map<string, Task>, order: seq<string>)

  predicate Distinct(s: seq<string>) {
    forall i, j :: 0 <= i < j < |s| ==> s[i] != s[j]
  }

  /** One task per name, each live name enumerated exactly once, each task filed under its own name. */
  ghost predicate WellFormed(r: Registry) {
    && (forall n :: n in r.tasks <==> n in r.order)
    && Distinct(r.order)
    && (forall n :: n in r.tasks ==> r.tasks[n].name == n)
  }

  // ---------------------------------------------------------------------------
  // Phase 1: draining the pending adds

  /** InternalAddTask: a new name is inserted; a live name only gains the newcomer's callbacks. */
  function AddOne(r: Registry, t: Task): Registry {
    if t.name in r.tasks then
      var live := r.tasks[t.name];
      Registry(r.tasks[t.name := live.(completed := live.completed + t.completed)], r.order)
    else
      Registry(r.tasks[t.name := t], r.order + [t.name])
  }

  /** The registry after the pending tasks were added one after the other. */
  function Drain(r: Registry, pending: seq<Task>): Registry
    decreases |pending|
  {
    if pending == [] then r
    else AddOne(Drain(r, pending[..|pending| - 1]), pending[|pending| - 1])
  }

  function PendingNames(pending: seq<Task>): set<string>
    decreases |pending|
  {
    if pending == [] then {}
    else PendingNames(pending[..|pending| - 1]) + {pending[|pending| - 1].name}
  }

  /** The callbacks of all pending tasks called `name`, in submission order. */
  function CallbacksFor(pending: seq<Task>, name: string): seq<Callback>
    decreases |pending|
  {
    if pending == [] then []
    else
      var last := pending[|pending| - 1];
      CallbacksFor(pending[..|pending| - 1], name) + (if last.name == name then last.completed else [])
  }

  /** The first pending task called `name`. */
  function FirstNamed(pending: seq<Task>, name: string): Task
    requires name in PendingNames(pending)
    decreases |pending|
  {
    var init := pending[..|pending| - 1];
    if name in PendingNames(init) then FirstNamed(init, name) else pending[|pending| - 1]
  }

  /** The pending names not in `known`, each once, in order of first submission. */
  function NewNames(known: set<string>, pending: seq<Task>): seq<string>
    decreases |pending|
  {
    if pending == [] then []
    else
      var init := pending[..|pending| - 1];
      var name := pending[|pending| - 1].name;
      var earlier := NewNames(known, init);
      if name in known || name in PendingNames(init) then earlier else earlier + [name]
  }

  lemma {:induction false} CallbacksForAbsent(pending: seq<Task>, name: string)
    requires name !in PendingNames(pending)
    ensures CallbacksFor(pending, name) == []
    decreases |pending|
  {
    if pending != [] {
      CallbacksForAbsent(pending[..|pending| - 1], name);
    }
  }

  /** Draining makes live exactly the names that were live or pending. */
  lemma {:induction false} DrainKeys(r: Registry, pending: seq<Task>)
    ensures Drain(r, pending).tasks.Keys == r.tasks.Keys + PendingNames(pending)
    decreases |pending|
  {
    if pending != [] {
      DrainKeys(r, pending[..|pending| - 1]);
    }
  }

  /** New names are enumerated after the old ones, each once, in order of first submission. */
  lemma {:induction false} DrainOrder(r: Registry, pending: seq<Task>)
    ensures Drain(r, pending).order == r.order + NewNames(r.tasks.Keys, pending)
    decreases |pending|
  {
    if pending != [] {
      var init := pending[..|pending| - 1];
      DrainOrder(r, init);
      DrainKeys(r, init);
    }
  }

  /**
   * A name that was live keeps its task and gains every pending callback for it; a
   * new name gets its FIRST pending task, with the callbacks of all later duplicates
   * appended.  No other pending task object is ever inserted.
   */
  lemma {:induction false} DrainMerges(r: Registry, pending: seq<Task>)
    ensures forall n :: n in r.tasks ==>
      n in Drain(r, pending).tasks &&
      Drain(r, pending).tasks[n] == r.tasks[n].(completed := r.tasks[n].completed + CallbacksFor(pending, n))
    ensures forall n :: n in PendingNames(pending) && n !in r.tasks ==>
      n in Drain(r, pending).tasks &&
      Drain(r, pending).tasks[n] == FirstNamed(pending, n).(completed := CallbacksFor(pending, n))
    decreases |pending|
  {
    if pending == [] {
      forall n | n in r.tasks
        ensures r.tasks[n] == r.tasks[n].(completed := r.tasks[n].completed + CallbacksFor(pending, n))
      {
        assert r.tasks[n].completed + [] == r.tasks[n].completed;
      }
    } else {
      var init := pending[..|pending| - 1];
      var t := pending[|pending| - 1];
      var d := Drain(r, init);
      DrainMerges(r, init);
      DrainKeys(r, init);
      assert Drain(r, pending) == AddOne(d, t);
      forall n | n in r.tasks
        ensures n in Drain(r, pending).tasks
        ensures Drain(r, pending).tasks[n] == r.tasks[n].(completed := r.tasks[n].completed + CallbacksFor(pending, n))
      {
        var before := r.tasks[n].completed + CallbacksFor(init, n);
        assert d.tasks[n] == r.tasks[n].(completed := before);
        if n == t.name {
          assert CallbacksFor(pending, n) == CallbacksFor(init, n) + t.completed;
          assert before + t.completed == r.tasks[n].completed + CallbacksFor(pending, n);
        } else {
          assert CallbacksFor(pending, n) == CallbacksFor(init, n) + [];
        }
      }
      forall n | n in PendingNames(pending) && n !in r.tasks
        ensures n in Drain(r, pending).tasks
        ensures Drain(r, pending).tasks[n] == FirstNamed(pending, n).(completed := CallbacksFor(pending, n))
      {
        if n == t.name && n !in PendingNames(init) {
          CallbacksForAbsent(init, n);
          assert CallbacksFor(pending, n) == [] + t.completed;
          assert FirstNamed(pending, n) == t;
        } else if n == t.name {
          var first := FirstNamed(init, n);
          assert d.tasks[n] == first.(completed := CallbacksFor(init, n));
          assert CallbacksFor(pending, n) == CallbacksFor(init, n) + t.completed;
        } else {
          assert n in PendingNames(init);
          assert CallbacksFor(pending, n) == CallbacksFor(init, n) + [];
        }
      }
    }
  }

  /** Two tasks submitted under one new name before a tick leave one live task holding both callbacks. */
  lemma DuplicateAddsMerge(r: Registry, first: Task, second: Task)
    requires first.name == second.name && first.name !in r.tasks
    ensures Drain(r, [first, second]).tasks == r.tasks[first.name := first.(completed := first.completed + second.completed)]
    ensures Drain(r, [first, second]).order == r.order + [first.name]
  {
    var n := first.name;
    assert [first, second][..1] == [first];
    assert [first][..0] == [];
    assert Drain(r, [first]) == AddOne(r, first);
    var one := Registry(r.tasks[n := first], r.order + [n]);
    assert AddOne(r, first) == one;
    assert Drain(r, [first, second]) == AddOne(one, second);
  }

  lemma AddOnePreservesWellFormed(r: Registry, t: Task)
    requires WellFormed(r)
    ensures WellFormed(AddOne(r, t))
  {
    if t.name !in r.tasks {
      var o := r.order + [t.name];
      forall i, j | 0 <= i < j < |o| ensures o[i] != o[j] {
        if j == |o| - 1 {
          assert o[i] == r.order[i];
        }
      }
    }
  }

  lemma {:induction false} DrainPreservesWellFormed(r: Registry, pending: seq<Task>)
    requires WellFormed(r)
    ensures WellFormed(Drain(r, pending))
    decreases |pending|
  {
    if pending != [] {
      DrainPreservesWellFormed(r, pending[..|pending| - 1]);
      AddOnePreservesWellFormed(Drain(r, pending[..|pending| - 1]), pending[|pending| - 1]);
    }
  }

  // ---------------------------------------------------------------------------
  // Phase 2: the budgeted walk

  /** Free and Executing tasks use up the execute budget; WaitOther and Done tasks do not. */
  predicate Counted(s: TaskState) {
    s == Free || s == Executing
  }

  /** The execute count after visiting `names`: how many of them were Free or Executing. */
  function Executed(tasks: map<string, Task>, names: seq<string>): nat
    decreases |names|
  {
    if names == [] then 0
    else
      var n := names[|names| - 1];
      Executed(tasks, names[..|names| - 1]) + (if n in tasks && Counted(tasks[n].state) then 1 else 0)
  }

  /** How many tasks the walk visits: it stops at the first position whose count already reaches `max`. */
  function StopFrom(tasks: map<string, Task>, order: seq<string>, max: int, k: nat): (stop: nat)
    requires k <= |order|
    ensures k <= stop <= |order|
    ensures stop == |order| || Executed(tasks, order[..stop]) >= max
    ensures forall j :: k <= j < stop ==> Executed(tasks, order[..j]) < max
    decreases |order| - k
  {
    if k == |order| || Executed(tasks, order[..k]) >= max then k
    else StopFrom(tasks, order, max, k + 1)
  }

  function Stop(tasks: map<string, Task>, order: seq<string>, max: int): nat {
    StopFrom(tasks, order, max, 0)
  }

  /** A visit that finds the count still under budget is not the walk's last. */
  lemma StopBeyond(tasks: map<string, Task>, order: seq<string>, max: int, i: nat)
    requires i < |order| && i <= Stop(tasks, order, max)
    requires Executed(tasks, order[..i]) < max
    ensures i < Stop(tasks, order, max)
  {
  }

  /** One more visited name: how each walk summary grows. */
  lemma WalkStep(tasks: map<string, Task>, names: seq<string>, n: string, h: Hooks)
    requires n in tasks
    ensures var next := names + [n];
      && Executed(tasks, next) == Executed(tasks, names) + (if Counted(tasks[n].state) then 1 else 0)
      && StepAll(tasks, next, h) == StepAll(tasks, names, h)[n := Step(tasks[n], h)]
      && DoneNames(tasks, next) == DoneNames(tasks, names) + (if tasks[n].state == Done then [tasks[n].name] else [])
      && CallsOf(tasks, next) == CallsOf(tasks, names) + HookCalls(tasks[n])
  {
    assert (names + [n])[..|names|] == names;
  }

  /** Visiting the i-th name of a walk with distinct names: that task is still as it was, and each summary grows by one step. */
  lemma WalkVisit(tasks: map<string, Task>, order: seq<string>, i: nat, h: Hooks)
    requires Distinct(order) && i < |order| && order[i] in tasks
    ensures var n, prefix := order[i], order[..i];
      && order[..i + 1] == prefix + [n]
      && n in StepAll(tasks, prefix, h) && StepAll(tasks, prefix, h)[n] == tasks[n]
      && Executed(tasks, order[..i + 1]) == Executed(tasks, prefix) + (if Counted(tasks[n].state) then 1 else 0)
      && StepAll(tasks, order[..i + 1], h) == StepAll(tasks, prefix, h)[n := Step(tasks[n], h)]
      && DoneNames(tasks, order[..i + 1]) == DoneNames(tasks, prefix) + (if tasks[n].state == Done then [tasks[n].name] else [])
      && CallsOf(tasks, order[..i + 1]) == CallsOf(tasks, prefix) + HookCalls(tasks[n])
  {
    var n, prefix := order[i], order[..i];
    assert order[..i + 1] == prefix + [n];
    assert n !in prefix;
    StepAllFrame(tasks, prefix, h);
    WalkStep(tasks, prefix, n, h);
  }

  /** The budget a tick can spend: MaxExcuteCount, or nothing when that is not positive. */
  function Budget(max: int): nat {
    if max > 0 then max else 0
  }

  /** The hooks one visit runs: Free starts and then updates, Executing and WaitOther update, Done runs nothing. */
  function Step(t: Task, h: Hooks): (t': Task)
    ensures t'.name == t.name && t'.completed == t.completed
    ensures t.state == Done ==> t' == t
  {
    match t.state
    case Free =>
      var started := t.(state := h.execute(t));
      started.(state := h.update(started))
    case Executing => t.(state := h.update(t))
    case WaitOther => t.(state := h.update(t))
    case Done => t
  }

  function HookCalls(t: Task): seq<Call> {
    match t.state
    case Free => [Call(t.name, Execute), Call(t.name, Update)]
    case Executing => [Call(t.name, Update)]
    case WaitOther => [Call(t.name, Update)]
    case Done => []
  }

  /** The live tasks after the ones named in `names` were visited once each. */
  function StepAll(tasks: map<string, Task>, names: seq<string>, h: Hooks): map<string, Task>
    decreases |names|
  {
    if names == [] then tasks
    else
      var n := names[|names| - 1];
      var stepped := StepAll(tasks, names[..|names| - 1], h);
      if n in tasks then stepped[n := Step(tasks[n], h)] else stepped
  }

  /** The names the walk queues for removal: those of the visited tasks found in Done. */
  function DoneNames(tasks: map<string, Task>, names: seq<string>): seq<string>
    decreases |names|
  {
    if names == [] then []
    else
      var n := names[|names| - 1];
      DoneNames(tasks, names[..|names| - 1]) + (if n in tasks && tasks[n].state == Done then [tasks[n].name] else [])
  }

  /** Every hook invocation of the walk, in order. */
  function CallsOf(tasks: map<string, Task>, names: seq<string>): seq<Call>
    decreases |names|
  {
    if names == [] then []
    else
      var n := names[|names| - 1];
      CallsOf(tasks, names[..|names| - 1]) + (if n in tasks then HookCalls(tasks[n]) else [])
  }

  function CallsNamed(calls: seq<Call>, name: string): seq<Call>
    decreases |calls|
  {
    if calls == [] then []
    else
      var c := calls[|calls| - 1];
      CallsNamed(calls[..|calls| - 1], name) + (if c.task == name then [c] else [])
  }

  // ---------------------------------------------------------------------------
  // Phase 3: removal

  function ElemSet(s: seq<string>): set<string> {
    set x | x in s
  }

  /** `s` without the names in `drop`, order kept: the enumeration after Dictionary.Remove. */
  function FilterOut(s: seq<string>, drop: set<string>): seq<string>
    decreases |s|
  {
    if s == [] then []
    else FilterOut(s[..|s| - 1], drop) + (if s[|s| - 1] in drop then [] else [s[|s| - 1]])
  }

  // ---------------------------------------------------------------------------
  // One tick

  datatype TickResult = TickResult(registry: Registry, calls: seq<Call>)

  /** The names the walk of a tick visits, in order. */
  function Visited(d: Registry, max: int): seq<string> {
    d.order[..Stop(d.tasks, d.order, max)]
  }

  /** One call of Update: the registry afterwards and the hooks it ran. */
  function Tick(r: Registry, pending: seq<Task>, max: int, h: Hooks): TickResult {
    var d := Drain(r, pending);
    var visited := Visited(d, max);
    var removed := ElemSet(DoneNames(d.tasks, visited));
    TickResult(Registry(StepAll(d.tasks, visited, h) - removed, FilterOut(d.order, removed)), CallsOf(d.tasks, visited))
  }

  // ---------------------------------------------------------------------------
  // Facts about the phases

  lemma {:induction false} StepAllFrame(tasks: map<string, Task>, names: seq<string>, h: Hooks)
    ensures StepAll(tasks, names, h).Keys == tasks.Keys
    ensures forall n :: n in tasks ==>
      StepAll(tasks, names, h)[n] == if n in names then Step(tasks[n], h) else tasks[n]
    decreases |names|
  {
    if names != [] {
      var init := names[..|names| - 1];
      StepAllFrame(tasks, init, h);
      forall n | n in tasks
        ensures StepAll(tasks, names, h)[n] == if n in names then Step(tasks[n], h) else tasks[n]
      {
        assert n in names <==> n in init || n == names[|names| - 1];
      }
    }
  }

  lemma {:induction false} DoneNamesMembership(tasks: map<string, Task>, names: seq<string>)
    requires forall n :: n in tasks ==> tasks[n].name == n
    ensures forall n :: n in DoneNames(tasks, names) <==> n in names && n in tasks && tasks[n].state == Done
    decreases |names|
  {
    if names != [] {
      var init := names[..|names| - 1];
      DoneNamesMembership(tasks, init);
      assert forall n :: n in names <==> n in init || n == names[|names| - 1];
    }
  }

  lemma {:induction false} FilterOutMembership(s: seq<string>, drop: set<string>)
    ensures forall x :: x in FilterOut(s, drop) <==> x in s && x !in drop
    ensures Distinct(s) ==> Distinct(FilterOut(s, drop))
    decreases |s|
  {
    if s != [] {
      var init := s[..|s| - 1];
      var x := s[|s| - 1];
      FilterOutMembership(init, drop);
      assert forall y :: y in s <==> y in init || y == x;
      if Distinct(s) {
        assert Distinct(init);
        assert x !in init;
        var f := FilterOut(init, drop);
        var g := FilterOut(s, drop);
        forall i, j | 0 <= i < j < |g| ensures g[i] != g[j] {
          if j == |f| {
            assert g[i] == f[i];
            assert f[i] in f;
          } else {
            assert g[i] == f[i] && g[j] == f[j];
          }
        }
      }
    }
  }

  /** Dropping names that do not occur changes nothing. */
  lemma {:induction false} FilterOutNothing(s: seq<string>, drop: set<string>)
    requires forall x :: x in drop ==> x !in s
    ensures FilterOut(s, drop) == s
    decreases |s|
  {
    if s != [] {
      FilterOutNothing(s[..|s| - 1], drop);
    }
  }

  lemma {:induction false} FilterOutTwice(s: seq<string>, a: set<string>, b: set<string>)
    ensures FilterOut(FilterOut(s, a), b) == FilterOut(s, a + b)
    decreases |s|
  {
    if s != [] {
      var init := s[..|s| - 1];
      var x := s[|s| - 1];
      FilterOutTwice(init, a, b);
      var f := FilterOut(init, a);
      if x !in a {
        assert FilterOut(s, a) == f + [x];
        assert (f + [x])[..|f|] == f;
      } else {
        assert FilterOut(s, a) == f;
      }
    }
  }

  lemma {:induction false} CallsNamedConcat(a: seq<Call>, b: seq<Call>, name: string)
    ensures CallsNamed(a + b, name) == CallsNamed(a, name) + CallsNamed(b, name)
    decreases |b|
  {
    if b == [] {
      assert a + b == a;
    } else {
      var init := b[..|b| - 1];
      assert (a + b)[..|a + b| - 1] == a + init;
      CallsNamedConcat(a, init, name);
    }
  }

  lemma HookCallsNamed(t: Task, name: string)
    ensures CallsNamed(HookCalls(t), name) == if t.name == name then HookCalls(t) else []
  {
    var hc := HookCalls(t);
    if |hc| == 2 {
      assert hc[..1] == [hc[0]];
      assert [hc[0]][..0] == [];
      assert CallsNamed([hc[0]], name) == if t.name == name then [hc[0]] else [];
    } else if |hc| == 1 {
      assert hc[..0] == [];
    }
  }

  /** Across a walk, the hooks run on a task are exactly the ones its state calls for, or none if not visited. */
  lemma {:induction false} CallsOfNamed(tasks: map<string, Task>, names: seq<string>, name: string)
    requires Distinct(names)
    requires forall n :: n in tasks ==> tasks[n].name == n
    ensures CallsNamed(CallsOf(tasks, names), name) ==
      if name in names && name in tasks then HookCalls(tasks[name]) else []
    decreases |names|
  {
    if names != [] {
      var init := names[..|names| - 1];
      var n := names[|names| - 1];
      assert Distinct(init);
      assert n !in init;
      CallsOfNamed(tasks, init, name);
      var last := if n in tasks then HookCalls(tasks[n]) else [];
      CallsNamedConcat(CallsOf(tasks, init), last, name);
      if n in tasks {
        HookCallsNamed(tasks[n], name);
      }
      assert name in names <==> name in init || name == n;
    }
  }

  /** The walk never spends more than the budget, and it stops early only once the budget is spent. */
  lemma TickBudget(r: Registry, pending: seq<Task>, max: int)
    ensures Executed(Drain(r, pending).tasks, Visited(Drain(r, pending), max)) <= Budget(max)
    ensures |Visited(Drain(r, pending), max)| < |Drain(r, pending).order| ==>
      Executed(Drain(r, pending).tasks, Visited(Drain(r, pending), max)) == Budget(max)
  {
    var d := Drain(r, pending);
    var stop := Stop(d.tasks, d.order, max);
    assert d.order[..0] == [];
    if max <= 0 {
      assert stop == 0;
    } else if stop > 0 {
      var before := d.order[..stop - 1];
      assert d.order[..stop][..stop - 1] == before;
      assert Executed(d.tasks, before) < max;
    }
  }

  lemma TickPreservesWellFormed(r: Registry, pending: seq<Task>, max: int, h: Hooks)
    requires WellFormed(r)
    ensures WellFormed(Tick(r, pending, max, h).registry)
  {
    var d := Drain(r, pending);
    DrainPreservesWellFormed(r, pending);
    var visited := Visited(d, max);
    var removed := ElemSet(DoneNames(d.tasks, visited));
    StepAllFrame(d.tasks, visited, h);
    FilterOutMembership(d.order, removed);
  }

  /**
   * What a tick does to the live tasks: after the drain, every task survives except
   * the visited ones that were found in Done; a surviving task was stepped once if
   * it was visited and is unchanged otherwise; the enumeration keeps its order.
   */
  lemma TickOutcome(r: Registry, pending: seq<Task>, max: int, h: Hooks)
    requires WellFormed(r)
    ensures var d := Drain(r, pending);
      var visited := Visited(d, max);
      var after := Tick(r, pending, max, h).registry;
      && (forall n :: n in after.tasks <==> n in d.tasks && !(n in visited && d.tasks[n].state == Done))
      && (forall n :: n in after.tasks ==>
            after.tasks[n] == if n in visited then Step(d.tasks[n], h) else d.tasks[n])
      && after.order == FilterOut(d.order, ElemSet(DoneNames(d.tasks, visited)))
  {
    var d := Drain(r, pending);
    DrainPreservesWellFormed(r, pending);
    var visited := Visited(d, max);
    StepAllFrame(d.tasks, visited, h);
    DoneNamesMembership(d.tasks, visited);
  }

  /** Tasks after the point where the budget ran out, Done ones included, are untouched and stay. */
  lemma TickLeavesRestUntouched(r: Registry, pending: seq<Task>, max: int, h: Hooks)
    requires WellFormed(r)
    ensures var d := Drain(r, pending);
      var after := Tick(r, pending, max, h).registry;
      forall j :: |Visited(d, max)| <= j < |d.order| ==>
        d.order[j] in d.tasks && d.order[j] in after.tasks && after.tasks[d.order[j]] == d.tasks[d.order[j]]
  {
    var d := Drain(r, pending);
    DrainPreservesWellFormed(r, pending);
    var visited := Visited(d, max);
    TickOutcome(r, pending, max, h);
    forall j | |visited| <= j < |d.order| ensures d.order[j] !in visited {
      forall i | 0 <= i < |visited| ensures visited[i] != d.order[j] {
        assert visited[i] == d.order[i];
      }
    }
  }

  /** The hooks a tick runs on a task: exactly what its state calls for if it was visited, none otherwise. */
  lemma TickCalls(r: Registry, pending: seq<Task>, max: int, h: Hooks, name: string)
    requires WellFormed(r)
    ensures var d := Drain(r, pending);
      var visited := Visited(d, max);
      CallsNamed(Tick(r, pending, max, h).calls, name) ==
        if name in visited && name in d.tasks then HookCalls(d.tasks[name]) else []
  {
    var d := Drain(r, pending);
    DrainPreservesWellFormed(r, pending);
    var visited := Visited(d, max);
    assert Distinct(visited) by {
      forall i, j | 0 <= i < j < |visited| ensures visited[i] != visited[j] {
        assert visited[i] == d.order[i] && visited[j] == d.order[j];
      }
    }
    CallsOfNamed(d.tasks, visited, name);
  }
}
