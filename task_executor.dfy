/**
 * The task executor: a dictionary of live tasks by name, a list of tasks waiting
 * to be added and a list of names waiting to be removed, advanced once per frame
 * by Update.  Every method is proved against the tick specification in TaskModel.
 */
module TaskExecution {
  import opened TaskModel

  /** What GetTaskState yields: the state, or the KeyNotFoundException of the dictionary indexer. */
  datatype Lookup = Found(state: TaskState) | KeyNotFound

  class TaskExcutor {
    /** Task name to task. */
    var taskDict: map<string, Task>
    /** The order in which enumerating taskDict meets its keys. */
    var order: seq<string>
    /** Names queued for removal during a tick; empty between ticks. */
    var needRemoveTasks: seq<string>
    /** Tasks submitted since the last tick. */
    var needAddTasks: seq<Task>
    /** How many Free or Executing tasks one tick may advance. */
    var MaxExcuteCount: int

    ghost predicate Valid()
      reads this
    {
      WellFormed(Registry(taskDict, order)) && needRemoveTasks == []
    }

    function Live(): Registry
      reads this
    {
      Registry(taskDict, order)
    }

    constructor ()
      ensures Valid()
      ensures taskDict == map[] && order == [] && needAddTasks == []
      ensures MaxExcuteCount == 10
    {
      taskDict := map[];
      order := [];
      needRemoveTasks := [];
      needAddTasks := [];
      MaxExcuteCount := 10;
    }

    /** A name is live exactly when it is in the current enumeration order. */
    function HasTask(name: string): (has: bool)
      reads this
      requires Valid()
      ensures has <==> name in order
    {
      name in taskDict
    }

    /** The state of the live task with this name; a name that is not live raises KeyNotFoundException. */
    function GetTaskState(name: string): (r: Lookup)
      reads this
      requires Valid()
      ensures r.KeyNotFound? <==> !HasTask(name)
      ensures r.Found? ==> exists t :: t in taskDict.Values && t.name == name && t.state == r.state
    {
      if name in taskDict then Found(taskDict[name].state) else KeyNotFound
    }

    /** Adds callbacks to a live task; for a name that is not live it only logs and changes nothing. */
    method AppendTaskCompleted(name: string, completed: seq<Callback>)
      requires Valid()
      modifies this
      ensures Valid()
      ensures name !in old(taskDict) ==> taskDict == old(taskDict)
      ensures name in old(taskDict) ==>
        taskDict == old(taskDict)[name := old(taskDict)[name].(completed := old(taskDict)[name].completed + completed)]
      ensures order == old(order) && needAddTasks == old(needAddTasks)
      ensures needRemoveTasks == old(needRemoveTasks) && MaxExcuteCount == old(MaxExcuteCount)
    {
      if name !in taskDict {
        return;
      }
      var task := taskDict[name];
      taskDict := taskDict[name := task.(completed := task.completed + completed)];
    }

    /** Queues a task for the next tick; the live tasks, and so HasTask, do not change. */
    method AddTask(task: Task)
      requires Valid()
      modifies this
      ensures Valid()
      ensures needAddTasks == old(needAddTasks) + [task]
      ensures taskDict == old(taskDict) && order == old(order)
      ensures MaxExcuteCount == old(MaxExcuteCount)
      ensures forall name :: HasTask(name) == old(HasTask(name))
    {
      needAddTasks := needAddTasks + [task];
    }

    /** Adds one pending task: inserted under a new name, merged into the live task otherwise. */
    method InternalAddTask(task: Task)
      requires Valid()
      modifies this
      ensures Valid()
      ensures Live() == AddOne(old(Live()), task)
      ensures needAddTasks == old(needAddTasks) && MaxExcuteCount == old(MaxExcuteCount)
    {
      AddOnePreservesWellFormed(Live(), task);
      if HasTask(task.name) {
        AppendTaskCompleted(task.name, task.completed);
        return;
      }
      taskDict := taskDict[task.name := task];
      order := order + [task.name];
    }

    /**
     * One tick: add the pending tasks, advance the live ones under the execute budget,
     * drop those found in Done.  `hooks` says what the tasks' Execute and Update do
     * this tick; `calls` lists every hook invocation in order.
     */
    method Update(hooks: Hooks) returns (calls: seq<Call>)
      requires Valid()
      modifies this
      ensures Valid()
      ensures needAddTasks == [] && MaxExcuteCount == old(MaxExcuteCount)
      ensures Live() == Tick(old(Live()), old(needAddTasks), old(MaxExcuteCount), hooks).registry
      ensures calls == Tick(old(Live()), old(needAddTasks), old(MaxExcuteCount), hooks).calls
    {
      ghost var r0, pending, max := Live(), needAddTasks, MaxExcuteCount;
      ghost var d := Drain(r0, pending);
      ghost var visited := Visited(d, max);
      ghost var removed := ElemSet(DoneNames(d.tasks, visited));
      ghost var after := Registry(StepAll(d.tasks, visited, hooks) - removed, FilterOut(d.order, removed));
      assert Tick(r0, pending, max, hooks) == TickResult(after, CallsOf(d.tasks, visited));
      TickPreservesWellFormed(r0, pending, max, hooks);
      AddNeedAddTasks();
      calls := ExecuteLiveTasks(hooks);
      RemoveNeedRemoveTasks();
    }

    /** The first phase of Update: every pending task goes through InternalAddTask, then the list is cleared. */
    method AddNeedAddTasks()
      requires Valid()
      modifies this
      ensures Valid()
      ensures Live() == Drain(old(Live()), old(needAddTasks))
      ensures needAddTasks == [] && MaxExcuteCount == old(MaxExcuteCount)
    {
      if |needAddTasks| > 0 {
        ghost var pending := needAddTasks;
        var i := 0;
        while i < |needAddTasks|
          invariant 0 <= i <= |needAddTasks| && needAddTasks == pending
          invariant Valid()
          invariant Live() == Drain(old(Live()), pending[..i])
          invariant MaxExcuteCount == old(MaxExcuteCount)
        {
          assert pending[..i + 1][..i] == pending[..i];
          InternalAddTask(needAddTasks[i]);
          i := i + 1;
        }
        assert pending[..i] == pending;
        needAddTasks := [];
      }
    }

    /**
     * The second phase of Update: walk the live tasks in enumeration order, stopping
     * once the Free and Executing tasks met have used up MaxExcuteCount.
     */
    method ExecuteLiveTasks(hooks: Hooks) returns (calls: seq<Call>)
      requires Valid()
      modifies this
      ensures order == old(order) && needAddTasks == old(needAddTasks) && MaxExcuteCount == old(MaxExcuteCount)
      ensures taskDict == StepAll(old(taskDict), Visited(old(Live()), MaxExcuteCount), hooks)
      ensures needRemoveTasks == DoneNames(old(taskDict), Visited(old(Live()), MaxExcuteCount))
      ensures calls == CallsOf(old(taskDict), Visited(old(Live()), MaxExcuteCount))
    {
      ghost var live := Live();
      calls := [];
      assert order != [] ==> order[0] in taskDict;
      if |taskDict| == 0 {
        assert taskDict == map[];
        return;
      }
      var executeCount := 0;
      var i := 0;
      while i < |order|
        invariant 0 <= i <= |order| && order == live.order
        invariant executeCount == Executed(live.tasks, order[..i])
        invariant i <= Stop(live.tasks, live.order, MaxExcuteCount)
        invariant taskDict == StepAll(live.tasks, order[..i], hooks)
        invariant needRemoveTasks == DoneNames(live.tasks, order[..i])
        invariant calls == CallsOf(live.tasks, order[..i])
        invariant needAddTasks == old(needAddTasks) && MaxExcuteCount == old(MaxExcuteCount)
      {
        if executeCount >= MaxExcuteCount {
          break;
        }
        StopBeyond(live.tasks, live.order, MaxExcuteCount, i);
        var name := order[i];
        WalkVisit(live.tasks, order, i, hooks);
        var counted, made := Visit(name, hooks);
        calls := calls + made;
        if counted {
          executeCount := executeCount + 1;
        }
        i := i + 1;
      }
      assert order[..i] == Visited(live, MaxExcuteCount);
    }

    /**
     * The switch on a task's state inside the walk: a Free task is run and then
     * updated, an Executing or WaitOther task is updated, a Done task is queued for
     * removal.  `counted` says whether the task uses up one unit of the budget.
     */
    method Visit(name: string, hooks: Hooks) returns (counted: bool, made: seq<Call>)
      requires name in taskDict
      modifies this
      ensures taskDict == old(taskDict)[name := Step(old(taskDict)[name], hooks)]
      ensures needRemoveTasks == old(needRemoveTasks) + (if old(taskDict)[name].state == Done then [name] else [])
      ensures made == HookCalls(old(taskDict)[name]) && counted == Counted(old(taskDict)[name].state)
      ensures order == old(order) && needAddTasks == old(needAddTasks) && MaxExcuteCount == old(MaxExcuteCount)
    {
      var task := taskDict[name];
      counted := false;
      made := [];
      match task.state {
        case Free =>
          task := task.(state := hooks.execute(task));
          task := task.(state := hooks.update(task));
          made := [Call(task.name, Hook.Execute), Call(task.name, Hook.Update)];
          counted := true;
        case WaitOther =>
          task := task.(state := hooks.update(task));
          made := [Call(task.name, Hook.Update)];
        case Executing =>
          task := task.(state := hooks.update(task));
          made := [Call(task.name, Hook.Update)];
          counted := true;
        case Done =>
          needRemoveTasks := needRemoveTasks + [name];
      }
      taskDict := taskDict[name := task];
    }

    /** The third phase of Update: remove every queued name, then clear the queue. */
    method RemoveNeedRemoveTasks()
      modifies this
      ensures taskDict == old(taskDict) - ElemSet(old(needRemoveTasks))
      ensures order == FilterOut(old(order), ElemSet(old(needRemoveTasks)))
      ensures needRemoveTasks == []
      ensures needAddTasks == old(needAddTasks) && MaxExcuteCount == old(MaxExcuteCount)
    {
      ghost var removed := needRemoveTasks;
      if |needRemoveTasks| == 0 {
        assert ElemSet(removed) == {};
        FilterOutNothing(order, ElemSet(removed));
        assert taskDict == taskDict - ElemSet(removed);
        return;
      }
      assert ElemSet(removed[..0]) == {};
      FilterOutNothing(order, ElemSet(removed[..0]));
      var i := 0;
      while i < |needRemoveTasks|
        invariant 0 <= i <= |needRemoveTasks| && needRemoveTasks == removed
        invariant taskDict == old(taskDict) - ElemSet(removed[..i])
        invariant order == FilterOut(old(order), ElemSet(removed[..i]))
        invariant needAddTasks == old(needAddTasks) && MaxExcuteCount == old(MaxExcuteCount)
      {
        var taskName := needRemoveTasks[i];
        assert ElemSet(removed[..i + 1]) == ElemSet(removed[..i]) + {taskName};
        FilterOutTwice(old(order), ElemSet(removed[..i]), {taskName});
        taskDict := taskDict - {taskName};
        order := FilterOut(order, {taskName});
        i := i + 1;
      }
      assert removed[..i] == removed;
      needRemoveTasks := [];
    }
  }
}
