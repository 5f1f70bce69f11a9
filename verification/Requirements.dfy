// Dependencies between the tasks of a feature proposal (chat/requirements.py).
module Requirements {

  datatype Task = Task(key: string, dependsOn: seq<string>)

  datatype Verdict = Accepted | DuplicateKeys | BadDependency

  type Plan = map<string, Task>

  // {task.key: task for task in tasks}
  function ByKey(tasks: seq<Task>): (plan: Plan)
    ensures forall k | k in plan :: plan[k] in tasks && plan[k].key == k
    ensures forall t | t in tasks :: t.key in plan
  {
    if tasks == [] then map[]
    else ByKey(tasks[..|tasks| - 1])[tasks[|tasks| - 1].key := tasks[|tasks| - 1]]
  }

  predicate DependsOn(plan: Plan, a: string, b: string) {
    a in plan && b in plan[a].dependsOn
  }

  // Each entry depends on the next one.
  ghost predicate Chain(plan: Plan, p: seq<string>) {
    forall i | 0 <= i < |p| - 1 :: DependsOn(plan, p[i], p[i + 1])
  }

  ghost predicate HasCycle(plan: Plan) {
    exists p :: |p| >= 2 && p[0] == p[|p| - 1] && Chain(plan, p)
  }

  ghost predicate HasUnknown(plan: Plan) {
    exists a, b :: DependsOn(plan, a, b) && b !in plan
  }

  ghost predicate DistinctKeys(tasks: seq<Task>) {
    forall i, j | 0 <= i < j < |tasks| :: tasks[i].key != tasks[j].key
  }

  // ---- Orders of work -----------------------------------------------------------

  // Every task comes after all tasks it depends on.
  ghost predicate InOrder(plan: Plan, order: seq<string>) {
    forall i | 0 <= i < |order| ::
      order[i] in plan && forall d | d in plan[order[i]].dependsOn :: d in order[..i]
  }

  ghost predicate Schedules(plan: Plan, order: seq<string>) {
    InOrder(plan, order) && forall k | k in plan :: k in order
  }

  // Along a dependency chain, the first occurrences in an order move to the front.
  lemma {:induction false} ChainGoesBack(plan: Plan, order: seq<string>, p: seq<string>, i: nat) returns (j: nat)
    requires InOrder(plan, order) && Chain(plan, p) && |p| >= 2
    requires i < |order| && order[i] == p[0]
    ensures j < i && order[j] == p[|p| - 1]
    decreases |p|
  {
    assert DependsOn(plan, p[0], p[1]);
    var k :| 0 <= k < i && order[..i][k] == p[1];
    if |p| == 2 {
      j := k;
    } else {
      var rest := p[1..];
      forall m | 0 <= m < |rest| - 1 ensures DependsOn(plan, rest[m], rest[m + 1]) {
        assert DependsOn(plan, p[m + 1], p[m + 1 + 1]);
      }
      j := ChainGoesBack(plan, order, rest, k);
    }
  }

  lemma {:induction false} NoCycleThrough(plan: Plan, order: seq<string>, p: seq<string>, i: nat)
    requires InOrder(plan, order) && Chain(plan, p) && |p| >= 2 && p[0] == p[|p| - 1]
    requires i < |order| && order[i] == p[0]
    ensures false
    decreases i
  {
    var j := ChainGoesBack(plan, order, p, i);
    NoCycleThrough(plan, order, p, j);
  }

  // A plan that can be scheduled has neither unknown dependencies nor cycles.
  lemma ScheduledIsSound(plan: Plan, order: seq<string>)
    requires Schedules(plan, order)
    ensures !HasUnknown(plan) && !HasCycle(plan)
  {
    forall a, b | DependsOn(plan, a, b) ensures b in plan {
      var i :| 0 <= i < |order| && order[i] == a;
      var k :| 0 <= k < i && order[..i][k] == b;
      assert order[k] == b;
    }
    if p :| |p| >= 2 && p[0] == p[|p| - 1] && Chain(plan, p) {
      assert DependsOn(plan, p[0], p[1]);
      var i :| 0 <= i < |order| && order[i] == p[0];
      NoCycleThrough(plan, order, p, i);
    }
  }

  ghost function Elements(keys: seq<string>): set<string> {
    set k | k in keys
  }

  // ---- Depth-first search ----------------------------------------------------------

  class DependencyCheck {
    const plan: Plan
    var visited: set<string>
    var visiting: set<string>
    // The keys on the recursion stack, outermost first, and the finished ones.
    ghost var stack: seq<string>
    ghost var finished: seq<string>

    constructor (plan: Plan)
      ensures this.plan == plan && Valid() && stack == [] && finished == []
    {
      this.plan := plan;
      visited, visiting := {}, {};
      stack, finished := [], [];
    }

    ghost predicate Valid()
      reads this
    {
      && visited == Elements(finished) && visiting == Elements(stack)
      && visiting <= plan.Keys
      && InOrder(plan, finished) && Chain(plan, stack)
    }

    // visit(key); false stands for the ValueError it raises
    method Visit(key: string) returns (ok: bool)
      requires Valid()
      requires stack != [] ==> DependsOn(plan, stack[|stack| - 1], key)
      modifies this`visited, this`visiting, this`stack, this`finished
      ensures ok ==> Valid() && stack == old(stack) && visiting == old(visiting)
      ensures ok ==> key in finished && old(finished) <= finished
      ensures !ok ==> key !in plan || HasUnknown(plan) || HasCycle(plan)
      decreases |plan.Keys - visiting|, 1
    {
      if key !in plan || key in visiting {
        if key in plan {
          StackCycle(plan, stack, key);
        }
        return false;
      }
      if key in visited {
        return true;
      }
      ok := VisitNew(key);
    }

    // The part of visit(key) for a key that is neither finished nor on the stack.
    method VisitNew(key: string) returns (ok: bool)
      requires Valid() && key in plan && key !in visiting
      requires stack != [] ==> DependsOn(plan, stack[|stack| - 1], key)
      modifies this`visited, this`visiting, this`stack, this`finished
      ensures ok ==> Valid() && stack == old(stack) && visiting == old(visiting)
      ensures ok ==> key in finished && old(finished) <= finished
      ensures !ok ==> HasUnknown(plan) || HasCycle(plan)
      decreases |plan.Keys - visiting|, 0
    {
      ghost var outer := stack;
      FewerLeft(plan, visiting, key);
      Enter(key);
      ok := VisitDependencies(key);
      if ok {
        Finish(key, outer);
      }
    }

    // visiting.add(key)
    method Enter(key: string)
      requires Valid() && key in plan && key !in visiting
      requires stack != [] ==> DependsOn(plan, stack[|stack| - 1], key)
      modifies this`visiting, this`stack
      ensures Valid() && stack == old(stack) + [key] && visiting == old(visiting) + {key}
    {
      PushKey(plan, stack, key);
      visiting := visiting + {key};
      stack := stack + [key];
    }

    // visiting.discard(key); visited.add(key)
    method Finish(key: string, ghost outer: seq<string>)
      requires Valid() && stack == outer + [key] && key !in outer
      requires forall d | d in plan[key].dependsOn :: d in finished
      modifies this`visited, this`visiting, this`stack, this`finished
      ensures Valid() && stack == outer && finished == old(finished) + [key]
    {
      PopKey(plan, outer, key);
      FinishNext(plan, finished, key);
      visiting := visiting - {key};
      visited := visited + {key};
      stack := outer;
      finished := finished + [key];
    }

    // The loop of visit(key) over by_key[key].dependsOn
    method VisitDependencies(key: string) returns (ok: bool)
      requires Valid() && key in plan && stack != [] && stack[|stack| - 1] == key
      modifies this`visited, this`visiting, this`stack, this`finished
      ensures ok ==> Valid() && stack == old(stack) && visiting == old(visiting) && old(finished) <= finished
      ensures ok ==> forall d | d in plan[key].dependsOn :: d in finished
      ensures !ok ==> HasUnknown(plan) || HasCycle(plan)
      decreases |plan.Keys - visiting|, 2
    {
      var dependencies := plan[key].dependsOn;
      for i := 0 to |dependencies|
        invariant Valid() && stack == old(stack) && visiting == old(visiting)
        invariant old(finished) <= finished
        invariant forall d | d in dependencies[..i] :: d in finished
      {
        assert DependsOn(plan, key, dependencies[i]);
        ghost var before := finished;
        var fine := Visit(dependencies[i]);
        if !fine {
          return false;
        }
        assert forall d | d in before :: d in finished;
      }
      return true;
    }
  }

  lemma FewerLeft(plan: Plan, visiting: set<string>, key: string)
    requires key in plan && key !in visiting
    ensures |plan.Keys - (visiting + {key})| < |plan.Keys - visiting|
  {
    assert plan.Keys - (visiting + {key}) == plan.Keys - visiting - {key};
  }

  lemma PushKey(plan: Plan, stack: seq<string>, key: string)
    requires Chain(plan, stack) && (stack != [] ==> DependsOn(plan, stack[|stack| - 1], key))
    ensures Chain(plan, stack + [key])
    ensures Elements(stack + [key]) == Elements(stack) + {key}
  {
  }

  lemma PopKey(plan: Plan, outer: seq<string>, key: string)
    requires Chain(plan, outer + [key]) && key !in outer
    ensures Chain(plan, outer) && Elements(outer) == Elements(outer + [key]) - {key}
  {
    var all := outer + [key];
    forall i | 0 <= i < |outer| - 1 ensures DependsOn(plan, outer[i], outer[i + 1]) {
      assert DependsOn(plan, all[i], all[i + 1]);
    }
  }

  lemma StackCycle(plan: Plan, stack: seq<string>, key: string)
    requires Chain(plan, stack) && key in stack && DependsOn(plan, stack[|stack| - 1], key)
    ensures HasCycle(plan)
  {
    var i :| 0 <= i < |stack| && stack[i] == key;
    var p := stack[i..] + [key];
    assert Chain(plan, p);
  }

  lemma FinishNext(plan: Plan, finished: seq<string>, key: string)
    requires InOrder(plan, finished) && key in plan
    requires forall d | d in plan[key].dependsOn :: d in finished
    ensures InOrder(plan, finished + [key])
    ensures Elements(finished + [key]) == Elements(finished) + {key}
  {
    var order := finished + [key];
    forall i | 0 <= i < |order|
      ensures order[i] in plan && forall d | d in plan[order[i]].dependsOn :: d in order[..i]
    {
      assert order[..i] == finished[..i];
    }
  }

  lemma {:induction false} KeyCount(tasks: seq<Task>)
    ensures |ByKey(tasks)| <= |tasks|
    ensures |ByKey(tasks)| == |tasks| <==> DistinctKeys(tasks)
  {
    if tasks != [] {
      var init, last := tasks[..|tasks| - 1], tasks[|tasks| - 1];
      KeyCount(init);
      AddedKey(ByKey(init), last.key, last);
      DistinctLast(tasks);
    }
  }

  lemma AddedKey(plan: Plan, key: string, task: Task)
    ensures |plan[key := task]| == |plan| + if key in plan then 0 else 1
  {
    assert plan[key := task].Keys == plan.Keys + {key};
    assert |plan[key := task]| == |plan[key := task].Keys| && |plan| == |plan.Keys|;
    if key in plan {
      assert plan.Keys + {key} == plan.Keys;
    }
  }

  lemma DistinctLast(tasks: seq<Task>)
    requires tasks != []
    ensures DistinctKeys(tasks)
       <==> DistinctKeys(tasks[..|tasks| - 1]) && tasks[|tasks| - 1].key !in ByKey(tasks[..|tasks| - 1])
  {
    var init, last := tasks[..|tasks| - 1], tasks[|tasks| - 1];
    HasKey(init, last.key);
    assert tasks == init + [last];
    DistinctSnoc(init, last);
  }

  lemma DistinctSnoc(init: seq<Task>, last: Task)
    ensures DistinctKeys(init + [last]) <==> DistinctKeys(init) && forall i | 0 <= i < |init| :: init[i].key != last.key
  {
    var tasks := init + [last];
    assert forall i | 0 <= i < |init| :: tasks[i] == init[i];
    assert tasks[|init|] == last;
  }

  lemma HasKey(tasks: seq<Task>, key: string)
    ensures key in ByKey(tasks) <==> exists i :: 0 <= i < |tasks| && tasks[i].key == key
  {
    if key in ByKey(tasks) {
      var i :| 0 <= i < |tasks| && tasks[i] == ByKey(tasks)[key];
    }
  }

  // FeatureProposal.check_dependencies
  method CheckDependencies(tasks: seq<Task>) returns (verdict: Verdict)
    ensures verdict == DuplicateKeys <==> !DistinctKeys(tasks) || "feature" in ByKey(tasks)
    ensures verdict == Accepted <==>
        DistinctKeys(tasks) && "feature" !in ByKey(tasks) && !HasUnknown(ByKey(tasks)) && !HasCycle(ByKey(tasks))
    ensures verdict == Accepted ==> exists order :: Schedules(ByKey(tasks), order)
  {
    var plan := ByKey(tasks);
    KeyCount(tasks);
    if |plan| != |tasks| || "feature" in plan {
      return DuplicateKeys;
    }
    var search := new DependencyCheck(plan);
    var fine := VisitAll(search, tasks);
    if !fine {
      return BadDependency;
    }
    FinishedSchedules(tasks, search.finished);
    ScheduledIsSound(plan, search.finished);
    return Accepted;
  }

  lemma FinishedSchedules(tasks: seq<Task>, finished: seq<string>)
    requires InOrder(ByKey(tasks), finished) && AllFinished(tasks, finished)
    ensures Schedules(ByKey(tasks), finished)
  {
  }

  // for task in self.tasks: visit(task.key)
  method VisitAll(search: DependencyCheck, tasks: seq<Task>) returns (fine: bool)
    requires search.Valid() && search.stack == [] && search.plan == ByKey(tasks)
    modifies search
    ensures fine ==> search.Valid() && AllFinished(tasks, search.finished)
    ensures !fine ==> HasUnknown(search.plan) || HasCycle(search.plan)
  {
    for i := 0 to |tasks|
      invariant search.Valid() && search.stack == []
      invariant AllFinished(tasks[..i], search.finished)
    {
      ghost var before := search.finished;
      fine := search.Visit(tasks[i].key);
      if !fine {
        return;
      }
      OneMoreFinished(tasks, i, before, search.finished);
    }
    fine := true;
    assert tasks[..|tasks|] == tasks;
  }

  ghost predicate AllFinished(tasks: seq<Task>, finished: seq<string>) {
    forall t | t in tasks :: t.key in finished
  }

  lemma OneMoreFinished(tasks: seq<Task>, i: nat, before: seq<string>, finished: seq<string>)
    requires i < |tasks| && AllFinished(tasks[..i], before) && before <= finished && tasks[i].key in finished
    ensures AllFinished(tasks[..i + 1], finished)
  {
    assert forall t :: t in tasks[..i + 1] <==> t in tasks[..i] || t == tasks[i];
    assert forall k | k in before :: k in finished;
  }
}
