/**
 The tasks that lie between two tasks of a recipe.

 `tasksbetween` walks forward from the start task to every task that lists it as a
 dependency.  All recursive calls push to and pop from one shared `chain`, and add to one
 shared `outtasks`.  The specification speaks of walks of the dependency graph only.
 */
module TasksBetween {
  import opened Sequences

  type Task = string

  /** The tasks of the data store in key order, and the `deps` flag of each of them. */
  datatype TaskGraph = TaskGraph(tasks: seq<Task>, deps: map<Task, seq<Task>>)

  ghost predicate WellFormed(g: TaskGraph) {
    forall t :: t in g.tasks ==> t in g.deps
  }

  /** The step the search may take from `a`: `b` is another task that depends on `a`. */
  ghost predicate Edge(g: TaskGraph, a: Task, b: Task) {
    b in g.tasks && b != a && b in g.deps && a in g.deps[b]
  }

  /** A walk of the graph from `a` to `b`. */
  ghost predicate Path(g: TaskGraph, w: seq<Task>, a: Task, b: Task) {
    && |w| > 0 && w[0] == a && w[|w| - 1] == b
    && forall i :: 0 < i < |w| ==> Edge(g, w[i - 1], w[i])
  }

  ghost predicate Reaches(g: TaskGraph, a: Task, b: Task) {
    exists w :: Path(g, w, a, b)
  }

  ghost predicate Acyclic(g: TaskGraph) {
    forall w, a :: Path(g, w, a, a) ==> |w| == 1
  }

  /** A walk that stops when it meets `end`, as the search does. */
  ghost predicate Walk(g: TaskGraph, w: seq<Task>, end: Task) {
    && |w| > 0
    && (forall i :: 0 <= i < |w| - 1 ==> w[i] != end)
    && (forall i :: 0 < i < |w| ==> Edge(g, w[i - 1], w[i]))
  }

  /** The walks that continue from `task` into one of `succs`. */
  ghost predicate Continues(g: TaskGraph, w: seq<Task>, task: Task, succs: seq<Task>, end: Task) {
    Walk(g, w, end) && w[0] in succs && Edge(g, task, w[0])
  }

  /** `x` lies on `chain` followed by a walk from `task` that arrives at `end`. */
  ghost predicate OnChainTo(g: TaskGraph, chain: seq<Task>, task: Task, end: Task, x: Task) {
    exists w :: Walk(g, w, end) && w[0] == task && w[|w| - 1] == end && x in chain + w
  }

  /** The same for the walks that enter one of `succs` after `task`. */
  ghost predicate OnContinuation(g: TaskGraph, chain: seq<Task>, task: Task, succs: seq<Task>, end: Task, x: Task) {
    exists w :: Continues(g, w, task, succs, end) && w[|w| - 1] == end && x in chain + w
  }

  /** No walk from `task` comes back to a task of the walk or of `chain`. */
  ghost predicate NoReturn(g: TaskGraph, chain: seq<Task>, task: Task, end: Task) {
    forall w :: Walk(g, w, end) && w[0] == task ==> NoDup(chain + w)
  }

  ghost predicate NoReturnVia(g: TaskGraph, chain: seq<Task>, task: Task, succs: seq<Task>, end: Task) {
    forall w :: Continues(g, w, task, succs, end) ==> NoDup(chain + w)
  }

  /** Some task differs from `end`; without one the inner loop of the source never runs. */
  ghost predicate HasOther(ts: seq<Task>, end: Task) {
    exists t :: t in ts && t != end
  }

  lemma HasOtherExtend(ts: seq<Task>, i: nat, end: Task)
    requires i < |ts|
    ensures HasOther(ts[..i + 1], end) <==> HasOther(ts[..i], end) || ts[i] != end
  {
    assert ts[..i + 1] == ts[..i] + [ts[i]];
    if HasOther(ts[..i], end) {
      var t :| t in ts[..i] && t != end;
      assert t in ts[..i + 1];
    }
    assert ts[i] in ts[..i + 1];
  }

  lemma ConsWalk(g: TaskGraph, task: Task, w: seq<Task>, end: Task)
    requires task != end && Walk(g, w, end) && Edge(g, task, w[0])
    ensures Walk(g, [task] + w, end)
  {
    var v := [task] + w;
    forall i | 0 < i < |v|
      ensures Edge(g, v[i - 1], v[i])
    {
      if i > 1 {
        assert v[i - 1] == w[i - 2] && v[i] == w[i - 1];
      }
    }
    forall i | 0 <= i < |v| - 1
      ensures v[i] != end
    {
      if i > 0 {
        assert v[i] == w[i - 1];
      }
    }
  }

  lemma TailWalk(g: TaskGraph, w: seq<Task>, end: Task)
    requires Walk(g, w, end) && |w| > 1
    ensures Continues(g, w[1..], w[0], g.tasks, end)
  {
    assert Edge(g, w[0], w[1]);
    var v := w[1..];
    forall i | 0 < i < |v|
      ensures Edge(g, v[i - 1], v[i])
    {
      assert v[i - 1] == w[i] && v[i] == w[i + 1];
      assert Edge(g, w[i + 1 - 1], w[i + 1]);
    }
  }

  /** Walks from `task` other than `[task]` are `task` followed by a continuation. */
  lemma NoReturnStep(g: TaskGraph, chain: seq<Task>, task: Task, end: Task)
    requires task != end
    ensures NoReturn(g, chain, task, end) <==>
            NoDup(chain + [task]) && NoReturnVia(g, chain + [task], task, g.tasks, end)
  {
    if NoReturn(g, chain, task, end) {
      assert Walk(g, [task], end);
      forall w | Continues(g, w, task, g.tasks, end)
        ensures NoDup(chain + [task] + w)
      {
        ConsWalk(g, task, w, end);
        Assoc(chain, [task], w);
      }
    }
    if NoDup(chain + [task]) && NoReturnVia(g, chain + [task], task, g.tasks, end) {
      forall w | Walk(g, w, end) && w[0] == task
        ensures NoDup(chain + w)
      {
        if |w| == 1 {
          assert w == [task];
        } else {
          TailWalk(g, w, end);
          assert w == [task] + w[1..];
      Assoc(chain, [task], w[1..]);
        }
      }
    }
  }

  lemma OnChainStep(g: TaskGraph, chain: seq<Task>, task: Task, end: Task, x: Task)
    requires task != end
    ensures OnChainTo(g, chain, task, end, x) <==> OnContinuation(g, chain + [task], task, g.tasks, end, x)
  {
    if OnChainTo(g, chain, task, end, x) {
      var w :| Walk(g, w, end) && w[0] == task && w[|w| - 1] == end && x in chain + w;
      assert |w| > 1;
      TailWalk(g, w, end);
      assert chain + w == chain + [task] + w[1..];
    }
    if OnContinuation(g, chain + [task], task, g.tasks, end, x) {
      var w :| Continues(g, w, task, g.tasks, end) && w[|w| - 1] == end && x in chain + [task] + w;
      ConsWalk(g, task, w, end);
      assert chain + [task] + w == chain + ([task] + w);
    }
  }

  /** At `end` the only walk is `[end]`. */
  lemma AtEnd(g: TaskGraph, chain: seq<Task>, end: Task)
    ensures NoReturn(g, chain, end, end) <==> NoDup(chain + [end])
    ensures forall x :: OnChainTo(g, chain, end, end, x) <==> x in chain + [end]
  {
    assert Walk(g, [end], end);
    assert forall w :: Walk(g, w, end) && w[0] == end ==> w == [end];
    forall x | x in chain + [end]
      ensures OnChainTo(g, chain, end, end, x)
    {
      var w := [end];
      assert w[|w| - 1] == end;
    }
  }

  /** How one more successor extends the quantifications over continuations. */
  lemma ExtendSuccs(g: TaskGraph, chain: seq<Task>, task: Task, i: nat, end: Task)
    requires i < |g.tasks|
    ensures var t := g.tasks[i];
            NoReturnVia(g, chain, task, g.tasks[..i + 1], end) <==>
            NoReturnVia(g, chain, task, g.tasks[..i], end) && (Edge(g, task, t) ==> NoReturn(g, chain, t, end))
    ensures var t := g.tasks[i];
            forall x :: OnContinuation(g, chain, task, g.tasks[..i + 1], end, x) <==>
            OnContinuation(g, chain, task, g.tasks[..i], end, x) || (Edge(g, task, t) && OnChainTo(g, chain, t, end, x))
  {
    var t := g.tasks[i];
    assert g.tasks[..i + 1] == g.tasks[..i] + [t];
    assert forall w :: Continues(g, w, task, g.tasks[..i + 1], end) <==>
                       Continues(g, w, task, g.tasks[..i], end) || (Walk(g, w, end) && w[0] == t && Edge(g, task, t));
  }

  class Search {
    var chain: seq<Task>
    var outtasks: seq<Task>

    constructor ()
      ensures chain == [] && outtasks == []
    {
      chain, outtasks := [], [];
    }

    /** The loop over `chain`: every task of the chain joins the result once. */
    method AddChain()
      modifies `outtasks
      ensures NoDup(old(outtasks)) ==> NoDup(outtasks)
      ensures old(outtasks) <= outtasks
      ensures forall x :: x in outtasks <==> x in old(outtasks) || x in chain
    {
      for k := 0 to |chain|
        invariant NoDup(old(outtasks)) ==> NoDup(outtasks)
        invariant old(outtasks) <= outtasks
        invariant forall x :: x in outtasks <==> x in old(outtasks) || x in chain[..k]
      {
        var ctask := chain[k];
        assert chain[..k + 1] == chain[..k] + [ctask];
        if ctask !in outtasks {
          outtasks := outtasks + [ctask];
        }
      }
      assert chain[..|chain|] == chain;
    }

    /** One call of `follow_chain`; `fatal` stands for the exception of `bb.fatal`. */
    method FollowChain(g: TaskGraph, task: Task, endtask: Task, ghost universe: set<Task>) returns (fatal: bool)
      requires WellFormed(g)
      requires NoDup(chain)
      requires task in universe && forall t :: t in chain || t in g.tasks ==> t in universe
      modifies this
      ensures !fatal <==> NoReturn(g, old(chain), task, endtask)
      ensures !fatal ==> chain == old(chain)
      ensures NoDup(old(outtasks)) ==> NoDup(outtasks)
      ensures !fatal ==> forall x :: x in outtasks <==>
          x in old(outtasks) || (HasOther(g.tasks, endtask) && OnChainTo(g, old(chain), task, endtask, x))
      decreases universe - (set t | t in chain), 1
    {
      ghost var chain0 := chain;
      ghost var out0 := outtasks;
      if task in chain {
        assert Walk(g, [task], endtask) && !NoDup(chain + [task]) by {
          var k :| 0 <= k < |chain| && chain[k] == task;
          assert (chain + [task])[k] == (chain + [task])[|chain|];
        }
        return true;
      }
      chain := chain + [task];
      assert NoDup(chain);
      if task == endtask {
        fatal := VisitEnd(g, task);
        AtEnd(g, chain0, endtask);
      } else {
        assert task !in (set t | t in chain0);
        assert (universe - (set t | t in chain)) < (universe - (set t | t in chain0)) by {
          assert task in universe - (set t | t in chain0);
        }
        fatal := VisitSuccessors(g, task, endtask, universe);
        NoReturnStep(g, chain0, task, endtask);
        forall x
          ensures OnChainTo(g, chain0, task, endtask, x) <==>
                  OnContinuation(g, chain0 + [task], task, g.tasks, endtask, x)
        {
          OnChainStep(g, chain0, task, endtask, x);
        }
      }
      if fatal {
        return;
      }
      chain := chain[..|chain| - 1];
    }

    /** The loop over the tasks when the chain has arrived at the end task. */
    method VisitEnd(g: TaskGraph, task: Task) returns (fatal: bool)
      modifies `outtasks
      ensures !fatal
      ensures NoDup(old(outtasks)) ==> NoDup(outtasks)
      ensures forall x :: x in outtasks <==> x in old(outtasks) || (HasOther(g.tasks, task) && x in chain)
    {
      fatal := false;
      for i := 0 to |g.tasks|
        invariant NoDup(old(outtasks)) ==> NoDup(outtasks)
        invariant forall x :: x in outtasks <==>
                    x in old(outtasks) || (HasOther(g.tasks[..i], task) && x in chain)
      {
        var othertask := g.tasks[i];
        HasOtherExtend(g.tasks, i, task);
        if othertask == task {
          continue;
        }
        AddChain();
      }
      assert g.tasks[..|g.tasks|] == g.tasks;
    }

    /** The loop over the tasks before the end task is met. */
    method VisitSuccessors(g: TaskGraph, task: Task, endtask: Task, ghost universe: set<Task>) returns (fatal: bool)
      requires WellFormed(g) && NoDup(chain) && task != endtask
      requires forall t :: t in chain || t in g.tasks ==> t in universe
      modifies this
      ensures !fatal <==> NoReturnVia(g, old(chain), task, g.tasks, endtask)
      ensures !fatal ==> chain == old(chain)
      ensures NoDup(old(outtasks)) ==> NoDup(outtasks)
      ensures !fatal ==> forall x :: x in outtasks <==>
          x in old(outtasks) || (HasOther(g.tasks, endtask) && OnContinuation(g, old(chain), task, g.tasks, endtask, x))
      decreases universe - (set t | t in chain), 2
    {
      for i := 0 to |g.tasks|
        invariant chain == old(chain)
        invariant NoReturnVia(g, chain, task, g.tasks[..i], endtask)
        invariant NoDup(old(outtasks)) ==> NoDup(outtasks)
        invariant forall x :: x in outtasks <==>
                    x in old(outtasks) || (HasOther(g.tasks, endtask) &&
                        OnContinuation(g, chain, task, g.tasks[..i], endtask, x))
      {
        var othertask := g.tasks[i];
        ExtendSuccs(g, chain, task, i, endtask);
        assert Edge(g, task, othertask) <==> othertask != task && task in g.deps[othertask];
        if othertask == task {
          continue;
        }
        if task in g.deps[othertask] {
          fatal := FollowChain(g, othertask, endtask, universe);
          if fatal {
            assert !NoReturnVia(g, old(chain), task, g.tasks[..i + 1], endtask);
            return;
          }
        }
      }
      assert g.tasks[..|g.tasks|] == g.tasks;
      fatal := false;
    }
  }

  // ---- What walks of an acyclic graph mean ----

  lemma PathSlice(g: TaskGraph, w: seq<Task>, a: Task, b: Task, i: nat, j: nat)
    requires Path(g, w, a, b) && i <= j < |w|
    ensures Path(g, w[i..j + 1], w[i], w[j])
  {
    var v := w[i..j + 1];
    forall k | 0 < k < |v|
      ensures Edge(g, v[k - 1], v[k])
    {
      assert v[k - 1] == w[i + k - 1] && v[k] == w[i + k];
      assert Edge(g, w[i + k - 1], w[i + k]);
    }
  }

  lemma PathConcat(g: TaskGraph, v: seq<Task>, w: seq<Task>, a: Task, b: Task, c: Task)
    requires Path(g, v, a, b) && Path(g, w, b, c)
    ensures Path(g, v + w[1..], a, c)
  {
    var u := v + w[1..];
    forall k | 0 < k < |u|
      ensures Edge(g, u[k - 1], u[k])
    {
      if k >= |v| {
        assert u[k] == w[k - |v| + 1];
        assert u[k - 1] == w[k - |v|];
        assert Edge(g, w[k - |v| + 1 - 1], w[k - |v| + 1]);
      }
    }
  }

  lemma AcyclicNoDup(g: TaskGraph, w: seq<Task>, a: Task, b: Task)
    requires Acyclic(g) && Path(g, w, a, b)
    ensures NoDup(w)
  {
    forall i, j | 0 <= i < j < |w|
      ensures w[i] != w[j]
    {
      PathSlice(g, w, a, b, i, j);
    }
  }

  /** On an acyclic graph the search never meets a task twice. */
  lemma AcyclicNoReturn(g: TaskGraph, start: Task, end: Task)
    requires Acyclic(g)
    ensures NoReturn(g, [], start, end)
  {
    forall w | Walk(g, w, end) && w[0] == start
      ensures NoDup([] + w)
    {
      assert [] + w == w;
      AcyclicNoDup(g, w, start, w[|w| - 1]);
    }
  }

  /** On an acyclic graph a task is on some walk to the end exactly when it is between the two. */
  lemma OnWalkIffBetween(g: TaskGraph, start: Task, end: Task, x: Task)
    requires Acyclic(g)
    ensures OnChainTo(g, [], start, end, x) <==> Reaches(g, start, x) && Reaches(g, x, end)
  {
    if OnChainTo(g, [], start, end, x) {
      var w :| Walk(g, w, end) && w[0] == start && w[|w| - 1] == end && x in [] + w;
      var k :| 0 <= k < |w| && w[k] == x;
      assert Path(g, w, start, end);
      PathSlice(g, w, start, end, 0, k);
      PathSlice(g, w, start, end, k, |w| - 1);
    }
    if Reaches(g, start, x) && Reaches(g, x, end) {
      var v :| Path(g, v, start, x);
      var w :| Path(g, w, x, end);
      PathConcat(g, v, w, start, x, end);
      var u := v + w[1..];
      AcyclicNoDup(g, u, start, end);
      assert x == u[|v| - 1] && x in [] + u;
      assert Walk(g, u, end);
    }
  }

  /**
   `tasksbetween`: for every graph the search stops; it reports a circular dependency exactly
   when some walk from the start returns to itself before it meets the end.  On an acyclic
   graph with two tasks or more it returns, without duplicates, exactly the tasks reachable
   from the start from which the end is reachable.
   */
  method TasksBetween(g: TaskGraph, task_start: Task, task_end: Task) returns (fatal: bool, outtasks: seq<Task>)
    requires WellFormed(g)
    ensures !fatal <==> NoReturn(g, [], task_start, task_end)
    ensures !fatal ==> NoDup(outtasks)
    ensures !fatal ==> forall x :: x in outtasks <==>
        HasOther(g.tasks, task_end) && OnChainTo(g, [], task_start, task_end, x)
    ensures Acyclic(g) ==> !fatal
    ensures Acyclic(g) && HasOther(g.tasks, task_end) ==>
        forall x :: x in outtasks <==> Reaches(g, task_start, x) && Reaches(g, x, task_end)
  {
    var s := new Search();
    fatal := s.FollowChain(g, task_start, task_end, {task_start} + (set t | t in g.tasks));
    outtasks := s.outtasks;
    if Acyclic(g) {
      AcyclicNoReturn(g, task_start, task_end);
      forall x
        ensures OnChainTo(g, [], task_start, task_end, x) <==> Reaches(g, task_start, x) && Reaches(g, x, task_end)
      {
        OnWalkIffBetween(g, task_start, task_end, x);
      }
    }
  }
}
