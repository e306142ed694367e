/**
 The order in which a series runs its tasks, over whole runs of TaskEngine.
 */
module TaskOrder {
  import opened Basics
  import opened TaskEngine

  /** The tasks that a series still has to begin, in order */
  function Line(x: Series): seq<Task> {
    (if x.phase.Fresh? then [x.phase.first] else []) + x.rest
  }

  /** The steps with which a series goes on to a task, or ends */
  predicate Turns(w: World, step: Step, s: Sid) {
    match step
    case Start(z) => z == s
    case StartChild(z) => z == s
    case LeafDone(z) => z == s
    case ParallelDone(p) => p in w.home && w.home[p] == s
    case _ => false
  }

  /** What series s begins in this step, if anything */
  function Begun(w: World, step: Step, s: Sid): seq<Task>
    requires Enabled(w, step)
  {
    var v := Apply(w, step);
    if Turns(w, step, s) && s in v.ser && v.ser[s].phase.Running? then [v.ser[s].phase.cur] else []
  }

  /** The tasks that series s begins in a run */
  function Ran(w: World, steps: seq<Step>, s: Sid): seq<Task>
    decreases |steps|
  {
    if steps == [] || !Enabled(w, steps[0]) then []
    else Begun(w, steps[0], s) + Ran(Apply(w, steps[0]), steps[1..], s)
  }

  /** No call of the user's changes the queue of s. */
  predicate Untouched(steps: seq<Step>, s: Sid) {
    forall i :: 0 <= i < |steps| ==> !(steps[i].Push? && steps[i].s == s) && !(steps[i].Cancel? && steps[i].s == s)
  }

  lemma {:induction false} BeginLine(w: World, s: Sid, t: Task)
    requires s in w.ser
    ensures var v := Begin(w, s, t);
            s in v.ser && v.ser[s] == w.ser[s].(phase := Running(t))
            && forall z :: z in w.ser && z != s ==> z in v.ser && v.ser[z] == w.ser[z]
  {
  }

  predicate Popped(x: Series, y: Series) {
    && y.canceled == x.canceled
    && (if x.canceled || x.rest == [] then y.phase.Ending? && y.rest == []
        else y.phase == Running(x.rest[0]) && y.rest == x.rest[1..])
  }

  /** The next task of a series begins, in its order; a canceled one drops what is left. */
  lemma {:induction false} PopLine(w: World, s: Sid)
    requires s in w.ser && w.ser[s].phase.Running?
    ensures var v, x := Pop(w, s), w.ser[s];
            && s in v.ser && Popped(x, v.ser[s])
            && forall z :: z in w.ser && z != s ==> z in v.ser && v.ser[z] == w.ser[z]
  {
    hide Begin;
    var x := w.ser[s];
    if !(x.canceled || x.rest == []) {
      BeginLine(SetSer(w, s, x.(rest := x.rest[1..])), s, x.rest[0]);
    }
  }

  /** The state before the pop of ParallelDone */
  function Finished(w: World, p: Pid): World
    requires p in w.par
  {
    SetPar(w, p, w.par[p].(phase := Done, dones := w.par[p].dones + 1))
  }

  /** How a step other than push and cancel of s turns s: it is left alone, begins its first task, or pops. */
  lemma {:induction false} StepTurns(w: World, step: Step, s: Sid)
    requires Inv(w) && Enabled(w, step) && s in w.ser
    requires !(step.Push? && step.s == s) && !(step.Cancel? && step.s == s)
    ensures var v, x := Apply(w, step), w.ser[s];
            && s in v.ser
            && (!Turns(w, step, s) ==> Line(v.ser[s]) == Line(x) && v.ser[s].canceled == x.canceled
                                       && v.ser[s].phase.Fresh? == x.phase.Fresh?)
            && (Turns(w, step, s) && x.phase.Fresh? ==> v.ser[s] == x.(phase := Running(x.phase.first)))
            && (Turns(w, step, s) && !x.phase.Fresh? ==> x.phase.Running? && Popped(x, v.ser[s]))
  {
    hide Pop;
    hide Begin;
    hide Inv;
    if step.Start? || step.StartChild? {
      BeginLine(w, step.s, w.ser[step.s].phase.first);
    } else if step.LeafDone? {
      PopLine(w, step.s);
    } else if step.ParallelDone? {
      ReadyRuns(w, step.p);
      PopLine(Finished(w, step.p), w.home[step.p]);
    }
  }

  lemma {:induction false} StepLine(w: World, step: Step, s: Sid)
    requires Inv(w) && Enabled(w, step) && s in w.ser
    requires !(step.Push? && step.s == s) && !(step.Cancel? && step.s == s)
    ensures var v := Apply(w, step);
            && s in v.ser && v.ser[s].canceled == w.ser[s].canceled
            && (!w.ser[s].canceled ==> Begun(w, step, s) + Line(v.ser[s]) == Line(w.ser[s]))
            && (w.ser[s].canceled && !w.ser[s].phase.Fresh? ==> !v.ser[s].phase.Fresh? && Begun(w, step, s) == [])
  {
    hide Inv;
    StepTurns(w, step, s);
    hide Apply;
    hide Turns;
    var x, y := w.ser[s], Apply(w, step).ser[s];
    if Turns(w, step, s) && !x.canceled && !x.phase.Fresh? && x.rest != [] {
      assert x.rest == [x.rest[0]] + x.rest[1..];
    }
  }

  /** A parallel task that is ready is the one its series runs. */
  lemma {:induction false} ReadyRuns(w: World, p: Pid)
    requires Inv(w) && Enabled(w, ParallelDone(p))
    ensures w.ser[w.home[p]].phase == Running(Par(p))
  {
  }

  lemma {:induction false} RunLine(w: World, steps: seq<Step>, v: World, s: Sid)
    requires Inv(w) && Runs(w, steps, v) && s in w.ser && !w.ser[s].canceled && Untouched(steps, s)
    ensures s in v.ser && Ran(w, steps, s) + Line(v.ser[s]) == Line(w.ser[s])
    decreases |steps|
  {
    hide Inv;
    hide Apply;
    hide Begun;
    hide Line;
    if steps != [] {
      var u := Apply(w, steps[0]);
      StepLine(w, steps[0], s);
      StepKeeps(w, steps[0]);
      forall i | 0 <= i < |steps[1..]|
        ensures !(steps[1..][i].Push? && steps[1..][i].s == s) && !(steps[1..][i].Cancel? && steps[1..][i].s == s)
      {
        assert steps[1..][i] == steps[i + 1];
      }
      RunLine(u, steps[1..], v, s);
    }
  }

  /**
   In every run a series begins its tasks in the order of its queue, each once: what it began and what it still has
   to begin are what it had to begin, as long as nobody pushes or cancels.
   */
  lemma {:induction false} RunsInOrder(w: World, steps: seq<Step>, v: World, s: Sid)
    requires Reachable(w) && Runs(w, steps, v) && s in w.ser && !w.ser[s].canceled && Untouched(steps, s)
    ensures s in v.ser && Ran(w, steps, s) + Line(v.ser[s]) == Line(w.ser[s])
  {
    ReachableInv(w);
    RunLine(w, steps, v, s);
  }

  /** A task pushed at place i is the one begun after i others; push_front is place 0. */
  lemma {:induction false} PushedRuns(w: World, s: Sid, i: nat, t: Task, steps: seq<Step>, v: World)
    requires Reachable(w) && Enabled(w, Push(s, i, t)) && !w.ser[s].canceled
    requires Runs(Apply(w, Push(s, i, t)), steps, v) && Untouched(steps, s)
    ensures var k := i + One(w.ser[s].phase.Fresh?);
            |Ran(Apply(w, Push(s, i, t)), steps, s)| > k ==> Ran(Apply(w, Push(s, i, t)), steps, s)[k] == t
  {
    var u := Apply(w, Push(s, i, t));
    var k := i + One(w.ser[s].phase.Fresh?);
    ReachableInv(w);
    StepKeeps(w, Push(s, i, t));
    PushLine(w, s, i, t);
    hide Apply;
    RunLine(u, steps, v, s);
    if |Ran(u, steps, s)| > k {
      assert (Ran(u, steps, s) + Line(v.ser[s]))[k] == Ran(u, steps, s)[k];
    }
  }

  lemma {:induction false} PushLine(w: World, s: Sid, i: nat, t: Task)
    requires Enabled(w, Push(s, i, t))
    ensures var u, k := Apply(w, Push(s, i, t)), i + One(w.ser[s].phase.Fresh?);
            && s in u.ser && u.ser[s].canceled == w.ser[s].canceled
            && |Line(u.ser[s])| > k && Line(u.ser[s])[k] == t
  {
  }

  lemma {:induction false} CanceledRun(w: World, steps: seq<Step>, v: World, s: Sid)
    requires Inv(w) && Runs(w, steps, v) && s in w.ser && w.ser[s].canceled && !w.ser[s].phase.Fresh?
    ensures Ran(w, steps, s) == []
    decreases |steps|
  {
    if steps != [] {
      CanceledStep(w, steps[0], s);
      StepKeeps(w, steps[0]);
      hide Inv;
      hide Apply;
      hide Begun;
      CanceledRun(Apply(w, steps[0]), steps[1..], v, s);
    }
  }

  lemma {:induction false} CanceledStep(w: World, step: Step, s: Sid)
    requires Inv(w) && Enabled(w, step) && s in w.ser && w.ser[s].canceled && !w.ser[s].phase.Fresh?
    ensures var v := Apply(w, step);
            s in v.ser && v.ser[s].canceled && !v.ser[s].phase.Fresh? && Begun(w, step, s) == []
  {
    if !(step.Push? && step.s == s) && !(step.Cancel? && step.s == s) {
      StepLine(w, step, s);
    }
  }

  /** In every run a series that was started begins no other task once it is canceled, whatever is pushed. */
  lemma {:induction false} CanceledStops(w: World, s: Sid, steps: seq<Step>, v: World)
    requires Reachable(w) && Enabled(w, Cancel(s)) && !w.ser[s].phase.Fresh?
    requires Runs(Apply(w, Cancel(s)), steps, v)
    ensures Ran(Apply(w, Cancel(s)), steps, s) == []
  {
    ReachableInv(w);
    StepKeeps(w, Cancel(s));
    CanceledRun(Apply(w, Cancel(s)), steps, v, s);
  }

  /** A task that pushes another one in front, as a task may while it runs, is followed by it. */
  lemma {:induction false} PushedNext(w: World, s: Sid, id: nat) returns (v: World)
    requires Reachable(w) && s in w.ser && w.ser[s].phase.Running? && w.ser[s].phase.cur.Leaf? && !w.ser[s].canceled
    ensures Runs(w, [Push(s, 0, Leaf(id)), LeafDone(s)], v)
    ensures s in v.ser && v.ser[s].phase == Running(Leaf(id)) && v.ser[s].rest == w.ser[s].rest
  {
    var u := Apply(w, Push(s, 0, Leaf(id)));
    v := Apply(u, LeafDone(s));
    assert Runs(v, [], v);
    assert [LeafDone(s)][1..] == [] && [Push(s, 0, Leaf(id)), LeafDone(s)][1..] == [LeafDone(s)];
    assert Runs(u, [LeafDone(s)], v);
    assert ([] + [Leaf(id)] + w.ser[s].rest)[1..] == w.ser[s].rest;
    assert w.ser[s].rest[..0] == [] && w.ser[s].rest[0..] == w.ser[s].rest;
  }
}
