/**
 The engine of module TaskEngine never comes to a halt by itself: while a series that was started is not over, it or
 a series nested in it has a step to take.  Nesting is well-founded because a nested series is started after the
 series it is nested in.
 */
module TaskProgress {
  import opened Basics
  import opened TaskEngine

  predicate Started(w: World, s: Sid) {
    s in w.ser && !w.ser[s].phase.Fresh?
  }

  /** Series z belongs to a dispatched parallel task that series s is running. */
  predicate Nested(w: World, z: Sid, s: Sid) {
    && z in w.ser && s in w.ser && w.ser[z].parent.Some? && w.ser[z].parent.value in w.par
    && w.par[w.ser[z].parent.value].phase.Waiting? && w.ser[s].phase == Running(Par(w.ser[z].parent.value))
  }

  /** `at` are the times at which series were started, all before `now`; a nested series is started later. */
  ghost predicate Timed(w: World, at: map<Sid, nat>, now: nat) {
    && (forall s :: Started(w, s) ==> s in at && at[s] < now)
    && (forall z, s :: Nested(w, z, s) && Started(w, z) ==> Later(at, z, s))
  }

  predicate Later(at: map<Sid, nat>, z: Sid, s: Sid) {
    z in at && s in at && at[s] < at[z]
  }

  /** A step that starts no series and nests no series that was started before. */
  lemma {:induction false} SameTimes(w: World, v: World, at: map<Sid, nat>, now: nat)
    requires Timed(w, at, now) && (forall s :: Started(v, s) ==> Started(w, s))
    requires forall z, s :: Nested(v, z, s) && Started(v, z) ==> Nested(w, z, s)
    ensures Timed(v, at, now)
  {
  }

  /** What the lemmas below need of a world in which a series may be between two tasks */
  ghost predicate Sound(w: World) {
    && (forall z :: z in w.ser ==> Child(w, z, w.ser[z]))
    && (forall p :: p in w.par ==> ParallelOk(w, p))
  }

  /** What begins is a task that was waiting: none of the series of a parallel one has been started. */
  lemma {:induction false} BegunNests(w: World, s: Sid, x: Series, t: Task, z: Sid, y: Sid)
    requires Sound(w) && s in w.ser && Waits(w, t, s) && x.parent == w.ser[s].parent
    requires x.parent.Some? ==> x.parent.value in w.par && !w.par[x.parent.value].phase.Built?
    requires var v := Begin(SetSer(w, s, x), s, t); Nested(v, z, y) && Started(v, z)
    ensures y != s && Nested(w, z, y) && (z != s ==> Started(w, z))
  {
    var v := Begin(SetSer(w, s, x), s, t);
    var p := w.ser[z].parent.value;
    assert v.ser[z].parent == w.ser[z].parent && Child(w, z, w.ser[z]) && ParallelOk(w, p);
    if z != s {
      assert v.ser[z] == w.ser[z];
      assert !w.par[p].phase.Built?;
    }
    assert t != Par(p);
  }

  /** A pop starts no series and nests none that was started before. */
  lemma {:induction false} PopTimes(w: World, s: Sid, at: map<Sid, nat>, now: nat)
    requires Turning(w, s) && Timed(w, at, now)
    ensures Timed(Pop(w, s), at, now)
  {
    var x, v := w.ser[s], Pop(w, s);
    TurningSound(w, s);
    forall z, y | Nested(v, z, y) && Started(v, z)
      ensures Nested(w, z, y)
    {
      if !x.canceled && x.rest != [] {
        assert Waits(w, x.rest[0], s);
        BegunNests(w, s, x.(rest := x.rest[1..]), x.rest[0], z, y);
      }
    }
    SameTimes(w, v, at, now);
  }

  lemma {:induction false} TurningSound(w: World, s: Sid)
    requires Turning(w, s)
    ensures Sound(w)
  {
    forall z | z in w.ser
      ensures Child(w, z, w.ser[z])
    {
      if z != s {
        assert SeriesOk(w, z);
      }
    }
  }

  lemma {:induction false} InvSound(w: World)
    requires Inv(w)
    ensures Sound(w)
  {
    forall z | z in w.ser
      ensures Child(w, z, w.ser[z])
    {
      assert SeriesOk(w, z);
    }
  }

  /**
   A series that is started now is later than the one it is nested in, and nothing that was started is nested in it.
   */
  lemma {:induction false} StartTimes(w: World, s: Sid, at: map<Sid, nat>, now: nat)
    requires Inv(w) && Timed(w, at, now) && (Enabled(w, Start(s)) || Enabled(w, StartChild(s)))
    ensures Timed(Begin(w, s, w.ser[s].phase.first), at[s := now], now + 1)
  {
    var x, t := w.ser[s], w.ser[s].phase.first;
    var v, at' := Begin(w, s, t), at[s := now];
    InvSound(w);
    assert SeriesOk(w, s);
    assert SetSer(w, s, x) == w;
    forall z, y | Nested(v, z, y) && Started(v, z)
      ensures Later(at', z, y)
    {
      BegunNests(w, s, x, t, z, y);
      assert Started(w, y);
      assert z != s ==> Later(at, z, y);
    }
    forall z | Started(v, z)
      ensures z in at' && at'[z] < now + 1
    {
      assert z != s ==> Started(w, z);
    }
  }

  lemma {:induction false} UserTimes(w: World, step: Step, at: map<Sid, nat>, now: nat)
    requires Inv(w) && Timed(w, at, now) && Enabled(w, step)
    requires step.NewSeries? || step.NewParallel? || step.AddSeries? || step.Push? || step.Cancel?
    ensures Timed(Apply(w, step), at, now)
  {
    var v := Apply(w, step);
    hide Inv;
    hide Timed;
    forall z, s | Nested(v, z, s) && Started(v, z)
      ensures Nested(w, z, s)
    {
    }
    assert forall s :: Started(v, s) ==> Started(w, s);
    hide Nested;
    hide Started;
    SameTimes(w, v, at, now);
  }

  lemma {:induction false} CountDownTimes(w: World, s: Sid, at: map<Sid, nat>, now: nat)
    requires Inv(w) && Timed(w, at, now) && Enabled(w, CountDown(s))
    ensures Timed(CountDownOf(w, s), at, now)
  {
    SameTimes(w, CountDownOf(w, s), at, now);
  }

  lemma {:induction false} ParallelDoneTimes(w: World, p: Pid, at: map<Sid, nat>, now: nat)
    requires Inv(w) && Timed(w, at, now) && Enabled(w, ParallelDone(p))
    ensures Timed(Apply(w, ParallelDone(p)), at, now)
  {
    var v := SetPar(w, p, w.par[p].(phase := Done, dones := w.par[p].dones + 1));
    SameTimes(w, v, at, now);
    ParallelTurns(w, p);
    PopTimes(v, w.home[p], at, now);
  }

  lemma {:induction false} StepTimes(w: World, step: Step, at: map<Sid, nat>, now: nat)
    returns (at': map<Sid, nat>, now': nat)
    requires Inv(w) && Timed(w, at, now) && Enabled(w, step)
    ensures Timed(Apply(w, step), at', now')
  {
    at', now' := at, now;
    match step
    case Start(s) =>
      StartTimes(w, s, at, now);
      at', now' := at[s := now], now + 1;
    case StartChild(s) =>
      StartTimes(w, s, at, now);
      at', now' := at[s := now], now + 1;
    case LeafDone(s) =>
      LeafTurns(w, s);
      PopTimes(w, s, at, now);
    case ParallelDone(p) => ParallelDoneTimes(w, p, at, now);
    case CountDown(s) => CountDownTimes(w, s, at, now);
    case _ => UserTimes(w, step, at, now);
  }

  lemma {:induction false} RunTimes(w: World, steps: seq<Step>, v: World, at: map<Sid, nat>, now: nat)
    returns (at': map<Sid, nat>, now': nat)
    requires Inv(w) && Timed(w, at, now) && Runs(w, steps, v)
    ensures Timed(v, at', now')
    decreases |steps|
  {
    at', now' := at, now;
    if steps != [] {
      StepKeeps(w, steps[0]);
      at', now' := StepTimes(w, steps[0], at, now);
      at', now' := RunTimes(Apply(w, steps[0]), steps[1..], v, at', now');
    }
  }

  // ----- somebody can go on -----

  /** A step of the engine for this series: it is started, its task ends, or its end is counted. */
  predicate Moves(w: World, z: Sid, step: Step) {
    && z in w.ser && Enabled(w, step)
    && (step == StartChild(z) || step == LeafDone(z) || step == CountDown(z)
        || (step.ParallelDone? && w.ser[z].phase == Running(Par(step.p))))
  }

  /** Each series of the chain is nested in the one before it. */
  predicate Chain(w: World, chain: seq<Sid>) {
    forall i :: 0 < i < |chain| ==> Nested(w, chain[i], chain[i - 1])
  }

  /** A waiting parallel task has a series that is not over. */
  lemma {:induction false} OneLeft(w: World, s: Sid, p: Pid) returns (z: Sid)
    requires Inv(w) && s in w.ser && w.ser[s].phase == Running(Par(p)) && p in w.par && w.par[p].phase.Waiting?
    ensures Nested(w, z, s) && !w.ser[z].phase.Over?
  {
    assert ParallelOk(w, p);
    var left := Left(w, w.par[p].series);
    assert left != {};
    z :| z in left;
  }

  lemma {:induction false} ChainOn(w: World, s: Sid, chain: seq<Sid>)
    requires Chain(w, chain) && chain != [] && Nested(w, chain[0], s)
    ensures Chain(w, [s] + chain)
  {
    var c := [s] + chain;
    forall i | 0 < i < |c|
      ensures Nested(w, c[i], c[i - 1])
    {
      if i > 1 {
        assert Nested(w, chain[i - 1], chain[i - 2]);
      }
    }
  }

  lemma {:induction false} GoesOn(w: World, s: Sid, at: map<Sid, nat>, now: nat) returns (chain: seq<Sid>, step: Step)
    requires Inv(w) && Timed(w, at, now) && Started(w, s) && !w.ser[s].phase.Over?
    ensures chain != [] && chain[0] == s && Chain(w, chain) && Moves(w, chain[|chain| - 1], step)
    decreases now - (if s in at then at[s] else 0)
  {
    var x := w.ser[s];
    assert SeriesOk(w, s);
    chain := [s];
    if x.phase.Ending? {
      step := CountDown(s);
    } else if x.phase.cur.Leaf? {
      step := LeafDone(s);
    } else if w.par[x.phase.cur.p].phase.Ready? {
      step := ParallelDone(x.phase.cur.p);
    } else {
      var z := OneLeft(w, s, x.phase.cur.p);
      if Started(w, z) {
        assert Later(at, z, s);
        chain, step := GoesOn(w, z, at, now);
      } else {
        chain, step := [z], StartChild(z);
      }
      ChainOn(w, s, chain);
      chain := [s] + chain;
    }
  }

  /**
   In every run, while a series that was started is not over, the engine can go on with it or with one nested in it.
   */
  lemma {:induction false} NeverStuck(w: World, s: Sid) returns (chain: seq<Sid>, step: Step)
    requires Reachable(w) && Started(w, s) && !w.ser[s].phase.Over?
    ensures chain != [] && chain[0] == s && Chain(w, chain) && Moves(w, chain[|chain| - 1], step)
  {
    ReachableInv(w);
    var empty := World(map[], map[], map[]);
    var steps :| Runs(empty, steps, w);
    var at, now := RunTimes(empty, steps, w, map[], 0);
    chain, step := GoesOn(w, s, at, now);
  }
}
