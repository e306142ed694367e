/**
 Serial and parallel tasks: SubTask::subtask_done and ParallelTask::dispatch in src/kernel/SubTask.cc, with
 the series and parallel works of src/factory/Workflow.cc.

 A series runs one task at a time; a parallel task runs a set of series and is itself a task of some
 series, to any depth.  A step is one completion, one pop, one atomic decrement of nleft, or one call of
 the user's.  What a series still has to run is a sequence; its ring buffer is modelled in module Series.
 */
module TaskEngine {
  import opened Basics

  type Sid = nat
  type Pid = nat

  datatype Task = Leaf(id: nat) | Par(p: Pid)

  /** Not started; running a task; popped its end but not yet counted; over. */
  datatype SeriesPhase = Fresh(first: Task) | Running(cur: Task) | Ending | Over

  /** Not dispatched; some series not over; all over but done() not called; done() called. */
  datatype ParallelPhase = Built | Waiting | Ready | Done

  datatype Series = Series(rest: seq<Task>, phase: SeriesPhase, parent: Option<Pid>, canceled: bool, ends: nat)

  datatype Parallel = Parallel(series: set<Sid>, phase: ParallelPhase, nleft: int, dones: nat)

  /** `home` is the series a parallel task was given to. */
  datatype World = World(ser: map<Sid, Series>, par: map<Pid, Parallel>, home: map<Pid, Sid>)

  datatype Step =
    | NewSeries(s: Sid, first: Task) | NewParallel(p: Pid) | AddSeries(p: Pid, s: Sid)
    | Push(s: Sid, i: nat, t: Task) | Cancel(s: Sid)
    | Start(s: Sid) | StartChild(s: Sid) | LeafDone(s: Sid) | ParallelDone(p: Pid) | CountDown(s: Sid)

  /** A task that may be given to a series: a leaf, or a parallel task that is in no series yet. */
  predicate Free(w: World, t: Task) {
    t.Par? ==> t.p in w.par && t.p !in w.home
  }

  predicate Enabled(w: World, s: Step) {
    match s
    case NewSeries(s, first) => s !in w.ser && Free(w, first)
    case NewParallel(p) => p !in w.par
    case AddSeries(p, s) =>
      && p in w.par && w.par[p].phase.Built?
      && s in w.ser && w.ser[s].phase.Fresh? && w.ser[s].parent.None?
    case Push(s, i, t) =>
      && s in w.ser && !w.ser[s].phase.Ending? && !w.ser[s].phase.Over?
      && i <= |w.ser[s].rest| && Free(w, t)
    case Cancel(s) => s in w.ser
    case Start(s) => s in w.ser && w.ser[s].phase.Fresh? && w.ser[s].parent.None?
    case StartChild(s) =>
      && s in w.ser && w.ser[s].phase.Fresh? && w.ser[s].parent.Some?
      && w.ser[s].parent.value in w.par && w.par[w.ser[s].parent.value].phase.Waiting?
    case LeafDone(s) => s in w.ser && w.ser[s].phase.Running? && w.ser[s].phase.cur.Leaf?
    case ParallelDone(p) => p in w.par && w.par[p].phase.Ready? && p in w.home && w.home[p] in w.ser
    case CountDown(s) =>
      && s in w.ser && w.ser[s].phase.Ending?
      && (w.ser[s].parent.Some? ==> w.ser[s].parent.value in w.par)
  }

  function SetSer(w: World, s: Sid, x: Series): World {
    w.(ser := w.ser[s := x])
  }

  function SetPar(w: World, p: Pid, y: Parallel): World {
    w.(par := w.par[p := y])
  }

  function Place(w: World, t: Task, s: Sid): World {
    if t.Par? then w.(home := w.home[t.p := s]) else w
  }

  /** dispatch: a parallel task without series is done at once. */
  function Dispatch(y: Parallel): Parallel {
    y.(nleft := |y.series|, phase := if y.series == {} then Ready else Waiting)
  }

  function Begin(w: World, s: Sid, t: Task): World
    requires s in w.ser
  {
    var v := SetSer(w, s, w.ser[s].(phase := Running(t)));
    if t.Par? && t.p in w.par then SetPar(v, t.p, Dispatch(w.par[t.p])) else v
  }

  /** The series' pop: the next task, or the end; a canceled series drops what is left. */
  function Pop(w: World, s: Sid): World
    requires s in w.ser
  {
    var x := w.ser[s];
    if x.canceled || x.rest == [] then SetSer(w, s, x.(rest := [], phase := Ending, ends := x.ends + 1))
    else Begin(SetSer(w, s, x.(rest := x.rest[1..])), s, x.rest[0])
  }

  /** The atomic decrement of the parent's nleft, and whether it was the last one */
  function CountDownOf(w: World, s: Sid): World
    requires s in w.ser && (w.ser[s].parent.Some? ==> w.ser[s].parent.value in w.par)
  {
    var x := w.ser[s];
    var v := SetSer(w, s, x.(phase := Over));
    if x.parent.None? then v
    else
      var y := w.par[x.parent.value];
      SetPar(v, x.parent.value, y.(nleft := y.nleft - 1, phase := if y.nleft - 1 == 0 then Ready else y.phase))
  }

  function Apply(w: World, s: Step): World
    requires Enabled(w, s)
  {
    match s
    case NewSeries(s, first) => Place(SetSer(w, s, Series([], Fresh(first), None, false, 0)), first, s)
    case NewParallel(p) => SetPar(w, p, Parallel({}, Built, 0, 0))
    case AddSeries(p, s) =>
      SetPar(SetSer(w, s, w.ser[s].(parent := Some(p))), p, w.par[p].(series := w.par[p].series + {s}))
    case Push(s, i, t) =>
      var x := w.ser[s];
      Place(SetSer(w, s, x.(rest := x.rest[..i] + [t] + x.rest[i..])), t, s)
    case Cancel(s) => SetSer(w, s, w.ser[s].(canceled := true))
    case Start(s) => Begin(w, s, w.ser[s].phase.first)
    case StartChild(s) => Begin(w, s, w.ser[s].phase.first)
    case LeafDone(s) => Pop(w, s)
    case ParallelDone(p) => Pop(SetPar(w, p, w.par[p].(phase := Done, dones := w.par[p].dones + 1)), w.home[p])
    case CountDown(s) => CountDownOf(w, s)
  }

  // ----- what every step keeps -----

  /** A task that waits in series s: if parallel, it was given to s and is not dispatched. */
  predicate Waits(w: World, t: Task, s: Sid) {
    t.Par? ==> t.p in w.par && t.p in w.home && w.home[t.p] == s && w.par[t.p].phase.Built?
  }

  predicate Distinct(rest: seq<Task>) {
    forall i, j :: 0 <= i < j < |rest| && rest[i].Par? ==> rest[i] != rest[j]
  }

  ghost predicate Queue(w: World, s: Sid, x: Series) {
    && (forall i :: 0 <= i < |x.rest| ==> Waits(w, x.rest[i], s)) && Distinct(x.rest)
    && (x.phase.Fresh? ==> Waits(w, x.phase.first, s) && (x.phase.first.Par? ==> x.phase.first !in x.rest))
  }

  predicate Child(w: World, s: Sid, x: Series) {
    x.parent.Some? ==>
      && x.parent.value in w.par && s in w.par[x.parent.value].series
      && (match x.phase
          case Fresh(_) => w.par[x.parent.value].phase.Built? || w.par[x.parent.value].phase.Waiting?
          case Over => true
          case _ => w.par[x.parent.value].phase.Waiting?)
  }

  ghost predicate SeriesOk(w: World, s: Sid)
    requires s in w.ser
  {
    var x := w.ser[s];
    && Queue(w, s, x) && Child(w, s, x) && x.ends == One(x.phase.Ending? || x.phase.Over?)
    && (x.phase.Running? && x.phase.cur.Par? ==>
          x.phase.cur.p in w.par && x.phase.cur.p in w.home && w.home[x.phase.cur.p] == s
          && (w.par[x.phase.cur.p].phase.Waiting? || w.par[x.phase.cur.p].phase.Ready?))
  }

  /** The series that are not over. */
  function Left(w: World, members: set<Sid>): set<Sid> {
    set s | s in members && s in w.ser && !w.ser[s].phase.Over?
  }

  ghost predicate Members(w: World, p: Pid, y: Parallel) {
    forall s :: s in y.series ==>
      s in w.ser && w.ser[s].parent == Some(p)
      && (y.phase.Built? ==> w.ser[s].phase.Fresh?) && (y.phase.Ready? || y.phase.Done? ==> w.ser[s].phase.Over?)
  }

  ghost predicate ParallelOk(w: World, p: Pid)
    requires p in w.par
  {
    var y := w.par[p];
    && Members(w, p, y) && y.dones == One(y.phase.Done?) && (p !in w.home ==> y.phase.Built?)
    && (y.phase.Waiting? ==> y.nleft == |Left(w, y.series)| && y.nleft > 0)
    && (y.phase.Waiting? || y.phase.Ready? ==> p in w.home && w.home[p] in w.ser
                                               && w.ser[w.home[p]].phase == Running(Par(p)))
  }

  ghost predicate Inv(w: World) {
    && (forall s :: s in w.ser ==> SeriesOk(w, s))
    && (forall p :: p in w.par ==> ParallelOk(w, p))
  }

  lemma {:induction false} CancelKeeps(w: World, s: Sid)
    requires Inv(w) && s in w.ser
    ensures Inv(SetSer(w, s, w.ser[s].(canceled := true)))
  {
    var v := SetSer(w, s, w.ser[s].(canceled := true));
    forall p | p in v.par
      ensures ParallelOk(v, p)
    {
      assert ParallelOk(w, p);
      assert Left(v, v.par[p].series) == Left(w, w.par[p].series);
    }
    forall z | z in v.ser
      ensures SeriesOk(v, z)
    {
      assert SeriesOk(w, z);
    }
  }

  /** A series with the same phase, parent and so on counts the same. */
  lemma {:induction false} LeftSame(w: World, v: World, members: set<Sid>)
    requires forall s :: s in members ==> (s in w.ser <==> s in v.ser)
                                          && (s in w.ser ==> (w.ser[s].phase.Over? <==> v.ser[s].phase.Over?))
    ensures Left(v, members) == Left(w, members)
  {
  }

  lemma {:induction false} LeftFresh(w: World, members: set<Sid>)
    requires forall s :: s in members ==> s in w.ser && w.ser[s].phase.Fresh?
    ensures Left(w, members) == members
  {
  }

  lemma {:induction false} LeftLess(w: World, v: World, members: set<Sid>, s: Sid)
    requires s in members && s in w.ser && !w.ser[s].phase.Over? && v.ser == w.ser[s := w.ser[s].(phase := Over)]
    ensures |Left(v, members)| == |Left(w, members)| - 1
    ensures |Left(w, members)| == 1 ==> Left(v, members) == {}
  {
    assert Left(v, members) == Left(w, members) - {s};
  }

  /** Nothing left means all over. */
  lemma {:induction false} LeftNone(w: World, members: set<Sid>, s: Sid)
    requires Left(w, members) == {} && s in members && s in w.ser
    ensures w.ser[s].phase.Over?
  {
    assert s !in Left(w, members);
  }

  lemma {:induction false} NewSeriesKeeps(w: World, s: Sid, first: Task)
    requires Inv(w) && s !in w.ser && Free(w, first)
    ensures Inv(Place(SetSer(w, s, Series([], Fresh(first), None, false, 0)), first, s))
  {
    var v := Place(SetSer(w, s, Series([], Fresh(first), None, false, 0)), first, s);
    forall p | p in v.par
      ensures ParallelOk(v, p)
    {
      assert ParallelOk(w, p);
      LeftSame(w, v, w.par[p].series);
    }
    forall z | z in v.ser
      ensures SeriesOk(v, z)
    {
      if z != s {
        assert SeriesOk(w, z);
      } else if first.Par? {
        assert ParallelOk(w, first.p);
      }
    }
  }

  lemma {:induction false} NewParallelKeeps(w: World, p: Pid)
    requires Inv(w) && p !in w.par
    ensures Inv(SetPar(w, p, Parallel({}, Built, 0, 0)))
  {
    var v := SetPar(w, p, Parallel({}, Built, 0, 0));
    forall q | q in v.par
      ensures ParallelOk(v, q)
    {
      if q != p {
        assert ParallelOk(w, q);
        LeftSame(w, v, w.par[q].series);
      }
    }
    forall z | z in v.ser
      ensures SeriesOk(v, z)
    {
      assert SeriesOk(w, z);
    }
  }

  lemma {:induction false} AddSeriesKeeps(w: World, p: Pid, s: Sid)
    requires Inv(w) && Enabled(w, AddSeries(p, s))
    ensures Inv(SetPar(SetSer(w, s, w.ser[s].(parent := Some(p))), p, w.par[p].(series := w.par[p].series + {s})))
  {
    var v := SetPar(SetSer(w, s, w.ser[s].(parent := Some(p))), p, w.par[p].(series := w.par[p].series + {s}));
    hide ParallelOk;
    hide SeriesOk;
    forall q | q in v.par
      ensures ParallelOk(v, q)
    {
      AddedParallel(w, p, s, q);
    }
    forall z | z in v.ser
      ensures SeriesOk(v, z)
    {
      AddedSeries(w, p, s, z);
    }
  }

  lemma {:induction false} AddedParallel(w: World, p: Pid, s: Sid, q: Pid)
    requires Inv(w) && Enabled(w, AddSeries(p, s)) && q in w.par
    ensures ParallelOk(Apply(w, AddSeries(p, s)), q)
  {
    var v := Apply(w, AddSeries(p, s));
    hide SeriesOk;
    assert ParallelOk(w, q);
    if q != p {
      assert s !in w.par[q].series;
      LeftSame(w, v, w.par[q].series);
    }
  }

  lemma {:induction false} AddedSeries(w: World, p: Pid, s: Sid, z: Sid)
    requires Inv(w) && Enabled(w, AddSeries(p, s)) && z in w.ser
    ensures SeriesOk(Apply(w, AddSeries(p, s)), z)
  {
    hide ParallelOk;
    assert SeriesOk(w, z);
  }

  lemma {:induction false} InsertDistinct(rest: seq<Task>, i: nat, t: Task)
    requires Distinct(rest) && i <= |rest| && (t.Par? ==> t !in rest)
    ensures Distinct(rest[..i] + [t] + rest[i..])
    ensures forall x :: x in rest[..i] + [t] + rest[i..] ==> x == t || x in rest
  {
  }

  lemma {:induction false} NotQueued(w: World, s: Sid, t: Task)
    requires s in w.ser && SeriesOk(w, s) && Free(w, t) && t.Par?
    ensures t !in w.ser[s].rest
  {
    assert forall k :: 0 <= k < |w.ser[s].rest| ==> Waits(w, w.ser[s].rest[k], s);
  }

  lemma {:induction false} PushKeeps(w: World, s: Sid, i: nat, t: Task)
    requires Inv(w) && Enabled(w, Push(s, i, t))
    ensures Inv(Apply(w, Push(s, i, t)))
  {
    var x := w.ser[s];
    var rest := x.rest[..i] + [t] + x.rest[i..];
    assert SeriesOk(w, s);
    if t.Par? {
      NotQueued(w, s, t);
    }
    InsertDistinct(x.rest, i, t);
    PushedWorld(w, s, rest, t);
  }

  lemma {:induction false} PushedWorld(w: World, s: Sid, rest: seq<Task>, t: Task)
    requires Inv(w) && s in w.ser && Free(w, t) && Distinct(rest)
    requires (forall y :: y in rest ==> y == t || y in w.ser[s].rest)
    ensures Inv(Place(SetSer(w, s, w.ser[s].(rest := rest)), t, s))
  {
    var v := Place(SetSer(w, s, w.ser[s].(rest := rest)), t, s);
    forall p | p in v.par
      ensures ParallelOk(v, p)
    {
      PushedParallel(w, s, rest, t, v, p);
    }
    forall z | z in v.ser
      ensures SeriesOk(v, z)
    {
      PushedSeries(w, s, rest, t, v, z);
    }
  }

  lemma {:induction false} PushedParallel(w: World, s: Sid, rest: seq<Task>, t: Task, v: World, p: Pid)
    requires Inv(w) && s in w.ser && Free(w, t) && v == Place(SetSer(w, s, w.ser[s].(rest := rest)), t, s) && p in v.par
    ensures ParallelOk(v, p)
  {
    hide SeriesOk;
    assert ParallelOk(w, p);
    LeftSame(w, v, w.par[p].series);
  }

  lemma {:induction false} PushedSeries(w: World, s: Sid, rest: seq<Task>, t: Task, v: World, z: Sid)
    requires Inv(w) && s in w.ser && Free(w, t) && v == Place(SetSer(w, s, w.ser[s].(rest := rest)), t, s) && z in v.ser
    requires Distinct(rest) && (forall y :: y in rest ==> y == t || y in w.ser[s].rest)
    ensures SeriesOk(v, z)
  {
    assert SeriesOk(w, z) && (t.Par? ==> ParallelOk(w, t.p));
    if z == s {
      PushQueue(w, v, s, w.ser[s], rest, t);
    }
  }

  lemma {:induction false} PushQueue(w: World, v: World, s: Sid, x: Series, rest: seq<Task>, t: Task)
    requires s in w.ser && x == w.ser[s] && SeriesOk(w, s) && Free(w, t) && Distinct(rest)
    requires (forall y :: y in rest ==> y == t || y in x.rest)
    requires v == Place(SetSer(w, s, x.(rest := rest)), t, s) && (t.Par? ==> w.par[t.p].phase.Built?)
    ensures Queue(v, s, x.(rest := rest))
  {
    forall k | 0 <= k < |rest|
      ensures Waits(v, rest[k], s)
    {
      assert rest[k] in rest;
      if rest[k] != t {
        var j :| 0 <= j < |x.rest| && x.rest[j] == rest[k];
        assert Waits(w, x.rest[j], s);
      }
    }
    if x.phase.Fresh? && x.phase.first.Par? {
      assert x.phase.first != t;
    }
  }

  // ----- running -----

  /** All is well, but what series s was running is over. */
  ghost predicate Turning(w: World, s: Sid) {
    && s in w.ser && w.ser[s].phase.Running?
    && (forall p :: p in w.par ==> ParallelOk(w, p))
    && (forall z :: z in w.ser && z != s ==> SeriesOk(w, z))
    && Queue(w, s, w.ser[s]) && Child(w, s, w.ser[s]) && w.ser[s].ends == 0
    && (w.ser[s].phase.cur.Par? ==> w.ser[s].phase.cur.p in w.par && w.par[w.ser[s].phase.cur.p].phase.Done?)
  }

  /** Series s begins task t, which was waiting in it. */
  lemma {:induction false} BegunParallel(w: World, s: Sid, x: Series, t: Task, q: Pid)
    requires s in w.ser && q in w.par && ParallelOk(w, q) && Waits(w, t, s)
    requires (t.Par? ==> t.p in w.par && ParallelOk(w, t.p))
    requires !w.ser[s].phase.Over?
    requires !(w.ser[s].phase == Running(Par(q)) && (w.par[q].phase.Waiting? || w.par[q].phase.Ready?))
    requires x.parent == w.ser[s].parent
    requires x.parent.Some? && w.ser[s].phase.Fresh? ==>
               x.parent.value in w.par && !w.par[x.parent.value].phase.Built?
    ensures ParallelOk(Begin(SetSer(w, s, x), s, t), q)
  {
    var v := Begin(SetSer(w, s, x), s, t);
    LeftSame(w, v, w.par[q].series);
    if t == Par(q) {
      LeftFresh(w, w.par[q].series);
      assert Left(v, w.par[q].series) == w.par[q].series;
    }
  }

  /** The other series when s begins task t. */
  lemma {:induction false} BegunSeries(w: World, s: Sid, x: Series, t: Task, z: Sid)
    requires s in w.ser && z in w.ser && z != s && SeriesOk(w, z) && Waits(w, t, s)
    ensures SeriesOk(Begin(SetSer(w, s, x), s, t), z)
  {
    var v := Begin(SetSer(w, s, x), s, t);
    var y := w.ser[z];
    assert v.ser[z] == y;
    forall i | 0 <= i < |y.rest|
      ensures Waits(v, y.rest[i], z)
    {
      assert Waits(w, y.rest[i], z);
    }
  }

  /** The series itself, beginning its first or its next one. */
  lemma {:induction false} BegunSelf(w: World, s: Sid, x: Series, t: Task)
    requires s in w.ser && Waits(w, t, s) && x.ends == 0 && Distinct(x.rest) && (t.Par? ==> t !in x.rest)
    requires forall i :: 0 <= i < |x.rest| ==> Waits(w, x.rest[i], s)
    requires x.parent.Some? ==> x.parent.value in w.par && s in w.par[x.parent.value].series
                                && w.par[x.parent.value].phase.Waiting?
    ensures SeriesOk(Begin(SetSer(w, s, x), s, t), s)
  {
    var v := Begin(SetSer(w, s, x), s, t);
    forall i | 0 <= i < |x.rest|
      ensures Waits(v, x.rest[i], s)
    {
      assert Waits(w, x.rest[i], s);
      assert x.rest[i] in x.rest;
    }
  }

  lemma {:induction false} StartKeeps(w: World, s: Sid)
    requires Inv(w) && (Enabled(w, Start(s)) || Enabled(w, StartChild(s)))
    ensures Inv(Begin(w, s, w.ser[s].phase.first))
  {
    var x, t := w.ser[s], w.ser[s].phase.first;
    assert SeriesOk(w, s);
    assert SetSer(w, s, x) == w;
    var v := Begin(w, s, t);
    forall p | p in v.par
      ensures ParallelOk(v, p)
    {
      assert ParallelOk(w, p);
      assert t.Par? ==> ParallelOk(w, t.p);
      BegunParallel(w, s, x, t, p);
    }
    forall z | z in v.ser
      ensures SeriesOk(v, z)
    {
      if z == s {
        BegunSelf(w, s, x, t);
      } else {
        assert SeriesOk(w, z);
        BegunSeries(w, s, x, t, z);
      }
    }
  }

  lemma {:induction false} NextKeeps(w: World, s: Sid)
    requires Turning(w, s) && w.ser[s].rest != []
    ensures Inv(Begin(SetSer(w, s, w.ser[s].(rest := w.ser[s].rest[1..])), s, w.ser[s].rest[0]))
  {
    var t, x := w.ser[s].rest[0], w.ser[s].(rest := w.ser[s].rest[1..]);
    assert Waits(w, t, s);
    NextDistinct(w.ser[s].rest);
    var v := Begin(SetSer(w, s, x), s, t);
    forall p | p in v.par
      ensures ParallelOk(v, p)
    {
      assert ParallelOk(w, p);
      assert t.Par? ==> ParallelOk(w, t.p);
      BegunParallel(w, s, x, t, p);
    }
    forall z | z in v.ser
      ensures SeriesOk(v, z)
    {
      if z == s {
        BegunSelf(w, s, x, t);
      } else {
        BegunSeries(w, s, x, t, z);
      }
    }
  }

  lemma {:induction false} NextDistinct(rest: seq<Task>)
    requires Distinct(rest) && rest != []
    ensures Distinct(rest[1..]) && (rest[0].Par? ==> rest[0] !in rest[1..])
  {
  }

  lemma {:induction false} EndKeeps(w: World, s: Sid)
    requires Turning(w, s)
    ensures Inv(SetSer(w, s, w.ser[s].(rest := [], phase := Ending, ends := w.ser[s].ends + 1)))
  {
    var v := SetSer(w, s, w.ser[s].(rest := [], phase := Ending, ends := w.ser[s].ends + 1));
    forall p | p in v.par
      ensures ParallelOk(v, p)
    {
      assert ParallelOk(w, p);
      LeftSame(w, v, w.par[p].series);
    }
    forall z | z in v.ser
      ensures SeriesOk(v, z)
    {
      if z != s {
        assert SeriesOk(w, z);
      }
    }
  }

  lemma {:induction false} PopKeeps(w: World, s: Sid)
    requires Turning(w, s)
    ensures Inv(Pop(w, s))
  {
    hide Inv;
    hide SetSer;
    hide Begin;
    if w.ser[s].canceled || w.ser[s].rest == [] {
      EndKeeps(w, s);
    } else {
      NextKeeps(w, s);
    }
  }

  lemma {:induction false} LeafTurns(w: World, s: Sid)
    requires Inv(w) && Enabled(w, LeafDone(s))
    ensures Turning(w, s)
  {
    assert SeriesOk(w, s);
  }

  lemma {:induction false} ParallelTurns(w: World, p: Pid)
    requires Inv(w) && Enabled(w, ParallelDone(p))
    ensures Turning(SetPar(w, p, w.par[p].(phase := Done, dones := w.par[p].dones + 1)), w.home[p])
  {
    var v, s := SetPar(w, p, w.par[p].(phase := Done, dones := w.par[p].dones + 1)), w.home[p];
    assert ParallelOk(w, p) && SeriesOk(w, s);
    forall q | q in v.par
      ensures ParallelOk(v, q)
    {
      assert ParallelOk(w, q);
      LeftSame(w, v, w.par[q].series);
    }
    forall z | z in v.ser && z != s
      ensures SeriesOk(v, z)
    {
      assert SeriesOk(w, z);
    }
  }

  lemma {:induction false} CountDownKeeps(w: World, s: Sid)
    requires Inv(w) && Enabled(w, CountDown(s))
    ensures Inv(CountDownOf(w, s))
  {
    var v := CountDownOf(w, s);
    assert SeriesOk(w, s);
    forall q | q in v.par
      ensures ParallelOk(v, q)
    {
      assert ParallelOk(w, q);
      CountedParallel(w, s, q);
    }
    forall z | z in v.ser
      ensures SeriesOk(v, z)
    {
      assert SeriesOk(w, z);
      CountedSeries(w, s, z);
    }
  }

  lemma {:induction false} CountedParallel(w: World, s: Sid, q: Pid)
    requires Inv(w) && Enabled(w, CountDown(s)) && q in w.par
    ensures ParallelOk(CountDownOf(w, s), q)
  {
    var v, x := CountDownOf(w, s), w.ser[s];
    assert ParallelOk(w, q) && SeriesOk(w, s);
    if x.parent == Some(q) {
      LeftLess(w, v, w.par[q].series, s);
      forall z | z in w.par[q].series && v.par[q].phase.Ready?
        ensures v.ser[z].phase.Over?
      {
        LeftNone(v, w.par[q].series, z);
      }
    } else {
      assert s !in w.par[q].series;
      LeftSame(w, v, w.par[q].series);
    }
  }

  lemma {:induction false} CountedSeries(w: World, s: Sid, z: Sid)
    requires Inv(w) && Enabled(w, CountDown(s)) && z in w.ser
    ensures SeriesOk(CountDownOf(w, s), z)
  {
    var v, x := CountDownOf(w, s), w.ser[s];
    assert SeriesOk(w, z) && SeriesOk(w, s);
    if x.parent.Some? {
      assert ParallelOk(w, x.parent.value);
      CountedParallel(w, s, x.parent.value);
    }
  }

  lemma {:induction false} StepKeeps(w: World, s: Step)
    requires Inv(w) && Enabled(w, s)
    ensures Inv(Apply(w, s))
  {
    match s
    case NewSeries(s, first) => NewSeriesKeeps(w, s, first);
    case NewParallel(p) => NewParallelKeeps(w, p);
    case AddSeries(p, s) => AddSeriesKeeps(w, p, s);
    case Push(s, i, t) => PushKeeps(w, s, i, t);
    case Cancel(s) => CancelKeeps(w, s);
    case Start(s) => StartKeeps(w, s);
    case StartChild(s) => StartKeeps(w, s);
    case LeafDone(s) => LeafTurns(w, s); PopKeeps(w, s);
    case ParallelDone(p) =>
      ParallelTurns(w, p);
      PopKeeps(SetPar(w, p, w.par[p].(phase := Done, dones := w.par[p].dones + 1)), w.home[p]);
    case CountDown(s) => CountDownKeeps(w, s);
  }

  // ----- whole runs -----

  ghost predicate Runs(w: World, steps: seq<Step>, v: World)
    decreases |steps|
  {
    if steps == [] then w == v else Enabled(w, steps[0]) && Runs(Apply(w, steps[0]), steps[1..], v)
  }

  ghost predicate Reachable(w: World) {
    exists steps :: Runs(World(map[], map[], map[]), steps, w)
  }

  lemma {:induction false} RunKeeps(w: World, steps: seq<Step>, v: World)
    requires Inv(w) && Runs(w, steps, v)
    ensures Inv(v)
    decreases |steps|
  {
    if steps != [] {
      StepKeeps(w, steps[0]);
      RunKeeps(Apply(w, steps[0]), steps[1..], v);
    }
  }

  lemma {:induction false} ReachableInv(w: World)
    requires Reachable(w)
    ensures Inv(w)
  {
    var steps :| Runs(World(map[], map[], map[]), steps, w);
    RunKeeps(World(map[], map[], map[]), steps, w);
  }

  /** A parallel task's done() runs at most once, and only when each of its series has ended, once. */
  lemma {:induction false} DoneAfterAllSeries(w: World, p: Pid, s: Sid)
    requires Reachable(w) && p in w.par
    ensures w.par[p].dones <= 1
    ensures (Enabled(w, ParallelDone(p)) || w.par[p].dones == 1) && s in w.par[p].series ==>
              s in w.ser && w.ser[s].phase.Over? && w.ser[s].ends == 1
  {
    ReachableInv(w);
    assert ParallelOk(w, p);
    assert s in w.ser ==> SeriesOk(w, s);
  }

  /**
   No completion is lost: once dispatched and with all its series over, a parallel task's done() runs next or has run.
   */
  lemma {:induction false} DoneNotForgotten(w: World, p: Pid)
    requires Reachable(w) && p in w.par && !w.par[p].phase.Built?
    requires forall s :: s in w.par[p].series ==> s in w.ser && w.ser[s].phase.Over?
    ensures w.par[p].dones == 1 || Enabled(w, ParallelDone(p))
  {
    ReachableInv(w);
    assert ParallelOk(w, p);
    assert Left(w, w.par[p].series) == {};
  }

  /** While it waits, nleft is the number of its series that are not over. */
  lemma {:induction false} CountdownExact(w: World, p: Pid)
    requires Reachable(w) && p in w.par && w.par[p].phase.Waiting?
    ensures w.par[p].nleft == |Left(w, w.par[p].series)| > 0
  {
    ReachableInv(w);
    assert ParallelOk(w, p);
  }

  /** A series ends at most once, also when canceled, and never while it still has a task running. */
  lemma {:induction false} SeriesEndsOnce(w: World, s: Sid)
    requires Reachable(w) && s in w.ser
    ensures w.ser[s].ends == One(w.ser[s].phase.Ending? || w.ser[s].phase.Over?)
    ensures w.ser[s].phase.Running? && w.ser[s].phase.cur.Par? ==>
              w.ser[s].phase.cur.p in w.par && w.par[w.ser[s].phase.cur.p].dones == 0
  {
    ReachableInv(w);
    assert SeriesOk(w, s);
    if w.ser[s].phase.Running? && w.ser[s].phase.cur.Par? {
      assert ParallelOk(w, w.ser[s].phase.cur.p);
    }
  }
}
