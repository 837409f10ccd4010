/** The lock-free ScopeRunner: one atomic `count`, taken by compare-and-swap loops. */
module ScopeRunner {
  import opened Threads

  /** Where a thread is, with its local `expected`. */
  datatype PC =
    | Idle
    | LLoad                     // continue_lock: expected = count
    | LLoop(expected: int)      //                while (expected >= 0 && !cas_weak(count, expected, expected + 1))
    | Live                      // a SharedLock is held
    | Denied                    // continue_lock returned null
    | SSwap                     // stop:          cas_weak(count, 0, -1)
    | STest(expected: int)      //                the swap failed and left count in expected
    | Stopped                   // stop has returned

  datatype State = State(count: int, pcs: map<Tid, PC>)

  ghost predicate Init(s: State) { s == State(0, map[]) }

  function Goto(s: State, t: Tid, pc: PC): State {
    s.(pcs := s.pcs[t := pc])
  }

  /** One atomic action of thread `t`. A weak compare-and-swap may fail even when the
      values agree; a failed one loads the current value. */
  ghost predicate Step(s: State, s': State, t: Tid) {
    t in s.pcs &&
    match s.pcs[t]
    case Idle => s' == Goto(s, t, LLoad) || s' == Goto(s, t, SSwap)
    case LLoad => s' == Goto(s, t, LLoop(s.count))
    case LLoop(e) =>
      if e < 0 then s' == Goto(s, t, Denied)
      else
        || (s.count == e && s' == Goto(s, t, Live).(count := e + 1))
        || s' == Goto(s, t, LLoop(s.count))
    case Live => s' == Goto(s, t, Idle).(count := s.count - 1)
    case Denied => s' == Goto(s, t, Idle)
    case SSwap =>
      || (s.count == 0 && s' == Goto(s, t, Stopped).(count := -1))
      || s' == Goto(s, t, STest(s.count))
    case STest(e) => s' == Goto(s, t, if e < 0 then Stopped else SSwap)
    case Stopped => s' == Goto(s, t, Idle)
  }

  ghost predicate Spawn(s: State, s': State, t: Tid) {
    t !in s.pcs && s' == Goto(s, t, Idle)
  }

  ghost predicate Next(s: State, s': State) {
    exists t :: Step(s, s', t) || Spawn(s, s', t)
  }

  ghost predicate Reached(tr: seq<State>, i: nat)
    requires 0 < i < |tr|
  {
    Next(tr[i - 1], tr[i])
  }

  ghost predicate Run(tr: seq<State>) {
    |tr| > 0 && Init(tr[0]) && forall i :: 0 < i < |tr| ==> Reached(tr, i)
  }

  // ----- the inductive invariant

  predicate IsLive(pc: PC) { pc.Live? }

  /** Program points that only a successful stop makes reachable. */
  predicate SawStop(pc: PC) {
    pc.Denied? || pc.Stopped? || (pc.LLoop? && pc.expected < 0) || (pc.STest? && pc.expected < 0)
  }

  ghost predicate Inv(s: State) {
    && (s.count == |At(s.pcs, IsLive)| || (s.count == -1 && |At(s.pcs, IsLive)| == 0))
    && (forall t :: t in s.pcs && SawStop(s.pcs[t]) ==> s.count == -1)
  }

  /** The invariant holds on, and once the count is -1 it stays so. */
  lemma StepKeepsInv(s: State, s': State, t: Tid)
    requires Inv(s) && (Step(s, s', t) || Spawn(s, s', t))
    ensures Inv(s')
    ensures s.count == -1 ==> s'.count == -1
  {
    CountUpdate(s.pcs, t, s'.pcs[t], IsLive);
    CountZero(s.pcs, IsLive);
  }

  lemma {:induction false} RunKeepsInv(tr: seq<State>, i: nat)
    requires Run(tr) && i < |tr|
    ensures Inv(tr[i])
    ensures i > 0 && tr[i - 1].count == -1 ==> tr[i].count == -1
  {
    if i == 0 {
      CountZero(tr[0].pcs, IsLive);
    } else {
      RunKeepsInv(tr, i - 1);
      assert Reached(tr, i);
      var t :| Step(tr[i - 1], tr[i], t) || Spawn(tr[i - 1], tr[i], t);
      StepKeepsInv(tr[i - 1], tr[i], t);
    }
  }

  /** In every state of every run the count is the number of live locks, or -1 with none. */
  lemma CountIsLiveLocks(tr: seq<State>, i: nat)
    requires Run(tr) && i < |tr|
    ensures tr[i].count == |At(tr[i].pcs, IsLive)| || tr[i].count == -1
    ensures tr[i].count == -1 ==> forall t :: t in tr[i].pcs ==> !tr[i].pcs[t].Live?
  {
    RunKeepsInv(tr, i);
    CountZero(tr[i].pcs, IsLive);
  }

  /** Once any stop has returned, no lock is live and none is ever granted again; and a
      lock is refused only after a stop took effect. */
  lemma {:induction false} StopIsForever(tr: seq<State>, i: nat, j: nat, t: Tid)
    requires Run(tr) && i <= j < |tr| && t in tr[i].pcs
    requires tr[i].pcs[t].Stopped? || tr[i].pcs[t].Denied?
    ensures tr[j].count == -1
    ensures forall u :: u in tr[j].pcs ==> !tr[j].pcs[u].Live?
    decreases j - i
  {
    RunKeepsInv(tr, j);
    if i < j {
      StopIsForever(tr, i, j - 1, t);
    }
    CountIsLiveLocks(tr, j);
  }

  /** A run in which nobody calls stop refuses nobody: the count never goes negative. */
  lemma {:induction false} NoStopNoRefusal(tr: seq<State>, i: nat)
    requires Run(tr) && i < |tr|
    requires forall k, t :: 0 <= k < |tr| && t in tr[k].pcs ==> !tr[k].pcs[t].SSwap?
    ensures tr[i].count == |At(tr[i].pcs, IsLive)|
    ensures forall t :: t in tr[i].pcs ==> !tr[i].pcs[t].Denied?
  {
    RunKeepsInv(tr, i);
    CountZero(tr[i].pcs, IsLive);
    if i > 0 {
      NoStopNoRefusal(tr, i - 1);
      assert Reached(tr, i);
      var t :| Step(tr[i - 1], tr[i], t) || Spawn(tr[i - 1], tr[i], t);
      CountZero(tr[i - 1].pcs, IsLive);
      RunKeepsInv(tr, i - 1);
      CountUpdate(tr[i - 1].pcs, t, tr[i].pcs[t], IsLive);
    }
  }

  // ----- progress

  /** How much a thread has to do before it is idle again. */
  function Left(pc: PC): nat {
    match pc
    case Idle => 0 case LLoad => 3 case LLoop(_) => 2 case SSwap => 2 case STest(_) => 3
    case Live => 1 case Denied => 1 case Stopped => 1
  }

  ghost function Work(s: State): nat { Weight(s.pcs, Left, 3) }

  /** An action of thread `t` that does not start a new call. */
  ghost predicate Acts(s: State, s': State, t: Tid) { Step(s, s', t) && !s.pcs[t].Idle? }

  lemma ActMoves(s: State, s': State, t: Tid)
    requires Acts(s, s', t)
    ensures t in s'.pcs && s'.pcs == s.pcs[t := s'.pcs[t]]
    ensures Work(s') == Work(s) - Left(s.pcs[t]) + Left(s'.pcs[t])
  {
    WeightUpdate(s.pcs, t, s'.pcs[t], Left, 3);
  }

  /** One or two actions of thread `t`. */
  ghost predicate Path(s: State, path: seq<State>, t: Tid) {
    1 <= |path| <= 2 && Acts(s, path[0], t) && (|path| == 2 ==> Acts(path[0], path[1], t))
  }

  ghost predicate SomeLive(s: State) { exists u :: u in s.pcs && s.pcs[u].Live? }

  lemma LiveIffPositive(s: State)
    requires Inv(s)
    ensures SomeLive(s) <==> s.count > 0
  {
    CountZero(s.pcs, IsLive);
  }

  /** A stop waits for nothing but live locks: with none left it returns after one action of
      its own, or two if a stop has taken effect already. */
  lemma StopReturns(s: State, t: Tid) returns (path: seq<State>)
    requires Inv(s) && t in s.pcs && s.pcs[t].SSwap? && !SomeLive(s)
    ensures Path(s, path, t)
    ensures var last := path[|path| - 1]; t in last.pcs && last.pcs[t].Stopped? && last.count == -1
  {
    LiveIffPositive(s);
    CountZero(s.pcs, IsLive);
    if s.count == 0 {
      path := [Goto(s, t, Stopped).(count := -1)];
    } else {
      var tested := Goto(s, t, STest(s.count));
      path := [tested, Goto(tested, t, Stopped)];
    }
  }

  /** And it does wait for those. */
  lemma StopWaits(s: State, s': State, t: Tid)
    requires Inv(s) && t in s.pcs && s.pcs[t].SSwap? && SomeLive(s) && Step(s, s', t)
    ensures s'.pcs[t] == STest(s.count) && s'.count == s.count > 0
  {
    LiveIffPositive(s);
  }

  /** A call of continue_lock that has loaded the count gets its answer in one action, or two
      if the count has changed since. */
  lemma LoopReturns(s: State, t: Tid) returns (path: seq<State>)
    requires t in s.pcs && s.pcs[t].LLoop?
    ensures Path(s, path, t)
    ensures var last := path[|path| - 1]; t in last.pcs && (last.pcs[t].Live? || last.pcs[t].Denied?)
  {
    var e := s.pcs[t].expected;
    if e < 0 {
      path := [Goto(s, t, Denied)];
    } else if s.count == e {
      path := [Goto(s, t, Live).(count := e + 1)];
    } else {
      var loaded := Goto(s, t, LLoop(s.count));
      path := [loaded, if s.count < 0 then Goto(loaded, t, Denied) else Goto(loaded, t, Live).(count := s.count + 1)];
    }
  }

  /** Every thread gets on that is neither idle nor a stop behind a live lock. */
  lemma GetsOn(s: State, t: Tid) returns (path: seq<State>)
    requires Inv(s) && t in s.pcs && !s.pcs[t].Idle? && (s.pcs[t].SSwap? ==> !SomeLive(s))
    ensures Path(s, path, t)
    ensures var last := path[|path| - 1]; t in last.pcs && Left(last.pcs[t]) < Left(s.pcs[t])
  {
    match s.pcs[t]
    case LLoad => path := [Goto(s, t, LLoop(s.count))];
    case LLoop(_) => path := LoopReturns(s, t);
    case Live => path := [Goto(s, t, Idle).(count := s.count - 1)];
    case Denied => path := [Goto(s, t, Idle)];
    case SSwap => path := StopReturns(s, t);
    case STest(e) => path := [Goto(s, t, if e < 0 then Stopped else SSwap)];
    case Stopped => path := [Goto(s, t, Idle)];
  }

  lemma PathWorks(s: State, path: seq<State>, t: Tid)
    requires Inv(s) && Path(s, path, t)
    requires var last := path[|path| - 1]; t in last.pcs && Left(last.pcs[t]) < Left(s.pcs[t])
    ensures var last := path[|path| - 1]; Inv(last) && Work(last) < Work(s)
  {
    StepKeepsInv(s, path[0], t);
    ActMoves(s, path[0], t);
    if |path| == 2 {
      StepKeepsInv(path[0], path[1], t);
      ActMoves(path[0], path[1], t);
    }
  }

  ghost predicate Continues(s: State, s': State) { exists t :: Acts(s, s', t) }

  /** An action that does not start a new call. */
  ghost predicate NoNewCall(tr: seq<State>, i: nat)
    requires 0 < i < |tr|
  {
    Continues(tr[i - 1], tr[i])
  }

  ghost predicate Finishing(tr: seq<State>) { tr != [] && forall i :: 0 < i < |tr| ==> NoNewCall(tr, i) }

  lemma FinishingOn(s: State, path: seq<State>, t: Tid, rest: seq<State>)
    requires Path(s, path, t) && Finishing(rest) && rest[0] == path[|path| - 1]
    ensures Finishing([s] + path[..|path| - 1] + rest)
  {
    var tr := [s] + path[..|path| - 1] + rest;
    assert tr[|path|..] == rest && tr[1] == path[0] && (|path| == 2 ==> tr[2] == path[1]);
    forall i | 0 < i < |tr| ensures NoNewCall(tr, i) {
      if i == 1 {
        assert Acts(tr[0], tr[1], t);
      } else if i == 2 && |path| == 2 {
        assert Acts(tr[1], tr[2], t);
      } else {
        assert NoNewCall(rest, i - |path|);
      }
    }
  }

  /** From every reachable state all calls can finish: a run without new calls, of at most two
      actions for each unit of work, ends with every thread outside and no lock live. */
  lemma {:induction false} Drains(s: State) returns (tr: seq<State>)
    requires Inv(s)
    ensures Finishing(tr) && tr[0] == s && |tr| <= 1 + 2 * Work(s)
    ensures var last := tr[|tr| - 1];
            (forall t :: t in last.pcs ==> last.pcs[t].Idle?) && (last.count == 0 || last.count == -1)
    decreases Work(s)
  {
    if t :| t in s.pcs && !s.pcs[t].Idle? {
      var u := Ready(s, t);
      var path := GetsOn(s, u);
      PathWorks(s, path, u);
      var rest := Drains(path[|path| - 1]);
      FinishingOn(s, path, u, rest);
      tr := [s] + path[..|path| - 1] + rest;
    } else {
      CountZero(s.pcs, IsLive);
      tr := [s];
    }
  }

  lemma Ready(s: State, t: Tid) returns (u: Tid)
    requires t in s.pcs && !s.pcs[t].Idle?
    ensures u in s.pcs && !s.pcs[u].Idle? && (s.pcs[u].SSwap? ==> !SomeLive(s))
  {
    if l :| l in s.pcs && s.pcs[l].Live? {
      u := l;
    } else {
      u := t;
    }
  }

  // ----- runs that get locks

  ghost function Last(tr: seq<State>): State
    requires tr != []
  {
    tr[|tr| - 1]
  }

  lemma RunOnce(tr: seq<State>, s': State, t: Tid) returns (more: seq<State>)
    requires Run(tr) && (Step(Last(tr), s', t) || Spawn(Last(tr), s', t))
    ensures Run(more) && Last(more) == s'
  {
    more := tr + [s'];
    forall i | 0 < i < |more| ensures Reached(more, i) {
      if i < |tr| {
        assert Reached(tr, i);
      }
    }
  }

  /** In every run that no stop has ended, whoever asks for a lock can have one after three
      actions of its own. */
  lemma LockGranted(tr: seq<State>, t: Tid) returns (more: seq<State>)
    requires Run(tr) && t in Last(tr).pcs && Last(tr).pcs[t].Idle? && Last(tr).count >= 0
    ensures Run(more) && Last(more) == Goto(Last(tr), t, Live).(count := Last(tr).count + 1)
  {
    var s := Last(tr);
    more := RunOnce(tr, Goto(s, t, LLoad), t);
    more := RunOnce(more, Goto(s, t, LLoop(s.count)), t);
    more := RunOnce(more, Goto(s, t, Live).(count := s.count + 1), t);
  }

  /** Some run has two locks live at once, and some run is stopped. */
  lemma LocksShare(t: Tid, u: Tid) returns (tr: seq<State>, stopped: seq<State>)
    requires t != u
    ensures Run(tr) && Last(tr) == State(2, map[t := Live, u := Live])
    ensures Run(stopped) && Last(stopped) == State(-1, map[t := Stopped])
  {
    tr := [State(0, map[])];
    tr := RunOnce(tr, Goto(Last(tr), t, Idle), t);
    stopped := RunOnce(tr, Goto(Last(tr), t, SSwap), t);
    stopped := RunOnce(stopped, Goto(Last(stopped), t, Stopped).(count := -1), t);
    tr := RunOnce(tr, Goto(Last(tr), u, Idle), u);
    tr := LockGranted(tr, t);
    tr := LockGranted(tr, u);
    assert Last(tr).pcs == map[t := Live, u := Live];
  }
}
