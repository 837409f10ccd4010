/** The mutex-and-spinlock style of ReadersWriterLock, one atomic action a step. */
module MslLock {
  import opened Threads
  import opened Wrappers

  // Every atomic operation of the source is one program point; the default memory order is
  // sequentially consistent, so a run is an interleaving of these steps.

  /** Where a thread is. The comment says what it is about to do. */
  datatype PC =
    | Idle         // outside the lock
    | RArrive      // before_read:  readRequests++
    | RCheck       //               if (writeRequests > 0)
    | RBackOff     //               readRequests--
    | RLock        //               lock mw
    | RRecount     //               readRequests++          (holding mw)
    | RUnlock      //               unlock mw               (holding mw)
    | Reading      // the read lock is held
    | RLeave       // after_read:   readRequests--
    | WLock        // before_write: lock mw
    | WAnnounce    //               writeRequests++         (holding mw)
    | WSpin        //               while (readRequests > 0)(holding mw)
    | Writing      // the write lock is held
    | WRetire      // after_write:  writeRequests--         (holding mw)
    | WUnlock      //               unlock mw               (holding mw)

  datatype State = State(readRequests: int, writeRequests: int, mw: Option<Tid>, pcs: map<Tid, PC>)

  ghost predicate Init(s: State) {
    s == State(0, 0, None, map[])
  }

  function Goto(s: State, t: Tid, pc: PC): State {
    s.(pcs := s.pcs[t := pc])
  }

  /** Thread `t` performs the action at its program point. */
  ghost predicate Step(s: State, s': State, t: Tid) {
    t in s.pcs &&
    match s.pcs[t]
    case Idle => s' == Goto(s, t, RArrive) || s' == Goto(s, t, WLock)
    case RArrive => s' == Goto(s, t, RCheck).(readRequests := s.readRequests + 1)
    case RCheck => s' == Goto(s, t, if s.writeRequests > 0 then RBackOff else Reading)
    case RBackOff => s' == Goto(s, t, RLock).(readRequests := s.readRequests - 1)
    case RLock => s.mw.None? && s' == Goto(s, t, RRecount).(mw := Some(t))
    case RRecount => s' == Goto(s, t, RUnlock).(readRequests := s.readRequests + 1)
    case RUnlock => s' == Goto(s, t, Reading).(mw := None)
    case Reading => s' == Goto(s, t, RLeave)
    case RLeave => s' == Goto(s, t, Idle).(readRequests := s.readRequests - 1)
    case WLock => s.mw.None? && s' == Goto(s, t, WAnnounce).(mw := Some(t))
    case WAnnounce => s' == Goto(s, t, WSpin).(writeRequests := s.writeRequests + 1)
    case WSpin => s' == Goto(s, t, if s.readRequests > 0 then WSpin else Writing)
    case Writing => s' == Goto(s, t, WRetire)
    case WRetire => s' == Goto(s, t, WUnlock).(writeRequests := s.writeRequests - 1)
    case WUnlock => s' == Goto(s, t, Idle).(mw := None)
  }

  /** A new thread may appear at any time. */
  ghost predicate Spawn(s: State, s': State, t: Tid) {
    t !in s.pcs && s' == Goto(s, t, Idle)
  }

  ghost predicate Next(s: State, s': State) {
    exists t :: Step(s, s', t) || Spawn(s, s', t)
  }

  ghost predicate Reached(tr: seq<State>, i: nat)
    requires 0 < i < |tr|
  {
    Next(tr[i - 1], tr[i])
  }

  ghost predicate Run(tr: seq<State>) {
    |tr| > 0 && Init(tr[0]) && forall i :: 0 < i < |tr| ==> Reached(tr, i)
  }

  // ----- the inductive invariant

  predicate Counted(pc: PC) {
    pc.RCheck? || pc.RBackOff? || pc.RUnlock? || pc.Reading? || pc.RLeave?
  }

  predicate Announced(pc: PC) { pc.WSpin? || pc.Writing? || pc.WRetire? }

  predicate HoldsMw(pc: PC) {
    pc.RRecount? || pc.RUnlock? || pc.WAnnounce? || pc.WSpin? || pc.Writing? || pc.WRetire? || pc.WUnlock?
  }

  /** The reader can no longer back off. */
  predicate Committed(pc: PC) { pc.RUnlock? || pc.Reading? || pc.RLeave? }

  /** The writer has seen no reader and has not yet withdrawn its request. */
  predicate Entered(pc: PC) { pc.Writing? || pc.WRetire? }

  ghost predicate CountsExact(s: State) {
    s.readRequests == |At(s.pcs, Counted)| && s.writeRequests == |At(s.pcs, Announced)|
  }

  ghost predicate MutexOwned(s: State) { Owned(s.mw, s.pcs, HoldsMw) }

  ghost predicate Handshake(s: State) {
    forall w, r :: w in s.pcs && r in s.pcs && Entered(s.pcs[w]) ==> !Committed(s.pcs[r])
  }

  ghost predicate Inv(s: State) {
    CountsExact(s) && MutexOwned(s) && Handshake(s)
  }

  lemma StepMoves(s: State, s': State, t: Tid)
    requires Step(s, s', t) || Spawn(s, s', t)
    ensures t in s'.pcs && s'.pcs == s.pcs[t := s'.pcs[t]]
  {
  }

  /** A step changes each counter by what the moving thread contributes to it. */
  lemma StepCountsReaders(s: State, s': State, t: Tid)
    requires Step(s, s', t) || Spawn(s, s', t)
    ensures t in s'.pcs
    ensures s'.readRequests == s.readRequests
      - (if t in s.pcs && Counted(s.pcs[t]) then 1 else 0) + (if Counted(s'.pcs[t]) then 1 else 0)
  {
  }

  lemma StepCountsWriters(s: State, s': State, t: Tid)
    requires Step(s, s', t) || Spawn(s, s', t)
    ensures t in s'.pcs
    ensures s'.writeRequests == s.writeRequests
      - (if t in s.pcs && Announced(s.pcs[t]) then 1 else 0) + (if Announced(s'.pcs[t]) then 1 else 0)
  {
  }

  lemma StepKeepsCounts(s: State, s': State, t: Tid)
    requires CountsExact(s) && (Step(s, s', t) || Spawn(s, s', t))
    ensures CountsExact(s')
  {
    StepMoves(s, s', t);
    StepCountsReaders(s, s', t);
    StepCountsWriters(s, s', t);
    CountUpdate(s.pcs, t, s'.pcs[t], Counted);
    CountUpdate(s.pcs, t, s'.pcs[t], Announced);
  }

  /** The mutex is taken only when it is free and given up only by its owner. */
  lemma StepTakesMutex(s: State, s': State, t: Tid)
    requires Step(s, s', t) || Spawn(s, s', t)
    requires t in s.pcs ==> (HoldsMw(s.pcs[t]) <==> s.mw == Some(t))
    requires t !in s.pcs ==> s.mw != Some(t)
    ensures HoldsMw(s'.pcs[t]) ==> s'.mw == Some(t) && (s.mw == None || s.mw == Some(t))
    ensures !HoldsMw(s'.pcs[t]) ==> s'.mw == if s.mw == Some(t) then None else s.mw
  {
  }

  lemma StepKeepsMutex(s: State, s': State, t: Tid)
    requires MutexOwned(s) && (Step(s, s', t) || Spawn(s, s', t))
    ensures MutexOwned(s')
  {
    StepMoves(s, s', t);
    StepTakesMutex(s, s', t);
    OwnedUpdate(s.mw, s'.mw, s.pcs, t, s'.pcs[t], HoldsMw);
  }

  /** A reader commits only when no request is announced or while it owns the mutex, and a
      writer enters only when no reader is counted. */
  lemma StepGuards(s: State, s': State, t: Tid)
    requires Step(s, s', t) || Spawn(s, s', t)
    ensures Committed(s'.pcs[t]) ==> t in s.pcs && (Committed(s.pcs[t]) || s.writeRequests <= 0 || s.pcs[t].RRecount?)
    ensures Entered(s'.pcs[t]) ==> t in s.pcs && (Entered(s.pcs[t]) || s.readRequests <= 0)
  {
  }

  lemma StepKeepsHandshake(s: State, s': State, t: Tid)
    requires Inv(s) && (Step(s, s', t) || Spawn(s, s', t))
    ensures Handshake(s')
  {
    StepMoves(s, s', t);
    StepGuards(s, s', t);
    HandshakeKept(s, s', t);
  }

  lemma HandshakeKept(s: State, s': State, t: Tid)
    requires Inv(s) && t in s'.pcs && s'.pcs == s.pcs[t := s'.pcs[t]]
    requires Committed(s'.pcs[t]) ==> t in s.pcs && (Committed(s.pcs[t]) || s.writeRequests <= 0 || s.pcs[t].RRecount?)
    requires Entered(s'.pcs[t]) ==> t in s.pcs && (Entered(s.pcs[t]) || s.readRequests <= 0)
    ensures Handshake(s')
  {
    CountZero(s.pcs, Counted);
    CountZero(s.pcs, Announced);
    forall w, r | w in s'.pcs && r in s'.pcs && Entered(s'.pcs[w])
      ensures !Committed(s'.pcs[r])
    {
      if w != t && r == t {
        assert Announced(s.pcs[w]) && s.mw == Some(w);
      }
    }
  }

  lemma StepKeepsInv(s: State, s': State, t: Tid)
    requires Inv(s) && (Step(s, s', t) || Spawn(s, s', t))
    ensures Inv(s')
  {
    StepKeepsCounts(s, s', t);
    StepKeepsMutex(s, s', t);
    StepKeepsHandshake(s, s', t);
  }

  lemma {:induction false} RunKeepsInv(tr: seq<State>, i: nat)
    requires Run(tr) && i < |tr|
    ensures Inv(tr[i])
  {
    if i == 0 {
      CountZero(tr[0].pcs, Counted);
      CountZero(tr[0].pcs, Announced);
    } else {
      RunKeepsInv(tr, i - 1);
      assert Reached(tr, i);
      var t :| Step(tr[i - 1], tr[i], t) || Spawn(tr[i - 1], tr[i], t);
      StepKeepsInv(tr[i - 1], tr[i], t);
    }
  }

  /** Exclusion, in every state of every run with any number of threads: a writer
      inside is alone, and the counters are exact head counts. */
  lemma Exclusion(tr: seq<State>, i: nat)
    requires Run(tr) && i < |tr|
    ensures forall w, t :: w in tr[i].pcs && t in tr[i].pcs && t != w && tr[i].pcs[w].Writing?
                       ==> !tr[i].pcs[t].Writing? && !tr[i].pcs[t].Reading?
    ensures tr[i].readRequests == |At(tr[i].pcs, Counted)|
    ensures 0 <= tr[i].writeRequests <= 1
  {
    RunKeepsInv(tr, i);
    CountAtMostOne(tr[i].pcs, Announced);
  }

  // ----- no overtaking

  ghost predicate IsIn(s: State, r: Tid) { r in s.pcs && Committed(s.pcs[r]) }

  ghost predicate HasAnnounced(s: State, w: Tid) { w in s.pcs && Announced(s.pcs[w]) }

  lemma NobodyGetsIn(s: State, s': State, t: Tid, w: Tid, r: Tid)
    requires Inv(s) && (Step(s, s', t) || Spawn(s, s', t)) && HasAnnounced(s, w) && !IsIn(s, r)
    ensures !IsIn(s', r)
  {
    CountZero(s.pcs, Announced);
    if r != t {
      assert r in s'.pcs ==> r in s.pcs && s'.pcs[r] == s.pcs[r];
    }
  }

  /** From the moment a writer has announced itself until it withdraws its request, no reader
      gets in that is not in already, whatever it was doing: the writer waits at most for the
      readers it found. */
  lemma {:induction false} NoOvertaking(tr: seq<State>, i: nat, j: nat, w: Tid, r: Tid)
    requires Run(tr) && i <= j < |tr| && !IsIn(tr[i], r)
    requires forall k :: i <= k < j ==> HasAnnounced(tr[k], w)
    ensures !IsIn(tr[j], r)
    decreases j - i
  {
    if i < j {
      NoOvertaking(tr, i, j - 1, w, r);
      RunKeepsInv(tr, j - 1);
      assert Reached(tr, j);
      NextKeepsOut(tr[j - 1], tr[j], w, r);
    }
  }

  lemma NextKeepsOut(s: State, s': State, w: Tid, r: Tid)
    requires Inv(s) && Next(s, s') && HasAnnounced(s, w) && !IsIn(s, r)
    ensures !IsIn(s', r)
  {
    var t :| Step(s, s', t) || Spawn(s, s', t);
    NobodyGetsIn(s, s', t, w, r);
  }

  // ----- bounded waiting

  /** How many actions a thread can take while somebody else is announced: at most until it
      wants the mutex. */
  function Left(pc: PC): nat {
    match pc
    case Reading => 6 case RLeave => 5 case Idle => 4 case RArrive => 3 case RCheck => 2 case RBackOff => 1
    case _ => 0
  }

  /** The actions that all threads but the writer can take; `cap` is at least what one can. */
  ghost function Patience(s: State, w: Tid, cap: nat): nat { Weight(s.pcs - {w}, Left, cap) }

  lemma OtherUsesPatience(s: State, s': State, t: Tid, w: Tid)
    requires Inv(s) && Step(s, s', t) && HasAnnounced(s, w) && t != w
    ensures t in s'.pcs && Left(s'.pcs[t]) < Left(s.pcs[t])
  {
    CountZero(s.pcs, Announced);
    assert HoldsMw(s.pcs[w]) && s.mw == Some(w);
  }

  lemma PatienceShrinks(s: State, s': State, t: Tid, w: Tid, cap: nat)
    requires Inv(s) && Step(s, s', t) && HasAnnounced(s, w) && cap >= 6
    ensures Patience(s', w, cap) + (if t == w then 0 else 1) <= Patience(s, w, cap)
  {
    StepMoves(s, s', t);
    if t == w {
      assert s'.pcs - {w} == s.pcs - {w};
    } else {
      OtherUsesPatience(s, s', t, w);
      assert s'.pcs - {w} == (s.pcs - {w})[t := s'.pcs[t]];
      WeightUpdate(s.pcs - {w}, t, s'.pcs[t], Left, cap);
    }
  }

  /** Some thread other than `w` took an action. */
  ghost predicate OtherMoved(s: State, s': State, w: Tid) { exists t :: t != w && Step(s, s', t) }

  ghost function OthersMoves(tr: seq<State>, i: nat, j: nat, w: Tid): nat
    requires i <= j < |tr|
    decreases j
  {
    if i == j then 0 else OthersMoves(tr, i, j - 1, w) + if OtherMoved(tr[j - 1], tr[j], w) then 1 else 0
  }

  lemma NextShrinks(s: State, s': State, w: Tid, cap: nat)
    requires Inv(s) && Next(s, s') && HasAnnounced(s, w) && s'.pcs.Keys == s.pcs.Keys && cap >= 6
    ensures Patience(s', w, cap) + (if OtherMoved(s, s', w) then 1 else 0) <= Patience(s, w, cap)
  {
    if t :| t != w && Step(s, s', t) {
      PatienceShrinks(s, s', t, w, cap);
    } else {
      var t :| Step(s, s', t) || Spawn(s, s', t);
      assert Spawn(s, s', t) ==> t in s'.pcs.Keys;
      PatienceShrinks(s, s', t, w, cap);
    }
  }

  ghost predicate NobodyNew(tr: seq<State>, k: nat)
    requires 0 < k < |tr|
  {
    tr[k].pcs.Keys == tr[k - 1].pcs.Keys
  }

  lemma {:induction false} OthersWait(tr: seq<State>, i: nat, j: nat, w: Tid, cap: nat)
    requires Run(tr) && i <= j < |tr| && cap >= 6
    requires forall k :: i <= k < j ==> HasAnnounced(tr[k], w)
    requires forall k :: i < k <= j ==> NobodyNew(tr, k)
    ensures OthersMoves(tr, i, j, w) + Patience(tr[j], w, cap) <= Patience(tr[i], w, cap)
    decreases j
  {
    if i < j {
      OthersWait(tr, i, j - 1, w, cap);
      RunKeepsInv(tr, j - 1);
      assert Reached(tr, j) && NobodyNew(tr, j);
      NextShrinks(tr[j - 1], tr[j], w, cap);
    }
  }

  /** While a writer is announced, however often it spins and however the others are
      scheduled, they take at most six actions each, as long as there are no new threads. */
  lemma BoundedWait(tr: seq<State>, i: nat, j: nat, w: Tid)
    requires Run(tr) && i <= j < |tr|
    requires forall k :: i <= k < j ==> HasAnnounced(tr[k], w)
    requires forall k :: i < k <= j ==> NobodyNew(tr, k)
    ensures OthersMoves(tr, i, j, w) + Patience(tr[j], w, 6) <= Patience(tr[i], w, 6) <= 6 * |tr[i].pcs - {w}|
  {
    OthersWait(tr, i, j, w, 6);
    WeightBounded(tr[i].pcs - {w}, Left, 6);
  }

  /** And when they have taken them all, the spinning writer gets in. */
  lemma PatienceOver(s: State, s': State, w: Tid)
    requires Inv(s) && w in s.pcs && s.pcs[w].WSpin? && Patience(s, w, 6) == 0 && Step(s, s', w)
    ensures s'.pcs[w].Writing?
  {
    WeightZero(s.pcs - {w}, Left, 6);
    forall t | t in s.pcs ensures !Counted(s.pcs[t]) {
      if t != w {
        assert (s.pcs - {w})[t] == s.pcs[t];
      }
    }
    CountZero(s.pcs, Counted);
  }

  // ----- no deadlock, and every operation drains

  /** Inside a lock or unlock operation. */
  predicate InCall(pc: PC) { !pc.Idle? && !pc.Reading? && !pc.Writing? }

  /** Waiting for the mutex, or spinning on readers. */
  ghost predicate Blocked(s: State, t: Tid)
    requires t in s.pcs
  {
    || ((s.pcs[t].RLock? || s.pcs[t].WLock?) && s.mw.Some?)
    || (s.pcs[t].WSpin? && s.readRequests > 0)
  }

  /** How many actions a thread still has before it is outside the lock again. */
  function Remaining(pc: PC): nat {
    match pc
    case Idle => 0 case RArrive => 8 case RCheck => 7 case RBackOff => 6 case RLock => 5
    case RRecount => 4 case RUnlock => 3 case Reading => 2 case RLeave => 1
    case WLock => 6 case WAnnounce => 5 case WSpin => 4 case Writing => 3 case WRetire => 2 case WUnlock => 1
  }

  ghost function Work(s: State): nat { Weight(s.pcs, Remaining, 8) }

  /** A writer that spins waits for a counted reader, and no counted reader ever
      waits for the mutex the writer holds. */
  lemma SpinnerWaitsForUnblockedReader(s: State, w: Tid) returns (r: Tid)
    requires Inv(s) && w in s.pcs && s.pcs[w].WSpin? && s.readRequests > 0
    ensures r in s.pcs && Counted(s.pcs[r]) && !Blocked(s, r)
  {
    CountZero(s.pcs, Counted);
    r :| r in s.pcs && Counted(s.pcs[r]);
  }

  /** When every thread inside an operation is blocked, the lock is held by a client:
      the operations never wait only for each other. */
  lemma BlockedOnlyBehindAHolder(s: State, t: Tid) returns (h: Tid)
    requires Inv(s) && t in s.pcs && InCall(s.pcs[t])
    requires forall u :: u in s.pcs && InCall(s.pcs[u]) ==> Blocked(s, u)
    ensures h in s.pcs && (s.pcs[h].Reading? || s.pcs[h].Writing?)
  {
    if s.pcs[t].WSpin? {
      h := SpinnerWaitsForUnblockedReader(s, t);
    } else {
      h := s.mw.value;
      if s.pcs[h].WSpin? {
        h := SpinnerWaitsForUnblockedReader(s, h);
      }
    }
  }

  /** Any action other than a new lock call or a turn of the spin loop leaves less work. */
  lemma ActionDescends(s: State, s': State, t: Tid)
    requires Step(s, s', t) && !s.pcs[t].Idle? && s' != s
    ensures Work(s') < Work(s)
  {
    assert s'.pcs == s.pcs[t := s'.pcs[t]];
    WeightUpdate(s.pcs, t, s'.pcs[t], Remaining, 8);
  }

  /** Some thread has an action that is neither a new call nor a turn of the spin loop. */
  lemma SomeActionEnabled(s: State, t: Tid) returns (u: Tid, s': State)
    requires Inv(s) && t in s.pcs && !s.pcs[t].Idle?
    ensures Step(s, s', u) && !s.pcs[u].Idle? && s' != s
    ensures Work(s') < Work(s)
  {
    if u' :| u' in s.pcs && InCall(s.pcs[u']) && !Blocked(s, u') {
      u := u';
    } else if InCall(s.pcs[t]) {
      u := BlockedOnlyBehindAHolder(s, t);
    } else {
      u := t;
    }
    s' := Act(s, u);
    assert s'.pcs[u] != s.pcs[u];
    ActionDescends(s, s', u);
  }

  /** The action of an unblocked thread that is not idle. */
  ghost function Act(s: State, t: Tid): (s': State)
    requires t in s.pcs && !s.pcs[t].Idle? && !Blocked(s, t)
    ensures Step(s, s', t)
  {
    match s.pcs[t]
    case RArrive => Goto(s, t, RCheck).(readRequests := s.readRequests + 1)
    case RCheck => Goto(s, t, if s.writeRequests > 0 then RBackOff else Reading)
    case RBackOff => Goto(s, t, RLock).(readRequests := s.readRequests - 1)
    case RLock => Goto(s, t, RRecount).(mw := Some(t))
    case RRecount => Goto(s, t, RUnlock).(readRequests := s.readRequests + 1)
    case RUnlock => Goto(s, t, Reading).(mw := None)
    case Reading => Goto(s, t, RLeave)
    case RLeave => Goto(s, t, Idle).(readRequests := s.readRequests - 1)
    case WLock => Goto(s, t, WAnnounce).(mw := Some(t))
    case WAnnounce => Goto(s, t, WSpin).(writeRequests := s.writeRequests + 1)
    case WSpin => Goto(s, t, Writing)
    case Writing => Goto(s, t, WRetire)
    case WRetire => Goto(s, t, WUnlock).(writeRequests := s.writeRequests - 1)
    case WUnlock => Goto(s, t, Idle).(mw := None)
  }

  /** No deadlock, in every state of every run that has a thread which is not idle; and
      when no client holds the lock it is an operation itself that can move on. */
  lemma NoDeadlock(tr: seq<State>, i: nat, t: Tid) returns (u: Tid, s': State)
    requires Run(tr) && i < |tr| && t in tr[i].pcs && !tr[i].pcs[t].Idle?
    ensures Step(tr[i], s', u) && !tr[i].pcs[u].Idle? && s' != tr[i] && Work(s') < Work(tr[i])
    ensures (forall h :: h in tr[i].pcs ==> !tr[i].pcs[h].Reading? && !tr[i].pcs[h].Writing?)
        ==> InCall(tr[i].pcs[u]) && !Blocked(tr[i], u)
  {
    RunKeepsInv(tr, i);
    u, s' := SomeActionEnabled(tr[i], t);
  }

  /** A run of actions that are neither new calls nor turns of the spin loop. */
  ghost predicate Descends(tr: seq<State>, i: nat)
    requires 0 < i < |tr|
  {
    Next(tr[i - 1], tr[i]) && Work(tr[i]) < Work(tr[i - 1])
  }

  lemma DescendsOn(s: State, rest: seq<State>)
    requires rest != [] && Next(s, rest[0]) && Work(rest[0]) < Work(s)
    requires forall i :: 0 < i < |rest| ==> Descends(rest, i)
    ensures forall i :: 0 < i < |[s] + rest| ==> Descends([s] + rest, i)
  {
    var tr := [s] + rest;
    forall i | 0 < i < |tr| ensures Descends(tr, i) {
      if i > 1 {
        assert Descends(rest, i - 1);
      }
    }
  }

  /** From every reachable state the lock can drain: without any new call, a run of
      non-spinning actions, at most one for each unit of work, ends with every
      thread outside and both counters zero. */
  lemma {:induction false} Drains(s: State) returns (tr: seq<State>)
    requires Inv(s)
    ensures |tr| > 0 && tr[0] == s && |tr| <= 1 + Work(s)
    ensures forall i :: 0 < i < |tr| ==> Descends(tr, i)
    ensures var last := tr[|tr| - 1];
            && (forall t :: t in last.pcs ==> last.pcs[t].Idle?)
            && last.readRequests == 0 && last.writeRequests == 0 && last.mw == None
    decreases Work(s)
  {
    if t :| t in s.pcs && !s.pcs[t].Idle? {
      var u, s' := SomeActionEnabled(s, t);
      StepKeepsInv(s, s', u);
      var rest := Drains(s');
      DescendsOn(s, rest);
      tr := [s] + rest;
    } else {
      CountZero(s.pcs, Counted);
      CountZero(s.pcs, Announced);
      tr := [s];
    }
  }

  // ----- who gets in

  /** A reader gets in by the fast path exactly if no writer is announced. */
  lemma ReaderAdmittedIff(tr: seq<State>, i: nat, s': State, r: Tid)
    requires Run(tr) && i < |tr| && r in tr[i].pcs && tr[i].pcs[r].RCheck? && Step(tr[i], s', r)
    ensures r in s'.pcs && (s'.pcs[r].Reading? <==> forall w :: w in tr[i].pcs ==> !Announced(tr[i].pcs[w]))
  {
    RunKeepsInv(tr, i);
    CountZero(tr[i].pcs, Announced);
  }

  /** A spinning writer gets in exactly if no reader is counted. */
  lemma WriterAdmittedIff(tr: seq<State>, i: nat, s': State, w: Tid)
    requires Run(tr) && i < |tr| && w in tr[i].pcs && tr[i].pcs[w].WSpin? && Step(tr[i], s', w)
    ensures w in s'.pcs && (s'.pcs[w].Writing? <==> forall r :: r in tr[i].pcs ==> !Counted(tr[i].pcs[r]))
  {
    RunKeepsInv(tr, i);
    CountZero(tr[i].pcs, Counted);
  }

  ghost function Last(tr: seq<State>): State
    requires tr != []
  {
    tr[|tr| - 1]
  }

  lemma RunOnce(tr: seq<State>, s': State, t: Tid) returns (more: seq<State>)
    requires Run(tr) && (Step(Last(tr), s', t) || Spawn(Last(tr), s', t))
    ensures Run(more) && Last(more) == s'
  {
    more := tr + [s'];
    forall i | 0 < i < |more| ensures Reached(more, i) {
      if i < |tr| {
        assert Reached(tr, i);
      }
    }
  }

  /** While no writer is announced, whoever comes to read is in after three actions of its
      own, whatever others do with the lock. */
  lemma ReaderWalksIn(tr: seq<State>, t: Tid) returns (more: seq<State>)
    requires Run(tr) && t in Last(tr).pcs && Last(tr).pcs[t].Idle?
    requires forall w :: w in Last(tr).pcs ==> !Announced(Last(tr).pcs[w])
    ensures Run(more) && Last(more) == Goto(Last(tr), t, Reading).(readRequests := Last(tr).readRequests + 1)
  {
    var s := Last(tr);
    RunKeepsInv(tr, |tr| - 1);
    CountZero(s.pcs, Announced);
    more := RunOnce(tr, Goto(s, t, RArrive), t);
    more := RunOnce(more, Goto(s, t, RCheck).(readRequests := s.readRequests + 1), t);
    more := RunOnce(more, Goto(s, t, Reading).(readRequests := s.readRequests + 1), t);
  }

  lemma WriterArrives(tr: seq<State>, t: Tid) returns (more: seq<State>)
    requires Run(tr) && t in Last(tr).pcs && Last(tr).pcs[t].Idle? && Last(tr).mw == None && Last(tr).writeRequests == 0
    ensures Run(more) && Last(more) == Goto(Last(tr), t, WSpin).(mw := Some(t), writeRequests := 1)
  {
    var s := Last(tr);
    more := RunOnce(tr, Goto(s, t, WLock), t);
    more := RunOnce(more, Goto(s, t, WAnnounce).(mw := Some(t)), t);
    more := RunOnce(more, Goto(s, t, WSpin).(mw := Some(t), writeRequests := 1), t);
  }

  /** With everybody outside, whoever comes to write is in after four. */
  lemma WriterWalksIn(tr: seq<State>, t: Tid) returns (more: seq<State>)
    requires Run(tr) && t in Last(tr).pcs && forall u :: u in Last(tr).pcs ==> Last(tr).pcs[u].Idle?
    ensures Run(more) && Last(more) == Goto(Last(tr), t, Writing).(mw := Some(t), writeRequests := 1)
  {
    var s := Last(tr);
    RunKeepsInv(tr, |tr| - 1);
    CountZero(s.pcs, Announced);
    CountZero(s.pcs, Counted);
    more := WriterArrives(tr, t);
    more := RunOnce(more, Goto(s, t, Writing).(mw := Some(t), writeRequests := 1), t);
  }

  /** Some run has two threads reading at once. */
  lemma ReadersShare(t: Tid, u: Tid) returns (tr: seq<State>)
    requires t != u
    ensures Run(tr) && Last(tr) == State(2, 0, None, map[t := Reading, u := Reading])
  {
    tr := [State(0, 0, None, map[])];
    tr := RunOnce(tr, Goto(Last(tr), t, Idle), t);
    tr := RunOnce(tr, Goto(Last(tr), u, Idle), u);
    tr := ReaderWalksIn(tr, t);
    tr := ReaderWalksIn(tr, u);
    assert Last(tr).pcs == map[t := Reading, u := Reading];
  }
}
