/** The style of ReadersWriterLock with two mutexes and a condition variable, one
    atomic action a step. */
module M2cvLock {
  import opened Threads
  import opened Wrappers

  // Waiting on the variable releases the mutex `m` and sleeps; a sleeper may wake at any time,
  // notified or not, and must take `m` again.

  /** Where a thread is. The comment says what it is about to do. */
  datatype PC =
    | Idle         // outside the lock
    | RArrive      // before_read:  readRequests++
    | RCheck       //               if (writeRequests > 0)
    | RBackOff     //               readRequests--
    | RLock        //               lock m
    | RNotify      //               notify_all              (holding m)
    | RTest        //               while (writeRequests > 0) (holding m)
    | RSleep       //               asleep in wait
    | RRelock      //               awake, lock m
    | RRecount     //               readRequests++          (holding m)
    | RUnlock      //               unlock m                (holding m)
    | Reading      // the read lock is held
    | RLeave       // after_read:   readRequests--
    | RFarewell    //               notify_all
    | WAnnounce    // before_write: writeRequests++
    | WLock        //               lock m
    | WTest        //               while (readRequests > 0)(holding m)
    | WSleep       //               asleep in wait
    | WRelock      //               awake, lock m
    | WLockMw      //               lock mw                 (holding m)
    | WUnlock      //               unlock m                (holding m and mw)
    | Writing      // the write lock is held                (holding mw)
    | WRetire      // after_write:  writeRequests--         (holding mw)
    | WFarewell    //               notify_all              (holding mw)
    | WUnlockMw    //               unlock mw               (holding mw)

  datatype State = State(readRequests: int, writeRequests: int, m: Option<Tid>, mw: Option<Tid>, pcs: map<Tid, PC>)

  ghost predicate Init(s: State) {
    s == State(0, 0, None, None, map[])
  }

  function Goto(s: State, t: Tid, pc: PC): State {
    s.(pcs := s.pcs[t := pc])
  }

  /** Thread `t` performs the reader action at its program point. Notifications only
      wake sleepers, which may wake anyway, so a notification changes nothing here. */
  ghost predicate ReaderStep(s: State, s': State, t: Tid) {
    t in s.pcs &&
    match s.pcs[t]
    case Idle => s' == Goto(s, t, RArrive)
    case RArrive => s' == Goto(s, t, RCheck).(readRequests := s.readRequests + 1)
    case RCheck => s' == Goto(s, t, if s.writeRequests > 0 then RBackOff else Reading)
    case RBackOff => s' == Goto(s, t, RLock).(readRequests := s.readRequests - 1)
    case RLock => s.m.None? && s' == Goto(s, t, RNotify).(m := Some(t))
    case RNotify => s' == Goto(s, t, RTest)
    case RTest => s' == if s.writeRequests > 0 then Goto(s, t, RSleep).(m := None) else Goto(s, t, RRecount)
    case RSleep => s' == Goto(s, t, RRelock)
    case RRelock => s.m.None? && s' == Goto(s, t, RTest).(m := Some(t))
    case RRecount => s' == Goto(s, t, RUnlock).(readRequests := s.readRequests + 1)
    case RUnlock => s' == Goto(s, t, Reading).(m := None)
    case Reading => s' == Goto(s, t, RLeave)
    case RLeave => s' == Goto(s, t, RFarewell).(readRequests := s.readRequests - 1)
    case RFarewell => s' == Goto(s, t, Idle)
    case _ => false
  }

  /** Thread `t` performs the writer action at its program point. */
  ghost predicate WriterStep(s: State, s': State, t: Tid) {
    t in s.pcs &&
    match s.pcs[t]
    case Idle => s' == Goto(s, t, WAnnounce)
    case WAnnounce => s' == Goto(s, t, WLock).(writeRequests := s.writeRequests + 1)
    case WLock => s.m.None? && s' == Goto(s, t, WTest).(m := Some(t))
    case WTest => s' == if s.readRequests > 0 then Goto(s, t, WSleep).(m := None) else Goto(s, t, WLockMw)
    case WSleep => s' == Goto(s, t, WRelock)
    case WRelock => s.m.None? && s' == Goto(s, t, WTest).(m := Some(t))
    case WLockMw => s.mw.None? && s' == Goto(s, t, WUnlock).(mw := Some(t))
    case WUnlock => s' == Goto(s, t, Writing).(m := None)
    case Writing => s' == Goto(s, t, WRetire)
    case WRetire => s' == Goto(s, t, WFarewell).(writeRequests := s.writeRequests - 1)
    case WFarewell => s' == Goto(s, t, WUnlockMw)
    case WUnlockMw => s' == Goto(s, t, Idle).(mw := None)
    case _ => false
  }

  ghost predicate Step(s: State, s': State, t: Tid) {
    ReaderStep(s, s', t) || WriterStep(s, s', t)
  }

  /** A new thread may appear at any time. */
  ghost predicate Spawn(s: State, s': State, t: Tid) {
    t !in s.pcs && s' == Goto(s, t, Idle)
  }

  ghost predicate Next(s: State, s': State) {
    exists t :: Step(s, s', t) || Spawn(s, s', t)
  }

  ghost predicate Reached(tr: seq<State>, i: nat)
    requires 0 < i < |tr|
  {
    Next(tr[i - 1], tr[i])
  }

  ghost predicate Run(tr: seq<State>) {
    |tr| > 0 && Init(tr[0]) && forall i :: 0 < i < |tr| ==> Reached(tr, i)
  }

  // ----- the inductive invariant

  predicate Counted(pc: PC) {
    pc.RCheck? || pc.RBackOff? || pc.RUnlock? || pc.Reading? || pc.RLeave?
  }

  predicate Announced(pc: PC) {
    || pc.WLock? || pc.WTest? || pc.WSleep? || pc.WRelock?
    || pc.WLockMw? || pc.WUnlock? || pc.Writing? || pc.WRetire?
  }

  predicate HoldsM(pc: PC) {
    || pc.RNotify? || pc.RTest? || pc.RRecount? || pc.RUnlock?
    || pc.WTest? || pc.WLockMw? || pc.WUnlock?
  }

  predicate HoldsMw(pc: PC) {
    pc.WUnlock? || pc.Writing? || pc.WRetire? || pc.WFarewell? || pc.WUnlockMw?
  }

  /** The reader is past its test of `writeRequests`: it has the lock, or is about to
      count itself while it still holds `m`. */
  predicate Committed(pc: PC) {
    pc.RRecount? || pc.RUnlock? || pc.Reading? || pc.RLeave?
  }

  /** The writer is past its test of `readRequests`. */
  predicate Entered(pc: PC) {
    pc.WLockMw? || pc.WUnlock? || pc.Writing? || pc.WRetire?
  }

  ghost predicate CountsExact(s: State) {
    s.readRequests == |At(s.pcs, Counted)| && s.writeRequests == |At(s.pcs, Announced)|
  }

  ghost predicate Handshake(s: State) {
    forall w, r :: w in s.pcs && r in s.pcs && Entered(s.pcs[w]) ==> !Committed(s.pcs[r])
  }

  ghost predicate Inv(s: State) {
    CountsExact(s) && Owned(s.m, s.pcs, HoldsM) && Owned(s.mw, s.pcs, HoldsMw) && Handshake(s)
  }

  lemma ReaderMoves(s: State, s': State, t: Tid)
    requires ReaderStep(s, s', t)
    ensures t in s'.pcs && s'.pcs == s.pcs[t := s'.pcs[t]]
  {
  }

  lemma WriterMoves(s: State, s': State, t: Tid)
    requires WriterStep(s, s', t)
    ensures t in s'.pcs && s'.pcs == s.pcs[t := s'.pcs[t]]
  {
  }

  /** A step changes each counter by what the moving thread contributes to it. */
  lemma ReaderCounts(s: State, s': State, t: Tid)
    requires ReaderStep(s, s', t)
    ensures t in s'.pcs
    ensures s'.readRequests == s.readRequests - (if Counted(s.pcs[t]) then 1 else 0) + (if Counted(s'.pcs[t]) then 1 else 0)
  {
  }

  lemma ReaderAnnouncesNothing(s: State, s': State, t: Tid)
    requires ReaderStep(s, s', t)
    ensures t in s'.pcs && s'.writeRequests == s.writeRequests && !Announced(s.pcs[t]) && !Announced(s'.pcs[t])
  {
  }

  lemma WriterCounts(s: State, s': State, t: Tid)
    requires WriterStep(s, s', t)
    ensures t in s'.pcs
    ensures s'.writeRequests == s.writeRequests - (if Announced(s.pcs[t]) then 1 else 0) + (if Announced(s'.pcs[t]) then 1 else 0)
    ensures s'.readRequests == s.readRequests && !Counted(s.pcs[t]) && !Counted(s'.pcs[t])
  {
  }

  lemma ReaderKeepsCounts(s: State, s': State, t: Tid)
    requires CountsExact(s) && ReaderStep(s, s', t)
    ensures CountsExact(s')
  {
    ReaderMoves(s, s', t);
    ReaderCounts(s, s', t);
    ReaderAnnouncesNothing(s, s', t);
    CountUpdate(s.pcs, t, s'.pcs[t], Counted);
    CountUpdate(s.pcs, t, s'.pcs[t], Announced);
  }

  lemma WriterKeepsCounts(s: State, s': State, t: Tid)
    requires CountsExact(s) && WriterStep(s, s', t)
    ensures CountsExact(s')
  {
    WriterMoves(s, s', t);
    WriterCounts(s, s', t);
    CountUpdate(s.pcs, t, s'.pcs[t], Counted);
    CountUpdate(s.pcs, t, s'.pcs[t], Announced);
  }

  /** Each mutex is taken only when it is free and given up only by its owner. */
  lemma ReaderTakesM(s: State, s': State, t: Tid)
    requires ReaderStep(s, s', t) && (HoldsM(s.pcs[t]) <==> s.m == Some(t))
    ensures HoldsM(s'.pcs[t]) ==> s'.m == Some(t) && (s.m == None || s.m == Some(t))
    ensures !HoldsM(s'.pcs[t]) ==> s'.m == if s.m == Some(t) then None else s.m
  {
  }

  lemma WriterTakesM(s: State, s': State, t: Tid)
    requires WriterStep(s, s', t) && (HoldsM(s.pcs[t]) <==> s.m == Some(t))
    ensures HoldsM(s'.pcs[t]) ==> s'.m == Some(t) && (s.m == None || s.m == Some(t))
    ensures !HoldsM(s'.pcs[t]) ==> s'.m == if s.m == Some(t) then None else s.m
  {
  }

  lemma ReaderIgnoresMw(s: State, s': State, t: Tid)
    requires ReaderStep(s, s', t)
    ensures s'.mw == s.mw && !HoldsMw(s.pcs[t]) && !HoldsMw(s'.pcs[t])
  {
  }

  lemma WriterTakesMw(s: State, s': State, t: Tid)
    requires WriterStep(s, s', t) && (HoldsMw(s.pcs[t]) <==> s.mw == Some(t))
    ensures HoldsMw(s'.pcs[t]) ==> s'.mw == Some(t) && (s.mw == None || s.mw == Some(t))
    ensures !HoldsMw(s'.pcs[t]) ==> s'.mw == if s.mw == Some(t) then None else s.mw
  {
  }

  lemma ReaderKeepsMutexes(s: State, s': State, t: Tid)
    requires Owned(s.m, s.pcs, HoldsM) && Owned(s.mw, s.pcs, HoldsMw) && ReaderStep(s, s', t)
    ensures Owned(s'.m, s'.pcs, HoldsM) && Owned(s'.mw, s'.pcs, HoldsMw)
  {
    ReaderMoves(s, s', t);
    ReaderTakesM(s, s', t);
    ReaderIgnoresMw(s, s', t);
    OwnedUpdate(s.m, s'.m, s.pcs, t, s'.pcs[t], HoldsM);
    OwnedUpdate(s.mw, s'.mw, s.pcs, t, s'.pcs[t], HoldsMw);
  }

  lemma WriterKeepsMutexes(s: State, s': State, t: Tid)
    requires Owned(s.m, s.pcs, HoldsM) && Owned(s.mw, s.pcs, HoldsMw) && WriterStep(s, s', t)
    ensures Owned(s'.m, s'.pcs, HoldsM) && Owned(s'.mw, s'.pcs, HoldsMw)
  {
    WriterMoves(s, s', t);
    WriterTakesM(s, s', t);
    WriterTakesMw(s, s', t);
    OwnedUpdate(s.m, s'.m, s.pcs, t, s'.pcs[t], HoldsM);
    OwnedUpdate(s.mw, s'.mw, s.pcs, t, s'.pcs[t], HoldsMw);
  }

  /** A reader commits only when no request is announced. */
  lemma ReaderKeepsHandshake(s: State, s': State, t: Tid)
    requires CountsExact(s) && Handshake(s) && ReaderStep(s, s', t)
    ensures Handshake(s')
  {
    CountZero(s.pcs, Announced);
    forall w, r | w in s'.pcs && r in s'.pcs && Entered(s'.pcs[w])
      ensures !Committed(s'.pcs[r])
    {
      assert w != t && s.pcs[w] == s'.pcs[w] && Announced(s.pcs[w]);
    }
  }

  lemma WriterEnters(s: State, s': State, t: Tid)
    requires WriterStep(s, s', t)
    ensures !Committed(s'.pcs[t])
    ensures Entered(s'.pcs[t]) ==> Entered(s.pcs[t]) || (s.pcs[t].WTest? && s.readRequests <= 0)
  {
  }

  /** A writer enters holding `m` while no reader is counted: a reader past its test but
      not yet counted would have to hold `m` as well. */
  lemma WriterKeepsHandshake(s: State, s': State, t: Tid)
    requires CountsExact(s) && Owned(s.m, s.pcs, HoldsM) && Handshake(s) && WriterStep(s, s', t)
    ensures Handshake(s')
  {
    WriterMoves(s, s', t);
    WriterEnters(s, s', t);
    CountZero(s.pcs, Counted);
    forall w, r | w in s'.pcs && r in s'.pcs && Entered(s'.pcs[w])
      ensures !Committed(s'.pcs[r])
    {
      if r != t {
        assert s.pcs[r] == s'.pcs[r];
        assert s.pcs[r].RRecount? ==> s.m == Some(r);
      }
    }
  }

  lemma StepKeepsInv(s: State, s': State, t: Tid)
    requires Inv(s) && (Step(s, s', t) || Spawn(s, s', t))
    ensures Inv(s')
  {
    if ReaderStep(s, s', t) {
      ReaderKeepsCounts(s, s', t);
      ReaderKeepsMutexes(s, s', t);
      ReaderKeepsHandshake(s, s', t);
    } else if WriterStep(s, s', t) {
      WriterKeepsCounts(s, s', t);
      WriterKeepsMutexes(s, s', t);
      WriterKeepsHandshake(s, s', t);
    } else {
      CountUpdate(s.pcs, t, Idle, Counted);
      CountUpdate(s.pcs, t, Idle, Announced);
    }
  }

  lemma {:induction false} RunKeepsInv(tr: seq<State>, i: nat)
    requires Run(tr) && i < |tr|
    ensures Inv(tr[i])
  {
    if i == 0 {
      CountZero(tr[0].pcs, Counted);
      CountZero(tr[0].pcs, Announced);
    } else {
      RunKeepsInv(tr, i - 1);
      assert Reached(tr, i);
      var t :| Step(tr[i - 1], tr[i], t) || Spawn(tr[i - 1], tr[i], t);
      StepKeepsInv(tr[i - 1], tr[i], t);
    }
  }

  /** Exclusion, in every state of every run with any number of threads, wake-ups
      included: a writer inside is alone, with no reader in by the fast or the slow path. */
  lemma Exclusion(tr: seq<State>, i: nat)
    requires Run(tr) && i < |tr|
    ensures forall w, t :: w in tr[i].pcs && t in tr[i].pcs && t != w && tr[i].pcs[w].Writing?
                       ==> !tr[i].pcs[t].Writing? && !Committed(tr[i].pcs[t])
    ensures tr[i].readRequests == |At(tr[i].pcs, Counted)|
    ensures tr[i].writeRequests == |At(tr[i].pcs, Announced)|
  {
    RunKeepsInv(tr, i);
  }

  /** The window that the mutex closes: a reader past its test may see `writeRequests`
      rise before it is counted, but then it still holds `m`, and no writer has entered. */
  lemma LateReaderHoldsM(tr: seq<State>, i: nat, r: Tid)
    requires Run(tr) && i < |tr| && r in tr[i].pcs && tr[i].pcs[r].RRecount? && tr[i].writeRequests > 0
    ensures tr[i].m == Some(r)
    ensures forall w :: w in tr[i].pcs ==> !Entered(tr[i].pcs[w]) && !tr[i].pcs[w].WTest?
  {
    RunKeepsInv(tr, i);
  }

  // ----- who gets in

  /** A reader passes either of its tests exactly if no writer is announced. */
  lemma ReaderAdmittedIff(tr: seq<State>, i: nat, s': State, r: Tid)
    requires Run(tr) && i < |tr| && r in tr[i].pcs && (tr[i].pcs[r].RCheck? || tr[i].pcs[r].RTest?) && Step(tr[i], s', r)
    ensures r in s'.pcs
    ensures s'.pcs[r].Reading? || s'.pcs[r].RRecount? <==> forall w :: w in tr[i].pcs ==> !Announced(tr[i].pcs[w])
  {
    RunKeepsInv(tr, i);
    CountZero(tr[i].pcs, Announced);
  }

  /** A writer passes its test exactly if no reader is counted. */
  lemma WriterAdmittedIff(tr: seq<State>, i: nat, s': State, w: Tid)
    requires Run(tr) && i < |tr| && w in tr[i].pcs && tr[i].pcs[w].WTest? && Step(tr[i], s', w)
    ensures w in s'.pcs && (s'.pcs[w].WLockMw? <==> forall r :: r in tr[i].pcs ==> !Counted(tr[i].pcs[r]))
  {
    RunKeepsInv(tr, i);
    CountZero(tr[i].pcs, Counted);
  }

  // ----- every operation drains, if sleepers wake

  /** What a thread has to do before it is outside again. A turn of the waiting loop that ends
      asleep is less than waking up. */
  function Left(pc: PC): nat {
    match pc
    case Idle => 0
    case RArrive => 12 case RCheck => 11 case RBackOff => 10 case RLock => 9 case RNotify => 8
    case RRelock => 8 case RTest => 7 case RSleep => 6
    case RRecount => 5 case RUnlock => 4 case Reading => 3 case RLeave => 2 case RFarewell => 1
    case WAnnounce => 10 case WLock => 9
    case WRelock => 9 case WTest => 8 case WSleep => 7
    case WLockMw => 6 case WUnlock => 5 case Writing => 4 case WRetire => 3 case WFarewell => 2 case WUnlockMw => 1
  }

  ghost function Work(s: State): nat { Weight(s.pcs, Left, 12) }

  /** An action of thread `t` that does not start a new call. */
  ghost predicate Acts(s: State, s': State, t: Tid) { t in s.pcs && !s.pcs[t].Idle? && Step(s, s', t) }

  /** The thread waits for no mutex and is not asleep. */
  predicate Awake(s: State, t: Tid)
    requires t in s.pcs
  {
    match s.pcs[t]
    case Idle => false
    case RSleep => false
    case WSleep => false
    case RLock => s.m.None?
    case RRelock => s.m.None?
    case WLock => s.m.None?
    case WRelock => s.m.None?
    case WLockMw => s.mw.None?
    case _ => true
  }

  predicate IsReader(pc: PC) {
    || pc.RArrive? || pc.RCheck? || pc.RBackOff? || pc.RLock? || pc.RNotify? || pc.RRelock? || pc.RTest? || pc.RSleep?
    || pc.RRecount? || pc.RUnlock? || pc.Reading? || pc.RLeave? || pc.RFarewell?
  }

  lemma ReaderActs(s: State, t: Tid) returns (s': State)
    requires t in s.pcs && Awake(s, t) && IsReader(s.pcs[t])
    ensures ReaderStep(s, s', t) && t in s'.pcs && Left(s'.pcs[t]) < Left(s.pcs[t])
  {
    match s.pcs[t] {
      case RArrive => s' := Goto(s, t, RCheck).(readRequests := s.readRequests + 1);
      case RCheck => s' := Goto(s, t, if s.writeRequests > 0 then RBackOff else Reading);
      case RBackOff => s' := Goto(s, t, RLock).(readRequests := s.readRequests - 1);
      case RLock => s' := Goto(s, t, RNotify).(m := Some(t));
      case RNotify => s' := Goto(s, t, RTest);
      case RRelock => s' := Goto(s, t, RTest).(m := Some(t));
      case RTest => s' := if s.writeRequests > 0 then Goto(s, t, RSleep).(m := None) else Goto(s, t, RRecount);
      case RRecount => s' := Goto(s, t, RUnlock).(readRequests := s.readRequests + 1);
      case RUnlock => s' := Goto(s, t, Reading).(m := None);
      case Reading => s' := Goto(s, t, RLeave);
      case RLeave => s' := Goto(s, t, RFarewell).(readRequests := s.readRequests - 1);
      case _ => s' := Goto(s, t, Idle);
    }
  }

  lemma WriterActs(s: State, t: Tid) returns (s': State)
    requires t in s.pcs && Awake(s, t) && !IsReader(s.pcs[t])
    ensures WriterStep(s, s', t) && t in s'.pcs && Left(s'.pcs[t]) < Left(s.pcs[t])
  {
    match s.pcs[t] {
      case WAnnounce => s' := Goto(s, t, WLock).(writeRequests := s.writeRequests + 1);
      case WLock => s' := Goto(s, t, WTest).(m := Some(t));
      case WRelock => s' := Goto(s, t, WTest).(m := Some(t));
      case WTest => s' := if s.readRequests > 0 then Goto(s, t, WSleep).(m := None) else Goto(s, t, WLockMw);
      case WLockMw => s' := Goto(s, t, WUnlock).(mw := Some(t));
      case WUnlock => s' := Goto(s, t, Writing).(m := None);
      case Writing => s' := Goto(s, t, WRetire);
      case WRetire => s' := Goto(s, t, WFarewell).(writeRequests := s.writeRequests - 1);
      case WFarewell => s' := Goto(s, t, WUnlockMw);
      case _ => s' := Goto(s, t, Idle).(mw := None);
    }
  }

  /** A run of actions none of which starts a new call. */
  ghost predicate Quiet(s: State, path: seq<State>)
    decreases |path|
  {
    path != [] ==> Continues(s, path[0]) && Quiet(path[0], path[1..])
  }

  ghost predicate Continues(s: State, s': State) { exists t :: Acts(s, s', t) }

  ghost function End(s: State, path: seq<State>): State { if path == [] then s else path[|path| - 1] }

  lemma ActFirst(s: State, s': State, rest: seq<State>, t: Tid)
    requires Acts(s, s', t) && Quiet(s', rest)
    ensures Quiet(s, [s'] + rest) && End(s, [s'] + rest) == End(s', rest)
  {
    assert ([s'] + rest)[1..] == rest;
  }

  lemma {:induction false} QuietOn(s: State, first: seq<State>, rest: seq<State>)
    requires Quiet(s, first) && Quiet(End(s, first), rest)
    ensures Quiet(s, first + rest) && End(s, first + rest) == End(End(s, first), rest)
    decreases |first|
  {
    if first == [] {
      assert first + rest == rest;
    } else {
      QuietOn(first[0], first[1..], rest);
      assert first + rest == [first[0]] + (first[1..] + rest);
      assert ([first[0]] + (first[1..] + rest))[1..] == first[1..] + rest;
    }
  }

  lemma MovedWork(s: State, s': State, t: Tid)
    requires t in s.pcs && t in s'.pcs && s'.pcs == s.pcs[t := s'.pcs[t]] && Left(s'.pcs[t]) < Left(s.pcs[t])
    ensures Work(s') < Work(s)
  {
    WeightUpdate(s.pcs, t, s'.pcs[t], Left, 12);
  }

  lemma AwakeGetsOn(s: State, t: Tid) returns (path: seq<State>)
    requires Inv(s) && t in s.pcs && Awake(s, t)
    ensures 1 <= |path| <= 3 && Quiet(s, path) && Inv(End(s, path)) && Work(End(s, path)) < Work(s)
  {
    var s';
    if IsReader(s.pcs[t]) {
      s' := ReaderActs(s, t);
      ReaderMoves(s, s', t);
    } else {
      s' := WriterActs(s, t);
      WriterMoves(s, s', t);
    }
    ActFirst(s, s', [], t);
    StepKeepsInv(s, s', t);
    MovedWork(s, s', t);
    path := [s'] + [];
  }

  lemma ThreeActs(s: State, a: State, b: State, c: State, t: Tid) returns (path: seq<State>)
    requires t in s.pcs && t in c.pcs && c.pcs == s.pcs[t := c.pcs[t]] && Left(c.pcs[t]) < Left(s.pcs[t])
    requires Inv(s) && Acts(s, a, t) && Acts(a, b, t) && Acts(b, c, t)
    ensures 1 <= |path| <= 3 && Quiet(s, path) && Inv(End(s, path)) && Work(End(s, path)) < Work(s)
  {
    ActFirst(b, c, [], t);
    ActFirst(a, b, [c] + [], t);
    ActFirst(s, a, [b] + ([c] + []), t);
    StepKeepsInv(s, a, t);
    StepKeepsInv(a, b, t);
    StepKeepsInv(b, c, t);
    MovedWork(s, c, t);
    path := [a] + ([b] + ([c] + []));
  }

  /** A sleeper that wakes takes the mutex and finds its condition met. */
  lemma SleepingReaderGetsOn(s: State, t: Tid) returns (path: seq<State>)
    requires Inv(s) && t in s.pcs && s.m.None? && s.pcs[t].RSleep? && s.writeRequests <= 0
    ensures 1 <= |path| <= 3 && Quiet(s, path) && Inv(End(s, path)) && Work(End(s, path)) < Work(s)
  {
    var awake, tests := Goto(s, t, RRelock), Goto(s, t, RTest).(m := Some(t));
    var passes := Goto(s, t, RRecount).(m := Some(t));
    assert ReaderStep(s, awake, t) && ReaderStep(awake, tests, t) && ReaderStep(tests, passes, t);
    path := ThreeActs(s, awake, tests, passes, t);
  }

  lemma WriterWakes(s: State, t: Tid)
    requires t in s.pcs && s.m.None? && s.pcs[t].WSleep? && s.readRequests <= 0
    ensures var awake, tests := Goto(s, t, WRelock), Goto(s, t, WTest).(m := Some(t));
            && WriterStep(s, awake, t) && WriterStep(awake, tests, t)
            && WriterStep(tests, Goto(s, t, WLockMw).(m := Some(t)), t)
  {
  }

  lemma SleepingWriterGetsOn(s: State, t: Tid) returns (path: seq<State>)
    requires Inv(s) && t in s.pcs && s.m.None? && s.pcs[t].WSleep? && s.readRequests <= 0
    ensures 1 <= |path| <= 3 && Quiet(s, path) && Inv(End(s, path)) && Work(End(s, path)) < Work(s)
  {
    var awake, tests := Goto(s, t, WRelock), Goto(s, t, WTest).(m := Some(t));
    var passes := Goto(s, t, WLockMw).(m := Some(t));
    WriterWakes(s, t);
    path := ThreeActs(s, awake, tests, passes, t);
  }

  predicate Asleep(pc: PC) { pc.RSleep? || pc.WSleep? }

  predicate WantsM(pc: PC) { pc.RLock? || pc.RRelock? || pc.WLock? || pc.WRelock? }

  lemma NotAwake(s: State, t: Tid)
    requires t in s.pcs && !Awake(s, t)
    ensures s.pcs[t].Idle? || Asleep(s.pcs[t]) || (WantsM(s.pcs[t]) && s.m.Some?) || (s.pcs[t].WLockMw? && s.mw.Some?)
  {
  }

  /** With nobody awake the mutexes are free, for nobody who holds one can be blocked. */
  lemma NobodyAwake(s: State)
    requires Inv(s) && forall t :: t in s.pcs ==> !Awake(s, t)
    ensures s.m.None? && forall t :: t in s.pcs ==> s.pcs[t].Idle? || Asleep(s.pcs[t])
  {
    forall t | t in s.pcs
      ensures s.pcs[t].Idle? || Asleep(s.pcs[t]) || (WantsM(s.pcs[t]) && s.m.Some?) || (s.pcs[t].WLockMw? && s.mw.Some?)
    {
      NotAwake(s, t);
    }
    assert s.mw.Some? ==> s.mw.value in s.pcs && HoldsMw(s.pcs[s.mw.value]);
    assert s.m.Some? ==> s.m.value in s.pcs && HoldsM(s.pcs[s.m.value]);
  }

  /** Some thread gets on, in every reachable state with a thread that is not outside. */
  lemma SomebodyGetsOn(s: State, t: Tid) returns (path: seq<State>)
    requires Inv(s) && t in s.pcs && !s.pcs[t].Idle?
    ensures 1 <= |path| <= 3 && Quiet(s, path) && Inv(End(s, path)) && Work(End(s, path)) < Work(s)
  {
    if u :| u in s.pcs && Awake(s, u) {
      path := AwakeGetsOn(s, u);
    } else {
      NobodyAwake(s);
      CountZero(s.pcs, Counted);
      CountZero(s.pcs, Announced);
      if u :| u in s.pcs && s.pcs[u].WSleep? {
        path := SleepingWriterGetsOn(s, u);
      } else {
        path := SleepingReaderGetsOn(s, t);
      }
    }
  }

  /** If sleepers do wake, the lock can drain from every reachable state: a run without new
      calls, of at most three actions for each unit of work, ends with every thread outside and
      both counters zero. */
  lemma {:induction false} Drains(s: State) returns (path: seq<State>)
    requires Inv(s)
    ensures Quiet(s, path) && |path| <= 3 * Work(s)
    ensures var last := End(s, path);
            && (forall t :: t in last.pcs ==> last.pcs[t].Idle?)
            && last.readRequests == 0 && last.writeRequests == 0 && last.m == None && last.mw == None
    decreases Work(s)
  {
    if t :| t in s.pcs && !s.pcs[t].Idle? {
      var first := SomebodyGetsOn(s, t);
      var rest := Drains(End(s, first));
      QuietOn(s, first, rest);
      path := first + rest;
    } else {
      CountZero(s.pcs, Counted);
      CountZero(s.pcs, Announced);
      path := [];
    }
  }

  // ----- runs that get in

  ghost function Last(tr: seq<State>): State
    requires tr != []
  {
    tr[|tr| - 1]
  }

  lemma RunOnce(tr: seq<State>, s': State, t: Tid) returns (more: seq<State>)
    requires Run(tr) && (Step(Last(tr), s', t) || Spawn(Last(tr), s', t))
    ensures Run(more) && Last(more) == s'
  {
    more := tr + [s'];
    forall i | 0 < i < |more| ensures Reached(more, i) {
      if i < |tr| {
        assert Reached(tr, i);
      }
    }
  }

  /** While no writer is announced, whoever comes to read is in after three actions of its
      own, whatever others do with the lock. */
  lemma ReaderWalksIn(tr: seq<State>, t: Tid) returns (more: seq<State>)
    requires Run(tr) && t in Last(tr).pcs && Last(tr).pcs[t].Idle?
    requires forall w :: w in Last(tr).pcs ==> !Announced(Last(tr).pcs[w])
    ensures Run(more) && Last(more) == Goto(Last(tr), t, Reading).(readRequests := Last(tr).readRequests + 1)
  {
    var s := Last(tr);
    RunKeepsInv(tr, |tr| - 1);
    CountZero(s.pcs, Announced);
    more := RunOnce(tr, Goto(s, t, RArrive), t);
    more := RunOnce(more, Goto(s, t, RCheck).(readRequests := s.readRequests + 1), t);
    more := RunOnce(more, Goto(s, t, Reading).(readRequests := s.readRequests + 1), t);
  }

  /** Some run has two threads reading at once. */
  lemma ReadersShare(t: Tid, u: Tid) returns (tr: seq<State>)
    requires t != u
    ensures Run(tr) && Last(tr) == State(2, 0, None, None, map[t := Reading, u := Reading])
  {
    tr := [State(0, 0, None, None, map[])];
    tr := RunOnce(tr, Goto(Last(tr), t, Idle), t);
    tr := RunOnce(tr, Goto(Last(tr), u, Idle), u);
    tr := ReaderWalksIn(tr, t);
    tr := ReaderWalksIn(tr, u);
    assert Last(tr).pcs == map[t := Reading, u := Reading];
  }
}
