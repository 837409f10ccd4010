/** The cache of the pumps' last states. Stored states are shared objects that the cache
    changes in place; times are in nanoseconds. */
module StateCache {
  import opened Bytes
  import opened States
  import opened Wrappers

  class UniversalState {
    var columnId: int
    var activeNozzle: int
    var kind: StateType
    var controlUser: string

    constructor (columnId: int, activeNozzle: int, kind: StateType)
      ensures this.columnId == columnId && this.activeNozzle == activeNozzle && this.kind == kind && controlUser == ""
    {
      this.columnId, this.activeNozzle, this.kind, controlUser := columnId, activeNozzle, kind, "";
    }

    method SetType(newKind: StateType)
      modifies this`kind
      ensures kind == newKind
    {
      kind := newKind;
    }

    method SetControlUser(user: string)
      modifies this`controlUser
      ensures controlUser == user
    {
      controlUser := user;
    }
  }

  datatype Thrown = OutOfRange

  // ----- what the cache holds, as a value

  datatype Slot = Slot(kind: StateType, user: string)

  datatype Cache = Cache(slots: map<int, Slot>, stamps: map<int, int>, updates: map<int, bool>, validity: int)

  predicate UserUpdates(c: Cache, id: int) { id in c.updates ==> c.updates[id] }

  predicate Actual(c: Cache, id: int, now: int) {
    id in c.stamps ==> TruncDiv(now - c.stamps[id], 1_000_000_000) <= c.validity
  }

  /** A time limit in nanoseconds, for a validity of either sign. */
  predicate InTime(reported: int, validity: int, now: int) {
    if validity >= 0 then now < reported + (validity + 1) * 1_000_000_000 else now <= reported + validity * 1_000_000_000
  }

  lemma ActualIff(c: Cache, id: int, now: int)
    ensures Actual(c, id, now) <==> id in c.stamps ==> InTime(c.stamps[id], c.validity, now)
  {
    if id in c.stamps {
      TruncDivMeans(now - c.stamps[id], 1_000_000_000);
    }
  }

  predicate HoldsTotal(c: Cache, id: int) { id in c.slots && c.slots[id].kind == TOTAL_RESPONSE }

  /** A pump that has no slot cannot hand its control user on. */
  predicate Throws(c: Cache, id: int, sourceId: int) { sourceId != 0 && id !in c.slots && !UserUpdates(c, id) }

  /** A user whose updates are not allowed keeps hold of the pump. */
  function UserFor(c: Cache, id: int): string {
    if UserUpdates(c, id) || id !in c.slots then "none" else c.slots[id].user
  }

  function SlotsWith(c: Cache, id: int, kind: StateType): map<int, Slot> {
    if HoldsTotal(c, id) then c.slots else c.slots[id := Slot(kind, UserFor(c, id))]
  }

  /** addState for a state that says it is from pump `sourceId`; an unsent total keeps its
      slot, but its time is set all the same. */
  function Added(c: Cache, id: int, kind: StateType, sourceId: int, now: int): Cache {
    if sourceId == 0 || Throws(c, id, sourceId) then c
    else c.(slots := SlotsWith(c, id, kind), stamps := c.stamps[id := now])
  }

  function Answered(c: Cache, id: int, now: int): StateType {
    if id !in c.slots || !Actual(c, id, now) then NOT_SERVED else c.slots[id].kind
  }

  function Asked(c: Cache, id: int, now: int): Cache {
    if id !in c.slots then c
    else if !Actual(c, id, now) then c.(slots := c.slots[id := c.slots[id].(kind := NOT_SERVED)])
    else if HoldsTotal(c, id) then c.(slots := c.slots[id := Slot(NOT_SERVED, "")])
    else c
  }

  // ----- the object

  class StateMap {
    var userUpdateAvailable: map<int, bool>
    var dataValidityTime: int
    var timeStamps: map<int, int>
    var states: map<int, UniversalState>

    /** No object is in two slots. */
    ghost predicate Valid()
      reads this
    {
      forall i, j :: i in states && j in states && states[i] == states[j] ==> i == j
    }

    ghost function View(): Cache
      reads this, states.Values
    {
      Cache(map id | id in states :: Slot(states[id].kind, states[id].controlUser), timeStamps, userUpdateAvailable, dataValidityTime)
    }

    constructor ()
      ensures Valid() && View() == Cache(map[], map[], map[], 0)
    {
      userUpdateAvailable, dataValidityTime, timeStamps, states := map[], 0, map[], map[];
    }

    method SetUserUpdateValidity(stateUpdate: bool, pumpId: int)
      modifies this`userUpdateAvailable
      ensures View() == old(View()).(updates := old(userUpdateAvailable)[pumpId := stateUpdate])
      ensures old(Valid()) ==> Valid()
    {
      userUpdateAvailable := userUpdateAvailable[pumpId := stateUpdate];
    }

    method CheckStateActuality(colId: int, now: int) returns (actual: bool)
      ensures actual <==> Actual(View(), colId, now)
      ensures actual <==> colId in timeStamps ==> InTime(timeStamps[colId], dataValidityTime, now)
    {
      ActualIff(View(), colId, now);
      var lastState := if colId in timeStamps then timeStamps[colId] else now;
      actual := TruncDiv(now - lastState, 1_000_000_000) <= dataValidityTime || colId !in timeStamps;
    }

    /** What the cache then holds as values is said for an object that it does not hold yet;
        a state in two slots is one object, and changes in both. */
    method Store(id: int, newState: UniversalState, user: string)
      modifies this`states, newState`controlUser
      ensures states == old(states)[id := newState] && newState.controlUser == user
      ensures old(Valid()) && newState !in old(states).Values ==>
        Valid() && View().slots == old(View().slots)[id := Slot(newState.kind, user)]
    {
      newState.SetControlUser(user);
      states := states[id := newState];
      assert newState !in old(states).Values ==> forall j :: j in states && j != id ==> states[j] != newState;
    }

    method Accept(id: int, newState: UniversalState) returns (r: Result<(), Thrown>)
      requires newState.columnId != 0
      modifies this`states, newState`controlUser
      ensures r.Failure? <==> Throws(old(View()), id, newState.columnId)
      ensures r.Failure? || HoldsTotal(old(View()), id) ==> states == old(states) && newState.controlUser == old(newState.controlUser)
      ensures r.Success? && !HoldsTotal(old(View()), id) ==>
        states == old(states)[id := newState] && newState.controlUser == UserFor(old(View()), id)
      ensures old(Valid()) && newState !in old(states).Values ==>
        Valid() && View().slots == if r.Failure? then old(View()).slots else SlotsWith(old(View()), id, newState.kind)
    {
      var updates := id in userUpdateAvailable ==> userUpdateAvailable[id];
      if id in states {
        if states[id].kind != TOTAL_RESPONSE {
          Store(id, newState, if !updates then states[id].controlUser else "none");
        }
      } else {
        if !updates {
          return Failure(OutOfRange);
        }
        Store(id, newState, "none");
      }
      r := Success(());
    }

    /** Any object may be added, one that is already in a slot included. As values the cache
        changes as `Added` says if the object is not. */
    method AddState(id: int, newState: UniversalState?, now: int) returns (r: Result<(), Thrown>)
      modifies this, if newState == null then {} else {newState}
      ensures userUpdateAvailable == old(userUpdateAvailable) && dataValidityTime == old(dataValidityTime)
      ensures newState == null ==> states == old(states) && timeStamps == old(timeStamps) && r.Success?
      ensures newState != null ==>
        && newState.kind == old(newState.kind) && newState.columnId == old(newState.columnId)
        && (r.Failure? <==> newState.columnId != 0 && id !in old(states) && id in userUpdateAvailable && !userUpdateAvailable[id])
        && timeStamps == (if newState.columnId == 0 || r.Failure? then old(timeStamps) else old(timeStamps)[id := now])
        && if newState.columnId == 0 || r.Failure? || (id in old(states) && old(states[id].kind) == TOTAL_RESPONSE) then
             states == old(states) && newState.controlUser == old(newState.controlUser)
           else
             states == old(states)[id := newState]
             && (newState.controlUser
                 == if id in old(states) && id in userUpdateAvailable && !userUpdateAvailable[id] then old(states[id].controlUser)
                    else "none")
      ensures old(Valid()) && newState != null && newState !in old(states).Values ==>
        Valid() && View() == Added(old(View()), id, newState.kind, newState.columnId, now)
    {
      r := Success(());
      if newState != null && newState.columnId != 0 {
        r := Accept(id, newState);
        if r.Success? {
          timeStamps := timeStamps[id := now];
        }
      }
    }

    method Expire(id: int, state: UniversalState)
      requires id in states && state == states[id]
      modifies state`kind
      ensures state.kind == NOT_SERVED
      ensures Valid() ==> View().slots == old(View().slots)[id := old(View().slots)[id].(kind := NOT_SERVED)]
    {
      state.SetType(NOT_SERVED);
      if Valid() {
        assert forall j :: j in states && j != id ==> states[j] != state;
        assert View().slots == old(View().slots)[id := old(View().slots)[id].(kind := NOT_SERVED)];
      }
    }

    method Consume(id: int)
      requires id in states
      modifies this`states
      ensures id in states && fresh(states[id]) && states == old(states)[id := states[id]]
      ensures states[id].kind == NOT_SERVED && states[id].controlUser == ""
      ensures View().slots == old(View().slots)[id := Slot(NOT_SERVED, "")]
      ensures old(Valid()) ==> Valid()
    {
      var notServed := new UniversalState(id, 0, NOT_SERVED);
      states := states[id := notServed];
      assert forall j :: j in states && j != id ==> states[j] != notServed;
    }

    /** The object returned for a stored state is the stored one, except that a total
        leaves the cache with it. A state that is too old is changed in place. */
    method GetState(id: int, now: int) returns (state: UniversalState)
      modifies this`states, if id in states then {states[id]} else {}
      ensures state.kind == Answered(old(View()), id, now)
      ensures var actual := id in timeStamps ==> InTime(timeStamps[id], dataValidityTime, now);
              && state.kind == (if id in old(states) && actual then old(states[id].kind) else NOT_SERVED)
              && (id in old(states) ==> state == old(states)[id])
              && if id in old(states) && actual && state.kind == TOTAL_RESPONSE
                 then id in states && states == old(states)[id := states[id]] && fresh(states[id])
                   && states[id].kind == NOT_SERVED && states[id].controlUser == ""
                 else states == old(states)
      ensures old(Valid()) ==> Valid() && View() == Asked(old(View()), id, now)
      ensures id !in old(states) ==> fresh(state)
    {
      if id in states {
        state := states[id];
        var actual := CheckStateActuality(id, now);
        if actual {
          if state.kind == TOTAL_RESPONSE {
            Consume(id);
          }
        } else {
          Expire(id, state);
        }
      } else {
        state := new UniversalState(id, 0, NOT_SERVED);
      }
    }
  }

  // ----- runs

  datatype Event =
    | Add(id: int, kind: StateType, sourceId: int, now: int)
    | Get(id: int, now: int)
    | Allow(id: int, update: bool)

  function Next(c: Cache, e: Event): Cache {
    match e
    case Add(id, kind, sourceId, now) => Added(c, id, kind, sourceId, now)
    case Get(id, now) => Asked(c, id, now)
    case Allow(id, update) => c.(updates := c.updates[id := update])
  }

  function After(c: Cache, events: seq<Event>): Cache {
    if events == [] then c else Next(After(c, events[..|events| - 1]), events[|events| - 1])
  }

  predicate StoresTotal(c: Cache, e: Event, id: int) {
    && e.Add? && e.id == id && e.kind == TOTAL_RESPONSE && e.sourceId != 0
    && !HoldsTotal(c, id) && !Throws(c, id, e.sourceId)
  }

  predicate DeliversTotal(c: Cache, e: Event, id: int) {
    e.Get? && e.id == id && Answered(c, id, e.now) == TOTAL_RESPONSE
  }

  predicate ExpiresTotal(c: Cache, e: Event, id: int) {
    e.Get? && e.id == id && HoldsTotal(c, id) && !Actual(c, id, e.now)
  }

  function Count(c: Cache, events: seq<Event>, happens: (Cache, Event) -> bool): nat {
    if events == [] then 0
    else
      var n := |events| - 1;
      Count(c, events[..n], happens) + (if happens(After(c, events[..n]), events[n]) then 1 else 0)
  }

  function Stored(id: int): (Cache, Event) -> bool { (c, e) => StoresTotal(c, e, id) }

  function Delivered(id: int): (Cache, Event) -> bool { (c, e) => DeliversTotal(c, e, id) }

  function Expired(id: int): (Cache, Event) -> bool { (c, e) => ExpiresTotal(c, e, id) }

  function Pending(c: Cache, id: int): nat { if HoldsTotal(c, id) then 1 else 0 }

  lemma StepBalances(c: Cache, e: Event, id: int)
    ensures Pending(Next(c, e), id) + (if DeliversTotal(c, e, id) then 1 else 0) + (if ExpiresTotal(c, e, id) then 1 else 0)
         == Pending(c, id) + (if StoresTotal(c, e, id) then 1 else 0)
  {
  }

  /** Every total that was ever stored for a pump has been handed out once, has gone stale
      unread, or is still waiting: none is lost, none is handed out twice. */
  lemma {:induction false} TotalsConserved(c: Cache, events: seq<Event>, id: int)
    ensures Pending(c, id) + Count(c, events, Stored(id))
         == Count(c, events, Delivered(id)) + Count(c, events, Expired(id)) + Pending(After(c, events), id)
  {
    if events != [] {
      var n := |events| - 1;
      TotalsConserved(c, events[..n], id);
      StepBalances(After(c, events[..n]), events[n], id);
    }
  }

  ghost predicate NeverAsked(events: seq<Event>, id: int) { forall i :: 0 <= i < |events| ==> events[i].Get? ==> events[i].id != id }

  /** A waiting total survives whatever is reported, for its pump or others, until its pump
      is asked for. */
  lemma {:induction false} TotalSurvives(c: Cache, events: seq<Event>, id: int)
    requires HoldsTotal(c, id) && NeverAsked(events, id)
    ensures HoldsTotal(After(c, events), id)
  {
    if events != [] {
      TotalSurvives(c, events[..|events| - 1], id);
    }
  }

  /** It is then handed out if and only if it is not too old since the last report, and is
      gone either way. */
  lemma TotalAnsweredOnce(c: Cache, events: seq<Event>, id: int, now: int)
    requires HoldsTotal(c, id) && NeverAsked(events, id)
    ensures var c' := After(c, events);
            && (Answered(c', id, now) == TOTAL_RESPONSE <==> id in c'.stamps ==> InTime(c'.stamps[id], c'.validity, now))
            && id in Asked(c', id, now).slots && Asked(c', id, now).slots[id].kind == NOT_SERVED
  {
    TotalSurvives(c, events, id);
    ActualIff(After(c, events), id, now);
  }

  /** No report with a pump id of its own arrives for this pump. */
  ghost predicate Silent(events: seq<Event>, id: int) {
    forall i :: 0 <= i < |events| ==> events[i].Add? ==> events[i].id != id || events[i].sourceId == 0
  }

  lemma {:induction false} StaysUnserved(c: Cache, events: seq<Event>, id: int)
    requires id in c.slots && c.slots[id].kind == NOT_SERVED && Silent(events, id)
    ensures var c' := After(c, events); id in c'.slots && c'.slots[id].kind == NOT_SERVED
  {
    if events != [] {
      StaysUnserved(c, events[..|events| - 1], id);
    }
  }

  /** A pump that was asked for too late, or has just handed out its total, is not served
      until it reports again; then it is, whatever it reports. */
  lemma UnservedUntilReport(c: Cache, events: seq<Event>, id: int, asked: int, now: int, report: Event)
    requires id in c.slots && Silent(events, id)
    requires (id in c.stamps && !InTime(c.stamps[id], c.validity, asked)) || c.slots[id].kind == TOTAL_RESPONSE
    requires report.Add? && report.id == id && report.sourceId != 0
    ensures var c' := After(Asked(c, id, asked), events);
            && Answered(c', id, now) == NOT_SERVED
            && id in Next(c', report).slots && Next(c', report).slots[id].kind == report.kind
  {
    ActualIff(c, id, asked);
    StaysUnserved(Asked(c, id, asked), events, id);
  }

  /** One of the questions about this pump came too late. */
  ghost predicate AskedLate(events: seq<Event>, id: int, reported: int, validity: int) {
    exists i :: 0 <= i < |events| && LateGet(events[i], id, reported, validity)
  }

  predicate LateGet(e: Event, id: int, reported: int, validity: int) {
    e.Get? && e.id == id && !InTime(reported, validity, e.now)
  }

  lemma AskedLateSnoc(events: seq<Event>, last: Event, id: int, reported: int, validity: int)
    ensures AskedLate(events + [last], id, reported, validity)
       <==> AskedLate(events, id, reported, validity) || LateGet(last, id, reported, validity)
  {
    var all := events + [last];
    if AskedLate(events, id, reported, validity) {
      var i :| 0 <= i < |events| && LateGet(events[i], id, reported, validity);
      assert all[i] == events[i];
    }
    if LateGet(last, id, reported, validity) {
      assert all[|events|] == last;
    }
  }

  lemma {:induction false} KeptWhileFresh(c: Cache, events: seq<Event>, id: int, reported: int)
    requires id in c.slots && c.slots[id].kind != TOTAL_RESPONSE && id in c.stamps && c.stamps[id] == reported
    requires Silent(events, id)
    ensures var c' := After(c, events);
            && c'.validity == c.validity && id in c'.stamps && c'.stamps[id] == reported && id in c'.slots
            && c'.slots[id].kind == if AskedLate(events, id, reported, c.validity) then NOT_SERVED else c.slots[id].kind
  {
    if events != [] {
      var n := |events| - 1;
      KeptWhileFresh(c, events[..n], id, reported);
      assert events == events[..n] + [events[n]];
      AskedLateSnoc(events[..n], events[n], id, reported, c.validity);
      if events[n].Get? {
        ActualIff(After(c, events[..n]), id, events[n].now);
      }
    }
  }

  /** What a pump reports is answered for as many nanoseconds as the validity time and one
      second more, until it reports again; once asked for later, it is not served. A negative
      validity time, which nothing excludes, has no second more. */
  lemma AnsweredWhileFresh(c: Cache, report: Event, events: seq<Event>, now: int)
    requires report.Add? && report.sourceId != 0 && report.kind != TOTAL_RESPONSE
    requires if report.id in c.slots then c.slots[report.id].kind != TOTAL_RESPONSE
             else report.id in c.updates ==> c.updates[report.id]
    requires Silent(events, report.id)
    ensures var until := report.now + (if c.validity >= 0 then (c.validity + 1) * 1_000_000_000 else c.validity * 1_000_000_000 + 1);
            Answered(After(Next(c, report), events), report.id, now)
            == if now < until && (forall e :: e in events && e.Get? && e.id == report.id ==> e.now < until) then report.kind
               else NOT_SERVED
  {
    var c' := Next(c, report);
    KeptWhileFresh(c', events, report.id, report.now);
    ActualIff(After(c', events), report.id, now);
    if AskedLate(events, report.id, report.now, c.validity) {
      var i :| 0 <= i < |events| && LateGet(events[i], report.id, report.now, c.validity);
      assert events[i] in events;
    } else {
      forall e | e in events && e.Get? && e.id == report.id ensures InTime(report.now, c.validity, e.now) {
        var i :| 0 <= i < |events| && events[i] == e;
        assert !LateGet(events[i], report.id, report.now, c.validity);
      }
    }
  }
}
