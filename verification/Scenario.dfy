/** The simulated pumps behind a cash register. */
module Scenario {
  import opened Bytes
  import opened Float32
  import opened States
  import opened Supply
  import opened Wrappers

  type ColumnId = int

  datatype Phase = AtRest | NozzleUp | Authorized | TenPercent | NinetyPercent | HundredPercent | Close

  datatype Pump = Pump(nozzle: int, volume: int, price: int, phase: Phase, logic: LogicType)

  datatype Amount = Amount(volume: int, price: int, sum: int)

  datatype Response = Response(id: ColumnId, nozzle: int, state: StateType, amount: Option<Amount>)

  /** Nozzle, volume and price are those of an authorization. */
  datatype Cmd = Cmd(id: ColumnId, cmdType: CmdType, nozzle: int, volume: int, price: int)

  /** A response, a null pointer, or a null pointer that was dereferenced. */
  datatype Outcome = Answer(response: Response) | NoAnswer | Crash

  datatype Thrown = OutOfRange

  /** The fields of the object. */
  datatype World = World(states: map<ColumnId, Pump>, last: Option<Response>, stamps: map<ColumnId, int>)

  const RESTING := Pump(0, 0, 0, AtRest, IDLE)

  function LastOf(last: Option<Response>): Outcome { if last.Some? then Answer(last.value) else NoAnswer }

  function AmountResponse(id: ColumnId, p: Pump, volume: int, state: StateType): Response {
    Response(id, p.nozzle, state, Some(Amount(volume, p.price, SumOf(volume, p.price))))
  }

  // ----- the state machine

  /** addState with the pump that an authorization describes. */
  function Authorize(w: World, c: Cmd, now: int): World {
    w.(states := w.states[c.id := Pump(c.nozzle, c.volume, c.price, Authorized, SLEEP)], stamps := w.stamps[c.id := now])
  }

  /** Whole seconds since the pump was authorized or put into its scenario; times are in
      nanoseconds. */
  function Elapsed(w: World, id: ColumnId, now: int): int {
    if id in w.stamps then TruncDiv(now - w.stamps[id], 1_000_000_000) else 0
  }

  function AtRestStep(w: World, c: Cmd, now: int, waiting: int): (World, Outcome)
    requires c.id in w.states
  {
    var p := if Elapsed(w, c.id, now) > waiting then w.states[c.id].(logic := IDLE) else w.states[c.id];
    var w' := w.(states := w.states[c.id := p]);
    if c.cmdType == WRITE_VOLUME then
      var r := Response(c.id, c.nozzle, REMOVED_WAITING, None);
      (Authorize(w', c, now).(last := Some(r)), Answer(r))
    else
      (w', Answer(Response(c.id, p.nozzle, REMOVED_WAITING, None)))
  }

  /** One of the three status requests that move a supply on. */
  function Advance(w: World, id: ColumnId, stage: nat, next: Phase, state: StateType): (World, Outcome)
    requires id in w.states && stage < 3
  {
    var p := w.states[id];
    var volume := if stage == 0 then Ten(p.volume) else if stage == 1 then Ninety(p.volume) else Hundred(p.volume);
    var r := AmountResponse(id, p, volume, state);
    (w.(states := w.states[id := p.(phase := next, volume := Kept(volume, p.volume))], last := Some(r)), Answer(r))
  }

  function SleepStep(w: World, c: Cmd, now: int, waiting: int): (World, Outcome)
    requires c.id in w.states
  {
    match w.states[c.id].phase
    case AtRest => AtRestStep(w, c, now, waiting)
    case NozzleUp =>
      if c.cmdType == WRITE_VOLUME then (Authorize(w, c, now), Crash) else (w, LastOf(w.last))
    case Authorized =>
      if c.cmdType == STATUS_REQUEST then Advance(w, c.id, 0, TenPercent, FUEL_SUPPLY) else (w, LastOf(w.last))
    case TenPercent =>
      if c.cmdType == STATUS_REQUEST then Advance(w, c.id, 1, NinetyPercent, FUEL_SUPPLY) else (w, LastOf(w.last))
    case NinetyPercent =>
      if c.cmdType == STATUS_REQUEST then Advance(w, c.id, 2, HundredPercent, SUPPLY_DONE) else (w, LastOf(w.last))
    case HundredPercent =>
      if c.cmdType == STOP_COMMAND then
        (w.(states := w.states[c.id := RESTING]), Answer(Response(c.id, 0, SUPPLY_STOPPED, Some(Amount(0, 0, 0)))))
      else (w, LastOf(w.last))
    case Close =>
      if c.cmdType == STOP_COMMAND then
        (w.(states := w.states[c.id := w.states[c.id].(phase := AtRest)]), Crash)
      else (w, LastOf(w.last))
  }

  function Process(w: World, c: Cmd, now: int, waiting: int): (World, Outcome) {
    if c.id !in w.states then (w, Answer(Response(c.id, 0, HANGED_FREE, None)))
    else match w.states[c.id].logic
      case IDLE =>
        (w, Answer(Response(c.id, 0, if c.cmdType == GET_TOTAL then TOTAL_RESPONSE else HANGED_FREE, None)))
      case SLEEP => SleepStep(w, c, now, waiting)
      case CONTROL => (w, NoAnswer)
  }

  function ChangeLogic(w: World, id: ColumnId, nozzle: int, logic: LogicType, now: int): World {
    w.(states := w.states[id := Pump(nozzle, 0, 0, AtRest, logic)],
       stamps := if logic == SLEEP then w.stamps[id := now] else w.stamps)
  }

  // ----- the object

  class Scenario {
    var timeActivityCommandWaiting: int
    var states: map<ColumnId, Pump>
    var lastStateResponse: Option<Response>
    var timeStamps: map<ColumnId, int>

    ghost function View(): World
      reads this
    {
      World(states, lastStateResponse, timeStamps)
    }

    /** Every configured pump starts at rest; the first entry for an id wins. */
    constructor (pumpIds: seq<ColumnId>, waiting: int)
      ensures View() == Initial(set id | id in pumpIds) && timeActivityCommandWaiting == waiting
    {
      timeActivityCommandWaiting, lastStateResponse, timeStamps := waiting, None, map[];
      states := map id | id in pumpIds :: RESTING;
    }

    method SetTime(colId: ColumnId, now: int)
      modifies this
      ensures View() == old(View()).(stamps := old(timeStamps)[colId := now])
      ensures timeActivityCommandWaiting == old(timeActivityCommandWaiting)
    {
      timeStamps := timeStamps[colId := now];
    }

    /** `states.at(id)` throws for a pump that is not configured, after its time was set. */
    method AddState(id: ColumnId, pump: Pump, now: int) returns (r: Result<(), Thrown>)
      modifies this
      ensures r == if id in old(states) then Success(()) else Failure(OutOfRange)
      ensures View() == World(if r.Success? then old(states)[id := pump] else old(states), old(lastStateResponse),
                              old(timeStamps)[id := now])
      ensures timeActivityCommandWaiting == old(timeActivityCommandWaiting)
    {
      SetTime(id, now);
      if id !in states {
        return Failure(OutOfRange);
      }
      states := states[id := pump];
      r := Success(());
    }

    method UpdateState(id: ColumnId, phase: Phase, newVolume: int) returns (r: Result<(), Thrown>)
      modifies this
      ensures r == if id in old(states) then Success(()) else Failure(OutOfRange)
      ensures states == if r.Failure? then old(states)
                        else old(states)[id := old(states)[id].(phase := phase, volume := Kept(newVolume, old(states)[id].volume))]
      ensures lastStateResponse == old(lastStateResponse) && timeStamps == old(timeStamps)
      ensures timeActivityCommandWaiting == old(timeActivityCommandWaiting)
    {
      if id !in states {
        return Failure(OutOfRange);
      }
      states := states[id := states[id].(phase := phase)];
      if newVolume != 0 {
        states := states[id := states[id].(volume := newVolume)];
      }
      r := Success(());
    }

    method CheckActivityTime(colId: ColumnId, now: int) returns (active: bool)
      ensures active <==> Elapsed(View(), colId, now) <= timeActivityCommandWaiting
      ensures colId in timeStamps && timeActivityCommandWaiting >= 0 ==>
        (active <==> now < timeStamps[colId] + (timeActivityCommandWaiting + 1) * 1_000_000_000)
      ensures colId in timeStamps && timeActivityCommandWaiting < 0 ==>
        (active <==> now <= timeStamps[colId] + timeActivityCommandWaiting * 1_000_000_000)
      ensures colId !in timeStamps ==> (active <==> timeActivityCommandWaiting >= 0)
    {
      if colId in timeStamps && timeActivityCommandWaiting >= 0 {
        WholeSeconds(now - timeStamps[colId], timeActivityCommandWaiting);
      } else if colId in timeStamps {
        TruncDivMeans(now - timeStamps[colId], 1_000_000_000);
      }
      var updateTime := if colId in timeStamps then timeStamps[colId] else now;
      var timeElapsed := TruncDiv(now - updateTime, 1_000_000_000);
      active := timeElapsed <= timeActivityCommandWaiting;
    }

    method OperateSleepIdle(c: Cmd, now: int) returns (o: Outcome)
      requires c.id in states
      modifies this
      ensures timeActivityCommandWaiting == old(timeActivityCommandWaiting)
      ensures c.cmdType == WRITE_VOLUME ==>
        o == Answer(Response(c.id, c.nozzle, REMOVED_WAITING, None)) && View() == Authorize(old(View()), c, now).(last := Some(o.response))
      ensures c.cmdType != WRITE_VOLUME ==>
        o == Answer(Response(c.id, old(states)[c.id].nozzle, REMOVED_WAITING, None)) && View() == old(View())
    {
      if c.cmdType == WRITE_VOLUME {
        var _ := AddState(c.id, Pump(c.nozzle, c.volume, c.price, Authorized, SLEEP), now);
        lastStateResponse := Some(Response(c.id, c.nozzle, REMOVED_WAITING, None));
        o := Answer(lastStateResponse.value);
      } else {
        o := Answer(Response(c.id, states[c.id].nozzle, REMOVED_WAITING, None));
      }
    }

    method OperateSleepAuthorized(c: Cmd) returns (o: Outcome)
      requires c.id in states
      modifies this
      ensures o == if lastStateResponse.Some? then Answer(lastStateResponse.value) else NoAnswer
      ensures timeActivityCommandWaiting == old(timeActivityCommandWaiting)
      ensures (View(), o) == if c.cmdType == STATUS_REQUEST then Advance(old(View()), c.id, 0, TenPercent, FUEL_SUPPLY)
                             else (old(View()), LastOf(old(lastStateResponse)))
    {
      if c.cmdType == STATUS_REQUEST {
        var p := states[c.id];
        var tenVolume := Ten(p.volume);
        lastStateResponse := Some(AmountResponse(c.id, p, tenVolume, FUEL_SUPPLY));
        var _ := UpdateState(c.id, TenPercent, tenVolume);
      }
      o := LastOf(lastStateResponse);
    }

    method OperateSleepTenPercent(c: Cmd) returns (o: Outcome)
      requires c.id in states
      modifies this
      ensures o == if lastStateResponse.Some? then Answer(lastStateResponse.value) else NoAnswer
      ensures timeActivityCommandWaiting == old(timeActivityCommandWaiting)
      ensures (View(), o) == if c.cmdType == STATUS_REQUEST then Advance(old(View()), c.id, 1, NinetyPercent, FUEL_SUPPLY)
                             else (old(View()), LastOf(old(lastStateResponse)))
    {
      if c.cmdType == STATUS_REQUEST {
        var p := states[c.id];
        var ninetyVolume := Ninety(p.volume);
        var _ := UpdateState(c.id, NinetyPercent, ninetyVolume);
        lastStateResponse := Some(AmountResponse(c.id, p, ninetyVolume, FUEL_SUPPLY));
      }
      o := LastOf(lastStateResponse);
    }

    method OperateSleepNinetyPercent(c: Cmd) returns (o: Outcome)
      requires c.id in states
      modifies this
      ensures o == if lastStateResponse.Some? then Answer(lastStateResponse.value) else NoAnswer
      ensures timeActivityCommandWaiting == old(timeActivityCommandWaiting)
      ensures (View(), o) == if c.cmdType == STATUS_REQUEST then Advance(old(View()), c.id, 2, HundredPercent, SUPPLY_DONE)
                             else (old(View()), LastOf(old(lastStateResponse)))
    {
      if c.cmdType == STATUS_REQUEST {
        var p := states[c.id];
        var hundredVolume := Hundred(p.volume);
        var _ := UpdateState(c.id, HundredPercent, hundredVolume);
        lastStateResponse := Some(AmountResponse(c.id, p, hundredVolume, SUPPLY_DONE));
      }
      o := LastOf(lastStateResponse);
    }

    method OperateSleepHundredPercent(c: Cmd) returns (o: Outcome)
      requires c.id in states
      modifies this
      ensures timeActivityCommandWaiting == old(timeActivityCommandWaiting)
      ensures lastStateResponse == old(lastStateResponse) && timeStamps == old(timeStamps)
      ensures c.cmdType == STOP_COMMAND ==>
        (states == old(states)[c.id := RESTING] && o == Answer(Response(c.id, 0, SUPPLY_STOPPED, Some(Amount(0, 0, 0)))))
      ensures c.cmdType != STOP_COMMAND ==>
        states == old(states) && o == if lastStateResponse.Some? then Answer(lastStateResponse.value) else NoAnswer
    {
      if c.cmdType == STOP_COMMAND {
        states := states[c.id := RESTING];
        o := Answer(Response(c.id, 0, SUPPLY_STOPPED, Some(Amount(0, 0, 0))));
      } else {
        o := LastOf(lastStateResponse);
      }
    }

    /** The two handlers that write through a null pointer do so after they have changed
        the pump. */
    method OperateSleepState(c: Cmd, now: int) returns (o: Outcome)
      requires c.id in states
      modifies this
      ensures timeActivityCommandWaiting == old(timeActivityCommandWaiting)
      ensures (View(), o) == SleepStep(old(View()), c, now, timeActivityCommandWaiting)
      ensures old(states)[c.id].phase.AtRest? ==>
        o == Answer(Response(c.id, if c.cmdType == WRITE_VOLUME then c.nozzle else old(states)[c.id].nozzle, REMOVED_WAITING, None))
      ensures old(states)[c.id].phase.NozzleUp? || old(states)[c.id].phase.Close? ==>
        o == if c.cmdType == (if old(states)[c.id].phase.Close? then STOP_COMMAND else WRITE_VOLUME) then Crash
             else if old(lastStateResponse).Some? then Answer(old(lastStateResponse).value)
             else NoAnswer
      ensures old(states)[c.id].phase.NozzleUp? && c.cmdType == WRITE_VOLUME ==>
        && states == old(states)[c.id := Pump(c.nozzle, c.volume, c.price, Authorized, SLEEP)]
        && timeStamps == old(timeStamps)[c.id := now] && lastStateResponse == old(lastStateResponse)
      ensures old(states)[c.id].phase.Close? && c.cmdType == STOP_COMMAND ==>
        && states == old(states)[c.id := old(states)[c.id].(phase := AtRest)]
        && timeStamps == old(timeStamps) && lastStateResponse == old(lastStateResponse)
    {
      match states[c.id].phase {
        case AtRest =>
          var active := CheckActivityTime(c.id, now);
          if !active {
            states := states[c.id := states[c.id].(logic := IDLE)];
          }
          ghost var p := states[c.id];
          assert states == old(states)[c.id := p];
          o := OperateSleepIdle(c, now);
        case NozzleUp =>
          if c.cmdType == WRITE_VOLUME {
            var _ := AddState(c.id, Pump(c.nozzle, c.volume, c.price, Authorized, SLEEP), now);
            o := Crash;
          } else {
            o := LastOf(lastStateResponse);
          }
        case Authorized => o := OperateSleepAuthorized(c);
        case TenPercent => o := OperateSleepTenPercent(c);
        case NinetyPercent => o := OperateSleepNinetyPercent(c);
        case HundredPercent => o := OperateSleepHundredPercent(c);
        case Close =>
          if c.cmdType == STOP_COMMAND {
            var _ := UpdateState(c.id, AtRest, 0);
            o := Crash;
          } else {
            o := LastOf(lastStateResponse);
          }
      }
    }

    method ProcessCmd(c: Cmd, now: int) returns (o: Outcome)
      modifies this
      ensures timeActivityCommandWaiting == old(timeActivityCommandWaiting)
      ensures (View(), o) == Process(old(View()), c, now, timeActivityCommandWaiting)
      ensures c.id !in old(states) ==> View() == old(View()) && o == Answer(Response(c.id, 0, HANGED_FREE, None))
      ensures c.id in old(states) && old(states)[c.id].logic == CONTROL ==> View() == old(View()) && o == NoAnswer
      ensures c.id in old(states) && old(states)[c.id].logic == IDLE ==>
        View() == old(View()) && o == Answer(Response(c.id, 0, if c.cmdType == GET_TOTAL then TOTAL_RESPONSE else HANGED_FREE, None))
    {
      if c.id !in states {
        return Answer(Response(c.id, 0, HANGED_FREE, None));
      }
      match states[c.id].logic {
        case IDLE =>
          if c.cmdType == GET_TOTAL {
            o := Answer(Response(c.id, 0, TOTAL_RESPONSE, None));
          } else {
            o := Answer(Response(c.id, 0, HANGED_FREE, None));
          }
        case SLEEP => o := OperateSleepState(c, now);
        case CONTROL => o := NoAnswer;
      }
    }

    method ChangeLogicType(id: ColumnId, nozzle: int, logic: LogicType, now: int)
      modifies this
      ensures timeActivityCommandWaiting == old(timeActivityCommandWaiting)
      ensures View() == ChangeLogic(old(View()), id, nozzle, logic, now)
      ensures states == old(states)[id := Pump(nozzle, 0, 0, AtRest, logic)] && lastStateResponse == old(lastStateResponse)
      ensures timeStamps == if logic == SLEEP then old(timeStamps)[id := now] else old(timeStamps)
    {
      states := states[id := Pump(nozzle, 0, 0, AtRest, logic)];
      if logic == SLEEP {
        SetTime(id, now);
      }
    }
  }

  // ----- runs

  function Initial(ids: set<ColumnId>): World { World(map id | id in ids :: RESTING, None, map[]) }

  datatype Event =
    | Command(cmd: Cmd, now: int)
    | Scenery(id: ColumnId, nozzle: int, logic: LogicType, now: int)

  function Next(w: World, e: Event, waiting: int): World {
    match e
    case Command(c, now) => Process(w, c, now, waiting).0
    case Scenery(id, nozzle, logic, now) => ChangeLogic(w, id, nozzle, logic, now)
  }

  function After(w: World, events: seq<Event>, waiting: int): World {
    if events == [] then w
    else Next(After(w, events[..|events| - 1], waiting), events[|events| - 1], waiting)
  }

  // ----- safety

  predicate InSupply(phase: Phase) { phase.Authorized? || phase.TenPercent? || phase.NinetyPercent? || phase.HundredPercent? }

  predicate Supplying(state: StateType) { state == FUEL_SUPPLY || state == SUPPLY_DONE }

  predicate Sane(r: Response) { Supplying(r.state) ==> r.amount.Some? }

  ghost predicate Safe(w: World) {
    && (forall id :: id in w.states ==>
      w.states[id].phase.AtRest? || (InSupply(w.states[id].phase) && w.last.Some?))
    && (w.last.Some? ==> Sane(w.last.value))
  }

  lemma CommandKeepsSafe(w: World, c: Cmd, now: int, waiting: int)
    requires Safe(w)
    ensures Safe(Process(w, c, now, waiting).0)
    ensures var o := Process(w, c, now, waiting).1;
            && !o.Crash?
            && (o.NoAnswer? <==> c.id in w.states && w.states[c.id].logic == CONTROL)
            && (o.Answer? ==> Sane(o.response))
  {
  }

  lemma {:induction false} RunKeepsSafe(w: World, events: seq<Event>, waiting: int)
    requires Safe(w)
    ensures Safe(After(w, events, waiting))
  {
    if events != [] {
      var n := |events| - 1;
      RunKeepsSafe(w, events[..n], waiting);
      var e := events[n];
      if e.Command? {
        CommandKeepsSafe(After(w, events[..n], waiting), e.cmd, e.now, waiting);
      }
    }
  }

  /** From the constructor's state on, whatever commands and scenario changes arrive: no
      null pointer is written through, a null pointer is answered only for a pump under
      control, and every answer that reports a supply carries an amount. */
  lemma EveryAnswerSane(ids: set<ColumnId>, events: seq<Event>, waiting: int, c: Cmd, now: int)
    ensures var w := After(Initial(ids), events, waiting);
            var o := Process(w, c, now, waiting).1;
            && !o.Crash?
            && (o.NoAnswer? <==> c.id in w.states && w.states[c.id].logic == CONTROL)
            && (o.Answer? ==> Sane(o.response))
  {
    RunKeepsSafe(Initial(ids), events, waiting);
    CommandKeepsSafe(After(Initial(ids), events, waiting), c, now, waiting);
  }

  // ----- a supply, interleaved with anything else

  predicate Advancing(e: Event, id: ColumnId) { e.Command? && e.cmd.id == id && e.cmd.cmdType == STATUS_REQUEST }

  function Advances(events: seq<Event>, id: ColumnId): nat {
    if events == [] then 0
    else Advances(events[..|events| - 1], id) + (if Advancing(events[|events| - 1], id) then 1 else 0)
  }

  ghost predicate NoScenery(events: seq<Event>, id: ColumnId) {
    forall i :: 0 <= i < |events| ==> events[i].Command? || events[i].id != id
  }

  /** The pump after so many advancing requests. */
  function PumpAt(order: Cmd, stage: nat): Pump
    requires stage <= 3
  {
    Pump(order.nozzle, Stored(order.volume, stage), order.price,
         if stage == 0 then Authorized else if stage == 1 then TenPercent else if stage == 2 then NinetyPercent else HundredPercent,
         SLEEP)
  }

  ghost predicate At(w: World, order: Cmd, stage: nat)
    requires stage <= 3
  {
    order.id in w.states && w.states[order.id] == PumpAt(order, stage)
  }

  lemma OtherEventsKeep(w: World, order: Cmd, stage: nat, e: Event, waiting: int)
    requires stage <= 3 && At(w, order, stage)
    requires !Advancing(e, order.id) && (e.Scenery? ==> e.id != order.id)
    requires stage == 3 ==> !(e.Command? && e.cmd.id == order.id && e.cmd.cmdType == STOP_COMMAND)
    ensures At(Next(w, e, waiting), order, stage)
  {
  }

  lemma AdvancingMoves(w: World, order: Cmd, stage: nat, e: Event, waiting: int)
    requires stage < 3 && At(w, order, stage) && Advancing(e, order.id)
    ensures At(Next(w, e, waiting), order, stage + 1)
    ensures Process(w, e.cmd, e.now, waiting).1
         == Answer(AmountResponse(order.id, PumpAt(order, stage), Answered(order.volume, stage),
                                  if stage == 2 then SUPPLY_DONE else FUEL_SUPPLY))
  {
  }

  lemma {:induction false} StageCountsRequests(w: World, order: Cmd, events: seq<Event>, waiting: int)
    requires At(w, order, 0) && NoScenery(events, order.id) && Advances(events, order.id) < 3
    ensures At(After(w, events, waiting), order, Advances(events, order.id))
  {
    if events != [] {
      var n := |events| - 1;
      StageCountsRequests(w, order, events[..n], waiting);
      var before, stage := After(w, events[..n], waiting), Advances(events[..n], order.id);
      if Advancing(events[n], order.id) {
        AdvancingMoves(before, order, stage, events[n], waiting);
      } else {
        OtherEventsKeep(before, order, stage, events[n], waiting);
      }
    }
  }

  /** Once an order is accepted, and whatever happens to other pumps or is asked of this one
      in between, its next three status requests are answered with the supply's three
      volumes, each with its price and its sum, the last as done. */
  lemma SupplyAnswers(w: World, order: Cmd, events: seq<Event>, c: Cmd, now: int, waiting: int)
    requires At(w, order, 0) && NoScenery(events, order.id) && Advances(events, order.id) < 3
    requires c.id == order.id && c.cmdType == STATUS_REQUEST
    ensures var stage := Advances(events, order.id);
            var volume := Answered(order.volume, stage);
            Process(After(w, events, waiting), c, now, waiting).1
            == Answer(Response(order.id, order.nozzle, if stage == 2 then SUPPLY_DONE else FUEL_SUPPLY,
                               Some(Amount(volume, order.price, SumOf(volume, order.price)))))
  {
    StageCountsRequests(w, order, events, waiting);
    AdvancingMoves(After(w, events, waiting), order, Advances(events, order.id), Command(c, now), waiting);
  }

  /** An order is accepted exactly by a sleeping pump at rest, even if its time is up. */
  lemma OrderAcceptedIff(w: World, order: Cmd, now: int, waiting: int)
    requires order.cmdType == WRITE_VOLUME && Safe(w) && order.id in w.states && !InSupply(w.states[order.id].phase)
    ensures At(Process(w, order, now, waiting).0, order, 0) <==> w.states[order.id].logic == SLEEP
  {
  }

  // ----- the time limit at rest

  /** Commands for this pump that are no order, and no change of its scenario. */
  ghost predicate Pestered(events: seq<Event>, id: ColumnId, from: int, waiting: int) {
    forall i :: 0 <= i < |events| ==> Pestering(events[i], id, from, waiting)
  }

  /** The clock is steady: nothing for this pump is earlier than the change that put it to sleep. */
  predicate Pestering(e: Event, id: ColumnId, from: int, waiting: int) {
    if e.Scenery? then e.id != id
    else e.cmd.id == id ==> e.cmd.cmdType != WRITE_VOLUME && (waiting >= 0 || e.now >= from)
  }

  predicate IsLate(e: Event, id: ColumnId, from: int, waiting: int) {
    e.Command? && e.cmd.id == id && e.now >= from + (waiting + 1) * 1_000_000_000
  }

  ghost predicate SomeLate(events: seq<Event>, id: ColumnId, from: int, waiting: int) {
    exists i :: 0 <= i < |events| && IsLate(events[i], id, from, waiting)
  }

  lemma WholeSeconds(elapsed: int, waiting: int)
    requires waiting >= 0 || elapsed >= 0
    ensures TruncDiv(elapsed, 1_000_000_000) > waiting <==> elapsed >= (waiting + 1) * 1_000_000_000
  {
  }

  ghost predicate Resting(w: World, id: ColumnId, nozzle: int, from: int, logic: LogicType) {
    && id in w.states && w.states[id] == Pump(nozzle, 0, 0, AtRest, logic)
    && id in w.stamps && w.stamps[id] == from
  }

  lemma PesteringStep(w: World, e: Event, id: ColumnId, nozzle: int, from: int, waiting: int, idle: bool)
    requires Resting(w, id, nozzle, from, if idle then IDLE else SLEEP) && Pestering(e, id, from, waiting)
    ensures Resting(Next(w, e, waiting), id, nozzle, from, if idle || IsLate(e, id, from, waiting) then IDLE else SLEEP)
  {
    if e.Command? && e.cmd.id == id {
      WholeSeconds(e.now - from, waiting);
    }
  }

  lemma {:induction false} SleepsUntilLate(w: World, id: ColumnId, nozzle: int, from: int, events: seq<Event>, waiting: int)
    requires Resting(w, id, nozzle, from, SLEEP) && Pestered(events, id, from, waiting)
    ensures Resting(After(w, events, waiting), id, nozzle, from, if SomeLate(events, id, from, waiting) then IDLE else SLEEP)
  {
    if events != [] {
      var n := |events| - 1;
      SleepsUntilLate(w, id, nozzle, from, events[..n], waiting);
      PesteringStep(After(w, events[..n], waiting), events[n], id, nozzle, from, waiting, SomeLate(events[..n], id, from, waiting));
      LateBefore(events, id, from, waiting);
    }
  }

  lemma LateBefore(events: seq<Event>, id: ColumnId, from: int, waiting: int)
    requires events != []
    ensures var n := |events| - 1;
            SomeLate(events, id, from, waiting) <==> SomeLate(events[..n], id, from, waiting) || IsLate(events[n], id, from, waiting)
  {
    var n := |events| - 1;
    if i :| 0 <= i < n && IsLate(events[..n][i], id, from, waiting) {
      assert IsLate(events[i], id, from, waiting);
    }
    if i :| 0 <= i < |events| && IsLate(events[i], id, from, waiting) {
      assert i < n ==> IsLate(events[..n][i], id, from, waiting);
    }
  }

  /** A pump is put to sleep and then asked things that are no order, among anything that
      happens to other pumps. An order is accepted, at whatever time, if each of those commands
      came before one second more than the limit had passed; if one did not, the order is
      answered as if the nozzle hung, and nothing changes. */
  lemma OrderInTimeIff(w: World, id: ColumnId, nozzle: int, from: int, events: seq<Event>, order: Cmd, now: int, waiting: int)
    requires Pestered(events, id, from, waiting) && order.id == id && order.cmdType == WRITE_VOLUME
    ensures var asleep := After(Next(w, Scenery(id, nozzle, SLEEP, from), waiting), events, waiting);
            var (after, answer) := Process(asleep, order, now, waiting);
            if forall i :: 0 <= i < |events| && events[i].Command? && events[i].cmd.id == id ==>
                 events[i].now < from + (waiting + 1) * 1_000_000_000
            then
              && At(after, order, 0) && answer == Answer(Response(id, order.nozzle, REMOVED_WAITING, None))
            else
              after == asleep && answer == Answer(Response(id, 0, HANGED_FREE, None))
  {
    SleepsUntilLate(Next(w, Scenery(id, nozzle, SLEEP, from), waiting), id, nozzle, from, events, waiting);
  }

  // ----- answers in between

  /** The last answer about any supply is what a pump in a supply repeats to every command that
      does not move it on. */
  lemma RepeatsLast(w: World, order: Cmd, stage: nat, c: Cmd, now: int, waiting: int)
    requires stage <= 3 && At(w, order, stage) && c.id == order.id
    requires if stage == 3 then c.cmdType != STOP_COMMAND else c.cmdType != STATUS_REQUEST
    ensures Process(w, c, now, waiting) == (w, if w.last.Some? then Answer(w.last.value) else NoAnswer)
  {
  }

  /** And every answer of a supply becomes the last one. */
  lemma AnswersRecorded(w: World, order: Cmd, stage: nat, c: Cmd, now: int, waiting: int)
    requires stage < 3 && At(w, order, stage) && c.id == order.id && c.cmdType == STATUS_REQUEST
    ensures var (after, answer) := Process(w, c, now, waiting); after.last.Some? && answer == Answer(after.last.value)
  {
  }

  /** A stop after the last answer puts the pump at rest, idle. */
  lemma StopEnds(w: World, order: Cmd, c: Cmd, now: int, waiting: int)
    requires At(w, order, 3) && c.id == order.id && c.cmdType == STOP_COMMAND
    ensures var (after, answer) := Process(w, c, now, waiting);
            && answer == Answer(Response(order.id, 0, SUPPLY_STOPPED, Some(Amount(0, 0, 0))))
            && after == w.(states := w.states[order.id := Pump(0, 0, 0, AtRest, IDLE)])
  {
  }

  // ----- what a supply delivers

  /** The last answer reports exactly this volume, at its full sum. */
  predicate ReportsAll(o: Outcome, order: Cmd) {
    o == Answer(Response(order.id, order.nozzle, SUPPLY_DONE,
                         Some(Amount(order.volume, order.price, FullSum(order.volume, order.price)))))
  }

  lemma LastAnswer(w: World, order: Cmd, events: seq<Event>, c: Cmd, now: int, waiting: int)
    requires At(w, order, 0) && NoScenery(events, order.id) && Advances(events, order.id) == 2
    requires c.id == order.id && c.cmdType == STATUS_REQUEST
    ensures ReportsAll(Process(After(w, events, waiting), c, now, waiting).1, order)
       <==> Answered(order.volume, 2) == order.volume && FitsInt(FullSum(order.volume, order.price))
  {
    SupplyAnswers(w, order, events, c, now, waiting);
    SumFullIff(order.volume, order.price);
  }

  /** A supply of a multiple of ten ends with an answer for all of it, at its full sum, if and
      only if nine tenths of it are a float and the sum fits an int. */
  lemma SupplyDeliversIff(w: World, order: Cmd, events: seq<Event>, c: Cmd, now: int, waiting: int)
    requires At(w, order, 0) && NoScenery(events, order.id) && Advances(events, order.id) == 2
    requires c.id == order.id && c.cmdType == STATUS_REQUEST
    requires order.volume % 10 == 0 && -16 * EXACT < order.volume < 16 * EXACT
    ensures ReportsAll(Process(After(w, events, waiting), c, now, waiting).1, order)
       <==> ToFloat(9 * (order.volume / 10)) == 9 * (order.volume / 10) && FitsInt(FullSum(order.volume, order.price))
  {
    LastAnswer(w, order, events, c, now, waiting);
    DeliversIff(order.volume);
  }

  /** Of all orders from 0 to 2^25, multiples of ten or not, exactly the deliverable ones whose
      sum fits an int end so. */
  lemma SupplyDeliversBelow(w: World, order: Cmd, events: seq<Event>, c: Cmd, now: int, waiting: int)
    requires At(w, order, 0) && NoScenery(events, order.id) && Advances(events, order.id) == 2
    requires c.id == order.id && c.cmdType == STATUS_REQUEST
    requires 0 <= order.volume < 2 * EXACT
    ensures ReportsAll(Process(After(w, events, waiting), c, now, waiting).1, order)
       <==> Deliverable(order.volume) && FitsInt(FullSum(order.volume, order.price))
  {
    LastAnswer(w, order, events, c, now, waiting);
    DeliversBelow(order.volume);
  }

  /** An order that is delivered at a wrong sum: forty thousand litres at a price of 60000. */
  lemma SumWraps(w: World, order: Cmd, events: seq<Event>, c: Cmd, now: int, waiting: int)
    requires At(w, order, 0) && NoScenery(events, order.id) && Advances(events, order.id) == 2
    requires c.id == order.id && c.cmdType == STATUS_REQUEST
    requires order.volume == 40_000_000 && order.price == 60_000
    ensures Process(After(w, events, waiting), c, now, waiting).1
         == Answer(Response(order.id, order.nozzle, SUPPLY_DONE, Some(Amount(40_000_000, 60_000, -1_894_967_296))))
  {
    SupplyAnswers(w, order, events, c, now, waiting);
    FortyThousandLitres();
  }
}
