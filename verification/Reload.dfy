/**
 The reload protocol of boot/handler.go and boot/reload.go: any number of requests and successive reloads,
 interleaved. What runs under the wrapper's mutex is one step; so is each atomic load, store and wait.
 */
module Reload {
  type Request = nat

  /** An inner handler, built against a schema. */
  datatype Handler = Handler(id: nat, schema: nat)

  /** Where a request is in ServeHTTP. */
  datatype Phase = Admitted | Inside | Left | Removed | Finished | Refused

  /** Where the reloader is in Reload. */
  datatype Pc =
    | Idle | Begun | Drained | CmdRan(ok: bool) | Chosen(schema: nat) | Built(next: Handler) | Swapped(schema: nat)
    | Ending

  datatype State = State(
    maintenance: bool, wg: nat, inflight: set<Request>, inner: Handler,
    schema: nat, pc: Pc,
    phase: map<Request, Phase>,
    under: map<Request, Handler>,    // the handler that was current when the request was admitted
    servedBy: map<Request, Handler>, // the handler the request loaded
    cancelled: set<Request>)

  datatype Action =
    | Arrive(r: Request)           // the check of maintenance and the registration, under the mutex
    | LoadInner(r: Request)        // the atomic load, then the inner handler runs
    | Leave(r: Request)            // the inner handler returns
    | Remove(r: Request)           // out of inflight, under the mutex
    | Done(r: Request)             // wg.Done
    | Begin                        // BeginMaintenance
    | Timeout                      // past the drain timeout: every context still in flight is cancelled
    | DrainEnd                     // the wait group is empty
    | Cmd(ok: bool)                // the reload command
    | Introspect(found: nat, ok: bool)
    | Build(id: nat, ok: bool)
    | Swap
    | SetSchema
    | End                          // EndMaintenance

  /** At startup: serving, nothing in flight. */
  function Start(first: Handler): State {
    State(false, 0, {}, first, first.schema, Idle, map[], map[], map[], {})
  }

  predicate In(s: State, r: Request, p: Phase) {
    r in s.phase && s.phase[r] == p
  }

  function Move(s: State, r: Request, p: Phase): State {
    s.(phase := s.phase[r := p])
  }

  /** One step, when it can be taken. */
  function Step(s: State, a: Action): (n: seq<State>)
    ensures |n| <= 1
  {
    match a
    case Arrive(r) =>
      if r in s.phase then []
      else if s.maintenance then [Move(s, r, Refused)]
      else [Move(s, r, Admitted).(inflight := s.inflight + {r}, wg := s.wg + 1, under := s.under[r := s.inner])]
    case LoadInner(r) => if In(s, r, Admitted) then [Move(s, r, Inside).(servedBy := s.servedBy[r := s.inner])] else []
    case Leave(r) => if In(s, r, Inside) then [Move(s, r, Left)] else []
    case Remove(r) => if In(s, r, Left) then [Move(s, r, Removed).(inflight := s.inflight - {r})] else []
    case Done(r) => if In(s, r, Removed) && s.wg > 0 then [Move(s, r, Finished).(wg := s.wg - 1)] else []
    case Begin => if s.pc == Idle then [s.(maintenance := true, pc := Begun)] else []
    case Timeout => if s.pc == Begun then [s.(cancelled := s.cancelled + s.inflight)] else []
    case DrainEnd => if s.pc == Begun && s.wg == 0 then [s.(pc := Drained)] else []
    case Cmd(ok) => if s.pc == Drained then [s.(pc := CmdRan(ok))] else []
    case Introspect(found, ok) => if s.pc.CmdRan? then [s.(pc := Chosen(if s.pc.ok && ok then found else s.schema))]
    else []
    case Build(id, ok) => if s.pc.Chosen? then [s.(pc := if ok then Built(Handler(id, s.pc.schema)) else Ending)]
    else []
    case Swap => if s.pc.Built? then [s.(inner := s.pc.next, pc := Swapped(s.pc.next.schema))] else []
    case SetSchema => if s.pc.Swapped? then [s.(schema := s.pc.schema, pc := Ending)] else []
    case End => if s.pc == Ending then [s.(maintenance := false, pc := Idle)] else []
  }

  /** The states a run goes through, as long as its steps can be taken. */
  ghost predicate IsRun(states: seq<State>, actions: seq<Action>) {
    && |states| == |actions| + 1
    && (exists first :: states[0] == Start(first))
    && forall i :: 0 <= i < |actions| ==> Step(states[i], actions[i]) == [states[i + 1]]
  }

  // ---- what every state keeps -----------------------------------------------------------------------------

  const FLYING: set<Phase> := {Admitted, Inside, Left}
  const COUNTED: set<Phase> := FLYING + {Removed}
  const SERVED: set<Phase> := {Inside, Left, Removed, Finished}
  const KNOWN: set<Phase> := SERVED + {Admitted}

  /** The requests in one of these phases. */
  ghost function Those(phase: map<Request, Phase>, kinds: set<Phase>): set<Request> {
    set r | r in phase && phase[r] in kinds
  }

  /** From the end of Drain until maintenance ends. */
  predicate Quiet(s: State) {
    s.pc != Idle && s.pc != Begun
  }

  /** The wait group, the in-flight set and the maintenance flag say what the requests and the reloader are doing. */
  ghost predicate Tracked(s: State) {
    && s.wg == |Those(s.phase, COUNTED)|
    && s.inflight == Those(s.phase, FLYING)
    && (s.maintenance <==> s.pc != Idle)
    && (Quiet(s) ==> Those(s.phase, COUNTED) == {})
    && (if s.pc.Swapped? then s.inner.schema == s.pc.schema else s.inner.schema == s.schema)
  }

  /** Requests in the count were admitted under the current handler; each was served by the one of its admission. */
  ghost predicate Served(s: State) {
    && s.under.Keys == Those(s.phase, KNOWN) && s.servedBy.Keys == Those(s.phase, SERVED)
    && (forall r :: r in Those(s.phase, COUNTED) && r in s.under ==> s.under[r] == s.inner)
    && (forall r :: r in s.servedBy && r in s.under ==> s.servedBy[r] == s.under[r])
    && s.cancelled <= s.under.Keys
  }

  ghost predicate Inv(s: State) {
    Tracked(s) && Served(s)
  }

  lemma StartKeeps(first: Handler)
    ensures Inv(Start(first))
  {
    assert forall kinds :: Those(Start(first).phase, kinds) == {};
  }

  lemma InThose(phase: map<Request, Phase>, kinds: set<Phase>, r: Request)
    ensures r in Those(phase, kinds) <==> r in phase && phase[r] in kinds
  {
  }

  /** A request's step takes it into a set of phases or out of it. */
  lemma ThoseMove(phase: map<Request, Phase>, kinds: set<Phase>, r: Request, p: Phase)
    ensures Those(phase[r := p], kinds) == if p in kinds then Those(phase, kinds) + {r} else Those(phase, kinds) - {r}
  {
    var after := phase[r := p];
    forall q
      ensures q in Those(after, kinds) <==> if p in kinds then q in Those(phase, kinds) || q == r
                                            else q in Those(phase, kinds) && q != r
    {
      InThose(after, kinds, q);
      InThose(phase, kinds, q);
    }
  }

  lemma AllMove(phase: map<Request, Phase>, r: Request, p: Phase)
    ensures Those(phase[r := p], COUNTED) == if p in COUNTED then Those(phase, COUNTED) + {r}
            else Those(phase, COUNTED) - {r}
    ensures Those(phase[r := p], FLYING) == if p in FLYING then Those(phase, FLYING) + {r}
            else Those(phase, FLYING) - {r}
    ensures Those(phase[r := p], SERVED) == if p in SERVED then Those(phase, SERVED) + {r}
            else Those(phase, SERVED) - {r}
    ensures Those(phase[r := p], KNOWN) == if p in KNOWN then Those(phase, KNOWN) + {r} else Those(phase, KNOWN) - {r}
    ensures r in Those(phase, COUNTED) <==> r in phase && phase[r] in COUNTED
    ensures r in Those(phase, FLYING) <==> r in phase && phase[r] in FLYING
    ensures r in Those(phase, SERVED) <==> r in phase && phase[r] in SERVED
    ensures r in Those(phase, KNOWN) <==> r in phase && phase[r] in KNOWN
  {
    hide Those;
    ThoseMove(phase, COUNTED, r, p);
    ThoseMove(phase, FLYING, r, p);
    ThoseMove(phase, SERVED, r, p);
    ThoseMove(phase, KNOWN, r, p);
    InThose(phase, COUNTED, r);
    InThose(phase, FLYING, r);
    InThose(phase, SERVED, r);
    InThose(phase, KNOWN, r);
  }

  lemma RequestTracked(s: State, a: Action, s': State)
    requires Inv(s) && Step(s, a) == [s'] && (a.Arrive? || a.LoadInner? || a.Leave? || a.Remove? || a.Done?)
    ensures Tracked(s')
  {
    hide Those, Served;
    RequestCounted(s, a, s');
    RequestFlying(s, a, s');
  }

  lemma RequestCounted(s: State, a: Action, s': State)
    requires Inv(s) && Step(s, a) == [s'] && (a.Arrive? || a.LoadInner? || a.Leave? || a.Remove? || a.Done?)
    ensures s'.wg == |Those(s'.phase, COUNTED)| && (Quiet(s') ==> Those(s'.phase, COUNTED) == {})
  {
    hide Those, Served, COUNTED, FLYING;
    Kinds();
    var p := s'.phase[a.r];
    var before, after := Those(s.phase, COUNTED), Those(s'.phase, COUNTED);
    assert s'.phase == s.phase[a.r := p];
    ThoseMove(s.phase, COUNTED, a.r, p);
    InThose(s.phase, COUNTED, a.r);
    if a.Arrive? && !s.maintenance {
      CardGrows(before, a.r);
    } else if a.Done? {
      CardShrinks(before, a.r);
    } else {
      assert after == before;
    }
  }

  lemma Kinds()
    ensures Admitted in COUNTED && Inside in COUNTED && Left in COUNTED && Removed in COUNTED && Finished !in COUNTED
            && Refused !in COUNTED
    ensures Admitted !in SERVED && Inside in SERVED && Left in SERVED && Removed in SERVED && Finished in SERVED
            && Refused !in SERVED
    ensures Admitted in KNOWN && Inside in KNOWN && Left in KNOWN && Removed in KNOWN && Finished in KNOWN
            && Refused !in KNOWN
  {
  }

  lemma CardGrows(rs: set<Request>, r: Request)
    ensures r !in rs ==> |rs + {r}| == |rs| + 1
  {
  }

  lemma CardShrinks(rs: set<Request>, r: Request)
    ensures r in rs ==> |rs - {r}| == |rs| - 1
  {
  }

  lemma RequestFlying(s: State, a: Action, s': State)
    requires Inv(s) && Step(s, a) == [s'] && (a.Arrive? || a.LoadInner? || a.Leave? || a.Remove? || a.Done?)
    ensures s'.inflight == Those(s'.phase, FLYING)
  {
    hide Those, Served;
    var p := s'.phase[a.r];
    assert s'.phase == s.phase[a.r := p];
    ThoseMove(s.phase, FLYING, a.r, p);
    InThose(s.phase, FLYING, a.r);
  }

  lemma RequestServed(s: State, a: Action, s': State)
    requires Inv(s) && Step(s, a) == [s'] && (a.Arrive? || a.LoadInner? || a.Leave? || a.Remove? || a.Done?)
    ensures Served(s')
  {
    hide Those, Tracked, COUNTED, FLYING, SERVED, KNOWN;
    Kinds();
    AllMove(s.phase, a.r, s'.phase[a.r]);
    assert s'.phase == s.phase[a.r := s'.phase[a.r]];
    CountedKnown(s.phase, a.r);
  }

  lemma CountedKnown(phase: map<Request, Phase>, r: Request)
    ensures r in Those(phase, COUNTED) ==> r in Those(phase, KNOWN)
  {
  }

  lemma ReloaderKeeps(s: State, a: Action, s': State)
    requires Inv(s) && Step(s, a) == [s'] && !(a.Arrive? || a.LoadInner? || a.Leave? || a.Remove? || a.Done?)
    ensures Inv(s')
  {
    hide Those;
    if a.Timeout? {
      FlyingKnown(s.phase);
    }
  }

  lemma FlyingKnown(phase: map<Request, Phase>)
    ensures Those(phase, FLYING) <= Those(phase, KNOWN)
  {
  }

  /** Every state of every run keeps the invariant. */
  lemma {:induction false} RunKeeps(states: seq<State>, actions: seq<Action>, i: nat)
    requires IsRun(states, actions) && i < |states|
    ensures Inv(states[i])
  {
    hide Inv, Step;
    if i == 0 {
      var first :| states[0] == Start(first);
      StartKeeps(first);
    } else {
      RunKeeps(states, actions, i - 1);
      var a := actions[i - 1];
      assert Step(states[i - 1], a) == [states[i - 1 + 1]];
      if a.Arrive? || a.LoadInner? || a.Leave? || a.Remove? || a.Done? {
        RequestTracked(states[i - 1], a, states[i]);
        RequestServed(states[i - 1], a, states[i]);
        BothKeep(states[i]);
      } else {
        ReloaderKeeps(states[i - 1], a, states[i]);
      }
    }
  }

  lemma BothKeep(s: State)
    requires Tracked(s) && Served(s)
    ensures Inv(s)
  {
  }

  // ---- safety over whole runs ---------------------------------------------------------------------------------

  /** Between the end of Drain and the end of maintenance, no request is in the inner handler or on its way. */
  lemma NobodyInside(states: seq<State>, actions: seq<Action>, i: nat, r: Request)
    requires IsRun(states, actions) && i < |states| && Quiet(states[i])
    ensures r !in states[i].inflight && !In(states[i], r, Admitted) && !In(states[i], r, Inside) && states[i].wg == 0
  {
    hide IsRun, Quiet;
    RunKeeps(states, actions, i);
    InThose(states[i].phase, COUNTED, r);
    InThose(states[i].phase, FLYING, r);
  }

  /** Nothing is added to the wait group once maintenance is set. */
  lemma NoAddInMaintenance(states: seq<State>, actions: seq<Action>, i: nat)
    requires IsRun(states, actions) && i < |actions| && states[i].maintenance
    ensures states[i + 1].wg <= states[i].wg && states[i + 1].inflight <= states[i].inflight
  {
    assert Step(states[i], actions[i]) == [states[i + 1]];
  }

  /** A request admitted at step i is served by the handler that was current then, whatever happens later. */
  lemma ServedByCurrent(states: seq<State>, actions: seq<Action>, i: nat, j: nat, r: Request)
    requires IsRun(states, actions) && i < |actions| && i < j < |states|
    requires actions[i] == Arrive(r) && !states[i].maintenance && r in states[j].servedBy
    ensures states[j].servedBy[r] == states[i].inner
  {
    hide Inv, Served;
    assert Step(states[i], actions[i]) == [states[i + 1]];
    UnderStays(states, actions, i + 1, j, r);
    RunKeeps(states, actions, j);
    ServedUnder(states[j], r);
  }

  lemma ServedUnder(s: State, r: Request)
    requires Inv(s) && r in s.servedBy
    ensures r in s.under && s.servedBy[r] == s.under[r]
  {
    InThose(s.phase, SERVED, r);
    InThose(s.phase, KNOWN, r);
  }

  lemma {:induction false} UnderStays(states: seq<State>, actions: seq<Action>, i: nat, j: nat, r: Request)
    requires IsRun(states, actions) && i <= j < |states| && r in states[i].under && r in states[i].phase
    ensures r in states[j].under && r in states[j].phase && states[j].under[r] == states[i].under[r]
    decreases j - i
  {
    if i < j {
      hide Step;
      UnderStays(states, actions, i, j - 1, r);
      assert Step(states[j - 1], actions[j - 1]) == [states[j - 1 + 1]];
      UnderStep(states[j - 1], actions[j - 1], states[j], r);
    }
  }

  lemma UnderStep(s: State, a: Action, s': State, r: Request)
    requires Step(s, a) == [s'] && r in s.under && r in s.phase
    ensures r in s'.under && r in s'.phase && s'.under[r] == s.under[r]
  {
  }

  /** When serving, the schema the next reload starts from is the one the served handler was built against. */
  lemma NeverHalfSwapped(states: seq<State>, actions: seq<Action>, i: nat)
    requires IsRun(states, actions) && i < |states| && !states[i].maintenance
    ensures states[i].inner.schema == states[i].schema && states[i].pc == Idle
  {
    RunKeeps(states, actions, i);
  }

  // ---- a reload ends -------------------------------------------------------------------------------------------

  function StepsLeft(p: Phase): nat {
    match p
    case Admitted => 4
    case Inside => 3
    case Left => 2
    case Removed => 1
    case Finished => 0
    case Refused => 0
  }

  /** The steps a reload has left. */
  function Remaining(pc: Pc): nat {
    match pc
    case Idle => 0
    case Begun => 7
    case Drained => 6
    case CmdRan(_) => 5
    case Chosen(_) => 4
    case Built(_) => 3
    case Swapped(_) => 2
    case Ending => 1
  }

  /** The steps the requests in `rs` have left. */
  ghost function Work(phase: map<Request, Phase>, rs: set<Request>): nat
    requires rs <= phase.Keys
    decreases rs
  {
    if rs == {} then 0
    else
      var r := Some(rs);
      StepsLeft(phase[r]) + Work(phase, rs - {r})
  }

  ghost function Some(rs: set<Request>): (r: Request)
    requires rs != {}
    ensures r in rs
  {
    var r :| r in rs;
    r
  }

  lemma {:induction false} WorkWithout(phase: map<Request, Phase>, rs: set<Request>, r: Request)
    requires rs <= phase.Keys && r in rs
    ensures Work(phase, rs) == StepsLeft(phase[r]) + Work(phase, rs - {r})
    decreases rs
  {
    var q := Some(rs);
    if q != r {
      WorkWithout(phase, rs - {q}, r);
      WorkWithout(phase, rs - {r}, q);
      assert rs - {q} - {r} == rs - {r} - {q};
    }
  }

  lemma {:induction false} WorkSame(a: map<Request, Phase>, b: map<Request, Phase>, rs: set<Request>)
    requires rs <= a.Keys && rs <= b.Keys && forall r :: r in rs ==> a[r] == b[r]
    ensures Work(a, rs) == Work(b, rs)
    decreases rs
  {
    if rs != {} {
      WorkSame(a, b, rs - {Some(rs)});
    }
  }

  ghost function Measure(s: State): nat {
    Remaining(s.pc) + Work(s.phase, s.phase.Keys)
  }

  lemma WorkMove(s: State, r: Request, p: Phase)
    ensures var s' := Move(s, r, p);
            Work(s'.phase, s'.phase.Keys) == Work(s.phase, s.phase.Keys)
            + StepsLeft(p) - (if r in s.phase then StepsLeft(s.phase[r]) else 0)
  {
    var s' := Move(s, r, p);
    var others := s.phase.Keys - {r};
    assert s'.phase.Keys - {r} == others;
    WorkWithout(s'.phase, s'.phase.Keys, r);
    WorkSame(s.phase, s'.phase, others);
    if r in s.phase {
      WorkWithout(s.phase, s.phase.Keys, r);
    } else {
      assert s.phase.Keys == others;
    }
  }

  /** In maintenance every step brings the end of the reload nearer, except turning a request away and cancelling. */
  lemma Nearer(s: State, a: Action, s': State)
    requires s.maintenance && s.pc != Idle && Step(s, a) == [s']
    ensures if a.Arrive? || a.Timeout? then Measure(s') == Measure(s) else Measure(s') < Measure(s)
  {
    hide Work;
    if a.Arrive? || a.LoadInner? || a.Leave? || a.Remove? || a.Done? {
      WorkMove(s, a.r, s'.phase[a.r]);
      assert s'.phase == Move(s, a.r, s'.phase[a.r]).phase;
    }
  }

  /** And some such step can always be taken: a reload is never stuck. */
  lemma NeverStuck(s: State) returns (a: Action)
    requires Inv(s) && s.maintenance
    ensures !a.Arrive? && !a.Timeout? && Step(s, a) != []
  {
    hide Those, Served;
    match s.pc
    case Begun =>
      if s.wg == 0 {
        a := DrainEnd;
      } else {
        var r := Some(Those(s.phase, COUNTED));
        InThose(s.phase, COUNTED, r);
        a := if s.phase[r] == Admitted then LoadInner(r)
             else if s.phase[r] == Inside then Leave(r)
             else if s.phase[r] == Left then Remove(r)
             else Done(r);
      }
    case Drained => a := Cmd(true);
    case CmdRan(_) => a := Introspect(0, true);
    case Chosen(_) => a := Build(0, true);
    case Built(_) => a := Swap;
    case Swapped(_) => a := SetSchema;
    case Ending => a := End;
  }

  // ---- what a reload leaves ------------------------------------------------------------------------------------

  /** The schema a reload builds against: what was found, if the command and the introspection went well. */
  function Used(cmd: Action, found: Action, before: nat): nat
    requires cmd.Cmd? && found.Introspect?
  {
    if cmd.ok && found.ok then found.found else before
  }

  /** Where the steps of a reload were, among those so far. */
  datatype Marks = Marks(cmd: nat, found: nat, build: nat)

  /** The only step of its kind from `from` up to `to`. */
  ghost predicate OnlyAt(actions: seq<Action>, from: nat, to: nat, at: nat, kind: Action -> bool)
    requires to <= |actions|
  {
    from < at < to && kind(actions[at]) && forall k :: from < k < to && kind(actions[k]) ==> k == at
  }

  ghost predicate NoneAt(actions: seq<Action>, from: nat, to: nat, kind: Action -> bool)
    requires to <= |actions|
  {
    forall k :: from < k < to ==> !kind(actions[k])
  }

  const IS_CMD: Action -> bool := (a: Action) => a.Cmd?
  const IS_FOUND: Action -> bool := (a: Action) => a.Introspect?
  const IS_BUILD: Action -> bool := (a: Action) => a.Build?

  ghost predicate RanCmd(actions: seq<Action>, i: nat, m: nat, at: Marks, begun: bool)
    requires m <= |actions|
  {
    if begun then OnlyAt(actions, i, m, at.cmd, IS_CMD) else NoneAt(actions, i, m, IS_CMD)
  }

  ghost predicate RanFound(actions: seq<Action>, i: nat, m: nat, at: Marks, begun: bool)
    requires m <= |actions|
  {
    if begun then OnlyAt(actions, i, m, at.found, IS_FOUND) && at.cmd < at.found else NoneAt(actions, i, m, IS_FOUND)
  }

  ghost predicate RanBuild(actions: seq<Action>, i: nat, m: nat, at: Marks, begun: bool)
    requires m <= |actions|
  {
    if begun then OnlyAt(actions, i, m, at.build, IS_BUILD) && at.found < at.build else NoneAt(actions, i, m, IS_BUILD)
  }

  /** How far a reload begun at step i is before step m, and what it has done. */
  ghost predicate Along(states: seq<State>, actions: seq<Action>, i: nat, m: nat, at: Marks)
    requires i < m <= |actions| && |states| == |actions| + 1
  {
    var s, pc := states[m], states[m].pc;
    var ran, chosen := !pc.Begun? && !pc.Drained?, !pc.Begun? && !pc.Drained? && !pc.CmdRan?;
    var built := chosen && !pc.Chosen?;
    && !pc.Idle? && RanCmd(actions, i, m, at, ran) && RanFound(actions, i, m, at, chosen)
    && RanBuild(actions, i, m, at, built)
    && (pc.CmdRan? ==> pc.ok == actions[at.cmd].ok)
    && (chosen ==>
          var used := Used(actions[at.cmd], actions[at.found], states[i].schema);
          && (pc.Chosen? ==> pc.schema == used)
          && (pc.Built? ==> actions[at.build].ok && pc.next == Handler(actions[at.build].id, used))
          && (pc.Swapped? ==> actions[at.build].ok && pc.schema == used
                              && s.inner == Handler(actions[at.build].id, used))
          && (pc.Ending? ==> s.inner == (if actions[at.build].ok then Handler(actions[at.build].id, used)
                                         else states[i].inner)
                             && s.schema == if actions[at.build].ok then used else states[i].schema))
    && (!pc.Swapped? && !pc.Ending? ==> s.inner == states[i].inner)
    && (!pc.Ending? ==> s.schema == states[i].schema)
  }

  lemma NextMark(actions: seq<Action>, i: nat, m: nat, at: nat, kind: Action -> bool)
    requires i < m < |actions|
    ensures !kind(actions[m]) && OnlyAt(actions, i, m, at, kind) ==> OnlyAt(actions, i, m + 1, at, kind)
    ensures !kind(actions[m]) && NoneAt(actions, i, m, kind) ==> NoneAt(actions, i, m + 1, kind)
    ensures kind(actions[m]) && NoneAt(actions, i, m, kind) ==> OnlyAt(actions, i, m + 1, m, kind)
  {
  }

  lemma NextMarks(actions: seq<Action>, i: nat, m: nat, at: Marks)
    requires i < m < |actions|
    ensures forall kind :: kind == IS_CMD || kind == IS_FOUND || kind == IS_BUILD ==>
                             (!kind(actions[m]) && NoneAt(actions, i, m, kind) ==> NoneAt(actions, i, m + 1, kind))
                             && (kind(actions[m]) && NoneAt(actions, i, m, kind) ==> OnlyAt(actions, i, m + 1, m, kind))
    ensures !actions[m].Cmd? && OnlyAt(actions, i, m, at.cmd, IS_CMD) ==> OnlyAt(actions, i, m + 1, at.cmd, IS_CMD)
    ensures !actions[m].Introspect? && OnlyAt(actions, i, m, at.found, IS_FOUND) ==>
              OnlyAt(actions, i, m + 1, at.found, IS_FOUND)
    ensures !actions[m].Build? && OnlyAt(actions, i, m, at.build, IS_BUILD) ==>
              OnlyAt(actions, i, m + 1, at.build, IS_BUILD)
  {
    hide OnlyAt, NoneAt;
    NextMark(actions, i, m, at.cmd, IS_CMD);
    NextMark(actions, i, m, at.found, IS_FOUND);
    NextMark(actions, i, m, at.build, IS_BUILD);
  }

  /** What a step does to the reloader and what it serves. */
  lemma ReloaderStep(s: State, a: Action, s': State)
    requires Step(s, a) == [s'] && a != Begin && a != End
    ensures a.Cmd? ==> s.pc == Drained && s'.pc == CmdRan(a.ok)
    ensures a.Introspect? ==> s.pc.CmdRan? && s'.pc == Chosen(if s.pc.ok && a.ok then a.found else s.schema)
    ensures a.Build? ==> s.pc.Chosen? && s'.pc == if a.ok then Built(Handler(a.id, s.pc.schema)) else Ending
    ensures a.Swap? ==> s.pc.Built? && s'.pc == Swapped(s.pc.next.schema) && s'.inner == s.pc.next
    ensures a.SetSchema? ==> s.pc.Swapped? && s'.pc == Ending && s'.schema == s.pc.schema
    ensures a.DrainEnd? ==> s.pc == Begun && s'.pc == Drained
    ensures !a.Swap? ==> s'.inner == s.inner
    ensures !a.SetSchema? ==> s'.schema == s.schema
    ensures !a.Cmd? && !a.Introspect? && !a.Build? && !a.Swap? && !a.SetSchema? && !a.DrainEnd? ==> s'.pc == s.pc
  {
  }

  lemma OneStepAlong(states: seq<State>, actions: seq<Action>, i: nat, m: nat, at: Marks) returns (next: Marks)
    requires i < m < |actions| && |states| == |actions| + 1 && Along(states, actions, i, m, at)
    requires Step(states[m], actions[m]) == [states[m + 1]] && actions[m] != Begin && actions[m] != End
    ensures Along(states, actions, i, m + 1, next)
  {
    hide Step, OnlyAt, NoneAt;
    var a := actions[m];
    ReloaderStep(states[m], a, states[m + 1]);
    NextMarks(actions, i, m, at);
    MarksBefore(actions, i, m, at);
    next := match a
      case Cmd(_) => at.(cmd := m)
      case Introspect(_, _) => at.(found := m)
      case Build(_, _) => at.(build := m)
      case _ => at;
  }

  lemma MarksBefore(actions: seq<Action>, i: nat, m: nat, at: Marks)
    requires m <= |actions|
    ensures OnlyAt(actions, i, m, at.cmd, IS_CMD) ==> at.cmd < m && actions[at.cmd].Cmd?
    ensures OnlyAt(actions, i, m, at.found, IS_FOUND) ==> at.found < m && actions[at.found].Introspect?
    ensures OnlyAt(actions, i, m, at.build, IS_BUILD) ==> at.build < m && actions[at.build].Build?
  {
  }

  /** One more step of a run, while a reload is under way. */
  lemma BeginsAlong(states: seq<State>, actions: seq<Action>, i: nat)
    requires i < |actions| && |states| == |actions| + 1 && Step(states[i], Begin) == [states[i + 1]]
    ensures Along(states, actions, i, i + 1, Marks(0, 0, 0))
  {
  }

  lemma {:induction false} RunsAlong(states: seq<State>, actions: seq<Action>, i: nat, m: nat) returns (at: Marks)
    requires IsRun(states, actions) && i < m <= |actions| && actions[i] == Begin
    requires forall k :: i < k < m ==> actions[k] != Begin && actions[k] != End
    ensures Along(states, actions, i, m, at)
    decreases m
  {
    hide Step, Along;
    if m == i + 1 {
      at := Marks(0, 0, 0);
      assert Step(states[i], Begin) == [states[i + 1]];
      BeginsAlong(states, actions, i);
    } else {
      var before := RunsAlong(states, actions, i, m - 1);
      assert Step(states[m - 1], actions[m - 1]) == [states[m - 1 + 1]];
      at := OneStepAlong(states, actions, i, m - 1, before);
    }
  }

  /**
   A whole reload, whatever runs in between: if the new handler was built, it is the one served and its schema the one
   kept, the schema found when the command and the introspection succeeded and the old one otherwise; if not, both are
   as they were before.
   */
  lemma ReloadEnds(states: seq<State>, actions: seq<Action>, i: nat, j: nat) returns (at: Marks)
    requires IsRun(states, actions) && i < j < |actions| && actions[i] == Begin && actions[j] == End
    requires forall k :: i < k < j ==> actions[k] != Begin && actions[k] != End
    ensures i < at.cmd < at.found < at.build < j
    ensures OnlyAt(actions, i, j, at.cmd, IS_CMD) && OnlyAt(actions, i, j, at.found, IS_FOUND)
    ensures OnlyAt(actions, i, j, at.build, IS_BUILD)
    ensures var used := Used(actions[at.cmd], actions[at.found], states[i].schema);
            var s := states[j + 1];
            && !s.maintenance && s.pc == Idle
            && s.inner == (if actions[at.build].ok then Handler(actions[at.build].id, used) else states[i].inner)
            && s.schema == if actions[at.build].ok then used else states[i].schema
  {
    at := RunsAlong(states, actions, i, j);
    assert Step(states[j], End) == [states[j + 1]];
  }

  /** What becomes of a request that arrives. */
  ghost predicate Settled(s: State, r: Request, refused: bool) {
    r in s.phase && (s.phase[r] == Refused <==> refused) && (r in s.under <==> !refused)
  }

  lemma SettledStep(s: State, a: Action, s': State, r: Request, refused: bool)
    requires Step(s, a) == [s'] && Settled(s, r, refused)
    ensures Settled(s', r, refused)
  {
  }

  /** A request that arrives during maintenance is turned away for good, and any other is admitted. */
  lemma {:induction false} TurnedAway(states: seq<State>, actions: seq<Action>, i: nat, j: nat, r: Request)
    requires IsRun(states, actions) && i < j < |states| && actions[i] == Arrive(r)
    ensures Settled(states[j], r, states[i].maintenance)
    decreases j
  {
    hide Inv, Step;
    if j == i + 1 {
      assert Step(states[i], actions[i]) == [states[i + 1]];
      RunKeeps(states, actions, i);
      Arrived(states[i], r, states[i + 1]);
    } else {
      TurnedAway(states, actions, i, j - 1, r);
      assert Step(states[j - 1], actions[j - 1]) == [states[j - 1 + 1]];
      SettledStep(states[j - 1], actions[j - 1], states[j], r, states[i].maintenance);
    }
  }

  lemma Arrived(s: State, r: Request, s': State)
    requires Inv(s) && Step(s, Arrive(r)) == [s']
    ensures Settled(s', r, s.maintenance)
  {
    hide Inv;
    KnownOnly(s, r);
  }

  lemma KnownOnly(s: State, r: Request)
    requires Inv(s) && r !in s.phase
    ensures r !in s.under
  {
    hide Tracked;
    InThose(s.phase, KNOWN, r);
  }

  /** Past the drain timeout exactly the requests admitted and not yet out of the wrapper are cancelled. */
  lemma CancelledIff(states: seq<State>, actions: seq<Action>, i: nat, r: Request)
    requires IsRun(states, actions) && i < |actions| && actions[i] == Timeout
    ensures r in states[i + 1].cancelled
            <==> r in states[i].cancelled
                 || In(states[i], r, Admitted) || In(states[i], r, Inside) || In(states[i], r, Left)
  {
    hide Served;
    assert Step(states[i], actions[i]) == [states[i + 1]];
    RunKeeps(states, actions, i);
    InThose(states[i].phase, FLYING, r);
  }
}
