/** Running an operation on the one resolved client, with at most one reselection and retry. */
module Target {

  import opened Base
  import opened Scope

  datatype Problem =
    | Business
    | Observation
    | ClientNotFound
    | ClientNotUnique
    | BackendProblem
    | ClientIdNotFound

  datatype Result = Done | Threw(problem: Problem) | Interrupted

  /** What foreign code does to the scope while it runs: it may record facts, or fail the scope. */
  datatype Noise = Records(fact: Fact) | Breaks

  /** `list_windows_clients`: each candidate's id, `None` where it has none; or it raises. */
  datatype Listing = Listed(noise: seq<Noise>, clients: seq<Option<string>>) | ListingThrew(noise: seq<Noise>)

  datatype Existence = Answered(noise: seq<Noise>, exists_: bool) | ProbeThrew(noise: seq<Noise>)

  datatype Execution = Execution(noise: seq<Noise>, result: Result)

  /** The world's answers, per attempt. */
  datatype Script = Script(id: string, listings: Attempts<Listing>, executions: Attempts<Execution>, probes: Attempts<Existence>)

  datatype Attempts<T> = Attempts(one: T, two: T)

  /** What happened, in order; `Broke` is the moment the scope's observation failed. */
  datatype Step =
    | Resolved(mode: Mode, client: string)
    | Executed(attempt: nat, client: string)
    | Probed(client: string, exists_: bool)
    | Cleared(client: string)
    | Broke

  // ----- The order of steps -----

  /** The longest course: resolve, run, find the client gone, clear, reselect, run again, probe again. */
  function FullCourse(mode: Mode, a: string, e: bool, b: string, last: bool): seq<Step> {
    [Resolved(mode, a), Executed(1, a), Probed(a, e), Cleared(a), Resolved(Selected, b), Executed(2, b), Probed(b, last)]
  }

  /** The steps follow that course, and go past the probe only when it answered that the client is gone. */
  ghost predicate OnCourse(steps: seq<Step>) {
    exists mode, a, e, b, last :: steps <= FullCourse(mode, a, e, b, last) && (|steps| > 3 ==> !e)
  }

  /** The steps without the failures between them. */
  function Actions(trace: seq<Step>): seq<Step> {
    if trace == [] then []
    else Actions(trace[..|trace| - 1]) + (if trace[|trace| - 1].Broke? then [] else [trace[|trace| - 1]])
  }

  /** No execution comes after a failure. */
  ghost predicate NoneAfterFailure(trace: seq<Step>) {
    forall i, j | 0 <= i < j < |trace| && trace[i].Broke? :: !trace[j].Executed?
  }

  ghost predicate Executes(trace: seq<Step>) {
    exists i | 0 <= i < |trace| :: trace[i].Executed?
  }

  /**
   * The trace shows every failure and no execution after one: `was` and `now` say whether observation
   * had failed before and after it.
   */
  ghost predicate Tidy(was: bool, trace: seq<Step>, now: bool) {
    && NoneAfterFailure(trace)
    && (now <==> was || Broke in trace)
    && (was ==> !Executes(trace))
  }

  lemma {:induction false} ActionsConcat(x: seq<Step>, y: seq<Step>)
    ensures Actions(x + y) == Actions(x) + Actions(y)
  {
    if y == [] {
      assert x + y == x;
    } else {
      var m := |y| - 1;
      assert (x + y)[..|x + y| - 1] == x + y[..m];
      ActionsConcat(x, y[..m]);
    }
  }

  /** Tidy stretches join into a tidy trace. */
  lemma Joins(was: bool, x: seq<Step>, mid: bool, y: seq<Step>, now: bool)
    requires Tidy(was, x, mid) && Tidy(mid, y, now)
    ensures Tidy(was, x + y, now) && Actions(x + y) == Actions(x) + Actions(y)
  {
    ActionsConcat(x, y);
    var all := x + y;
    forall i, j | 0 <= i < j < |all| && all[i].Broke? ensures !all[j].Executed? {
      if i < |x| <= j {
        assert Broke in x;
        assert all[j] == y[j - |x|];
      }
    }
    if was {
      forall i | 0 <= i < |all| ensures !all[i].Executed? { if i >= |x| { assert all[i] == y[i - |x|]; } }
    }
  }

  lemma FailureLasts(was: bool, steps: seq<Step>, now: bool)
    requires Tidy(was, steps, now)
    ensures was ==> now
  {
  }

  function Failure(was: bool, now: bool): seq<Step> {
    if !was && now then [Broke] else []
  }

  lemma FailureIsTidy(was: bool, now: bool)
    requires was ==> now
    ensures Tidy(was, Failure(was, now), now) && Actions(Failure(was, now)) == []
  {
    assert [Broke][..0] == [];
  }

  lemma StepIsTidy(was: bool, step: Step)
    requires !step.Broke? && (step.Executed? ==> !was)
    ensures Tidy(was, [step], was) && Actions([step]) == [step]
  {
    assert [step][..0] == [];
    assert forall i | 0 <= i < 1 :: [step][i] == step;
  }

  lemma CourseGrows(steps: seq<Step>, mode: Mode, a: string, e: bool)
    requires steps <= [Resolved(mode, a), Executed(1, a), Probed(a, e)]
    ensures OnCourse(steps)
  {
    assert steps <= FullCourse(mode, a, e, "", false);
  }

  /** A beginning of: clear, reselect, run again, probe again. */
  ghost predicate RetryCourse(a: string, more: seq<Step>) {
    exists b, last :: more <= [Cleared(a), Resolved(Selected, b), Executed(2, b), Probed(b, last)]
  }

  lemma RetryGrows(more: seq<Step>, a: string, b: string, last: bool)
    requires more <= [Cleared(a), Resolved(Selected, b), Executed(2, b), Probed(b, last)]
    ensures RetryCourse(a, more)
  {
  }

  lemma CourseContinues(steps: seq<Step>, mode: Mode, a: string, more: seq<Step>)
    requires steps == [Resolved(mode, a), Executed(1, a), Probed(a, false)] && RetryCourse(a, more)
    ensures OnCourse(steps + more)
  {
    var b, last :| more <= [Cleared(a), Resolved(Selected, b), Executed(2, b), Probed(b, last)];
    assert steps + more <= FullCourse(mode, a, false, b, last);
  }

  // ----- What a trace on course amounts to -----

  function Runs(trace: seq<Step>): nat {
    if trace == [] then 0 else Runs(trace[..|trace| - 1]) + (if trace[|trace| - 1].Executed? then 1 else 0)
  }

  lemma {:induction false} RunsOfActions(trace: seq<Step>)
    ensures Runs(trace) == Runs(Actions(trace))
  {
    if trace != [] {
      var m := |trace| - 1;
      RunsOfActions(trace[..m]);
      if !trace[m].Broke? {
        var before := Actions(trace[..m]);
        assert (before + [trace[m]])[..|before|] == before;
      } else {
        assert Actions(trace) == Actions(trace[..m]);
      }
    }
  }

  lemma {:induction false} RunsPrefix(full: seq<Step>, n: nat)
    requires n <= |full| == 7 && forall k | 0 <= k < 7 && full[k].Executed? :: k == 1 || k == 5
    ensures Runs(full[..n]) <= (if n > 1 then 1 else 0) + (if n > 5 then 1 else 0)
  {
    if n > 0 {
      RunsPrefix(full, n - 1);
      assert full[..n][..n - 1] == full[..n - 1];
    }
  }

  /** A trace on course executes the operation at most twice. */
  lemma AtMostTwice(trace: seq<Step>)
    requires OnCourse(Actions(trace))
    ensures Runs(trace) <= 2
  {
    hide Runs, Actions;
    var steps := Actions(trace);
    var mode, a, e, b, last :| steps <= FullCourse(mode, a, e, b, last) && (|steps| > 3 ==> !e);
    var full := FullCourse(mode, a, e, b, last);
    RunsOfActions(trace);
    RunsPrefix(full, |steps|);
    assert full[..|steps|] == steps;
  }

  /** The second execution comes after the probe said no, the cache was cleared and a client selected anew. */
  lemma RetryIsEarned(steps: seq<Step>)
    requires OnCourse(steps) && |steps| > 5
    ensures steps[1].Executed? && steps[5] == Executed(2, steps[4].client)
    ensures steps[2] == Probed(steps[1].client, false) && steps[3] == Cleared(steps[1].client)
    ensures steps[4] == Resolved(Selected, steps[5].client)
  {
    var mode, a, e, b, last :| steps <= FullCourse(mode, a, e, b, last) && (|steps| > 3 ==> !e);
    var full := FullCourse(mode, a, e, b, last);
    assert steps[1] == full[1] && steps[2] == full[2] && steps[3] == full[3] && steps[4] == full[4];
    assert steps[5] == full[5];
  }

  // ----- Announced executions -----

  ghost predicate Announces(events: seq<Event>, operation: Operation) {
    exists i | 0 <= i < |events| :: events[i].fact == OperationBegin(operation)
  }

  lemma AnnouncementStays(events: seq<Event>, later: seq<Event>, operation: Operation)
    requires Announces(events, operation) && events <= later
    ensures Announces(later, operation)
  {
    var i :| 0 <= i < |events| && events[i].fact == OperationBegin(operation);
    assert later[i].fact == OperationBegin(operation);
  }

  /** Observation has failed. */
  predicate Fallen(scope: ObservationScope?)
    reads if scope != null then {scope} else {}
  {
    scope != null && scope.failed
  }

  /** Observation is absent, or open and unfailed. */
  predicate Intact(scope: ObservationScope?)
    reads if scope != null then {scope} else {}
  {
    scope == null || (!scope.failed && !scope.sealed)
  }

  /** The last fact recorded. */
  predicate EndsWith(events: seq<Event>, fact: Fact) {
    events != [] && events[|events| - 1].fact == fact
  }

  function OutcomeOf(result: Result): Outcome {
    match result
    case Done => Returned
    case Threw(_) => Raised
    case Interrupted => Cancelled
  }

  /** The backend lists exactly one client with an id. */
  predicate OffersOne(listing: Listing) {
    listing.Listed? && |listing.clients| == 1 && listing.clients[0].Some? && listing.clients[0].value != ""
  }

  /** The client a resolution yields: the cached one, or the only one listed. */
  function Resolution(cached: Option<string>, listing: Listing): Option<string> {
    if cached.Some? then cached else if OffersOne(listing) then listing.clients[0] else None
  }

  /** The operation raised in a way that leaves room for a retry; in a scope an observation error does not. */
  predicate MayRetry(active: bool, result: Result) {
    result.Threw? && !(active && result.problem == Observation)
  }

  predicate FoundGone(probe: Existence) {
    probe.Answered? && !probe.exists_
  }

  /** The first run raised, its client is gone, and the backend lists one to run on again. */
  predicate Reruns(cached: Option<string>, s: Script, active: bool) {
    && Resolution(cached, s.listings.one).Some? && MayRetry(active, s.executions.one.result) && FoundGone(s.probes.one)
    && OffersOne(s.listings.two)
  }

  /** What a listing without a single client raises. */
  function Selection(listing: Listing): Result {
    if listing.ListingThrew? then Threw(BackendProblem)
    else if |listing.clients| == 0 then Threw(ClientNotFound)
    else if |listing.clients| > 1 then Threw(ClientNotUnique)
    else if OffersOne(listing) then Done else Threw(BackendProblem)
  }

  /** The answer of a call whose observation stays intact. */
  function AnswerOf(cached: Option<string>, s: Script, active: bool): Result {
    var first := if cached.Some? then Done else Selection(s.listings.one);
    if first != Done then first
    else if !(MayRetry(active, s.executions.one.result) && FoundGone(s.probes.one)) then s.executions.one.result
    else if Selection(s.listings.two) == Threw(ClientNotFound) then Threw(ClientIdNotFound)
    else if Selection(s.listings.two) != Done then Selection(s.listings.two)
    else if MayRetry(active, s.executions.two.result) && FoundGone(s.probes.two) then Threw(ClientIdNotFound)
    else s.executions.two.result
  }

  class TargetContext {
    var client: Option<string>

    constructor ()
      ensures client == None
    {
      client := None;
    }

    /** Foreign code runs inside the scope. */
    method Disturb(scope: ObservationScope?, noise: seq<Noise>) returns (ghost fell: seq<Step>)
      requires scope != null ==> scope.Valid()
      modifies if scope != null then {scope} else {}
      ensures scope != null ==> scope.Valid() && scope.sealed == old(scope.sealed) && old(scope.events) <= scope.events
      ensures Tidy(old(Fallen(scope)), fell, Fallen(scope)) && Actions(fell) == []
    {
      hide Advances, Tidy, Actions;
      if scope != null {
        for i := 0 to |noise|
          invariant scope.Valid() && scope.sealed == old(scope.sealed) && (old(scope.failed) ==> scope.failed)
          invariant old(scope.events) <= scope.events
        {
          if noise[i].Breaks? {
            scope.Fail();
          } else {
            var _ := scope.Emit(noise[i].fact);
          }
        }
      }
      fell := Failure(old(Fallen(scope)), Fallen(scope));
      FailureIsTidy(old(Fallen(scope)), Fallen(scope));
    }

    /** `emit_target_fact`: without a scope there is nothing to record. */
    method Record(scope: ObservationScope?, fact: Fact) returns (ok: bool, ghost fell: seq<Step>)
      requires scope != null ==> scope.Valid()
      modifies if scope != null then {scope} else {}
      ensures scope != null ==> scope.Valid() && scope.sealed == old(scope.sealed)
      ensures scope != null ==> scope.events == if ok then old(scope.events) + [Event(|old(scope.events)| + 1, fact)]
                                                else old(scope.events)
      ensures scope != null && ok ==> !old(scope.failed) && !scope.failed && !scope.sealed
      ensures scope == null ==> ok
      ensures scope != null && !ok && !scope.sealed ==> scope.failed
      ensures Tidy(old(Fallen(scope)), fell, Fallen(scope)) && Actions(fell) == []
    {
      hide Advances, Tidy, Actions;
      ok := true;
      if scope != null {
        ok := scope.Emit(fact);
        if !ok { scope.Fail(); }
      }
      fell := Failure(old(Fallen(scope)), Fallen(scope));
      FailureIsTidy(old(Fallen(scope)), Fallen(scope));
    }

    /** `_resolve_client_id`: the cached client, or the only one the backend lists, once its fact is recorded. */
    method Resolve(scope: ObservationScope?, id: Option<string>, listing: Listing)
      returns (r: Result, chosen: string, mode: Mode, ghost steps: seq<Step>)
      requires scope != null ==> scope.Valid()
      modifies this, if scope != null then {scope} else {}
      ensures scope != null ==> scope.Valid() && scope.sealed == old(scope.sealed) && old(scope.events) <= scope.events
      ensures !r.Interrupted?
      ensures r == Done ==> && client == Some(chosen) && (mode == CacheHit <==> old(client).Some?)
                            && (old(client).Some? ==> old(client) == Some(chosen))
      ensures r == Done && scope != null ==> && !scope.failed && !scope.sealed && scope.events != []
                                             && scope.events[|scope.events| - 1].fact == Scope.Resolve(id, mode, chosen)
      ensures old(client).Some? ==> client == old(client)
      ensures old(client) == None && r.Threw? && r.problem != Observation ==> client == None
      ensures Intact(scope) ==> r == if old(client).Some? then Done else Selection(listing)
      ensures Intact(scope) ==> (r == Done <==> Resolution(old(client), listing).Some?)
      ensures Intact(scope) && r == Done ==> Some(chosen) == Resolution(old(client), listing)
      ensures Tidy(old(Fallen(scope)), steps, Fallen(scope))
      ensures Actions(steps) == if r == Done then [Resolved(mode, chosen)] else []
    {
      hide Tidy, Actions;
      chosen, mode, steps := "", Selected, [];
      ghost var was := Fallen(scope);
      FailureIsTidy(was, was);
      ghost var fell: seq<Step>;
      if client.Some? {
        chosen, mode := client.value, CacheHit;
      } else {
        steps := Disturb(scope, listing.noise);
        if listing.ListingThrew? { return Threw(BackendProblem), chosen, mode, steps; }
        if |listing.clients| == 0 { return Threw(ClientNotFound), chosen, mode, steps; }
        if |listing.clients| > 1 { return Threw(ClientNotUnique), chosen, mode, steps; }
        if listing.clients[0] == None || listing.clients[0] == Some("") {
          return Threw(BackendProblem), chosen, mode, steps;
        }
        chosen := listing.clients[0].value;
        client := Some(chosen);
      }
      ghost var mid := Fallen(scope);
      var ok;
      ok, fell := Record(scope, Scope.Resolve(id, mode, chosen));
      Joins(was, steps, mid, fell, Fallen(scope));
      steps := steps + fell;
      r := if ok then Done else Threw(Observation);
      if ok {
        StepIsTidy(Fallen(scope), Resolved(mode, chosen));
        Joins(was, steps, Fallen(scope), [Resolved(mode, chosen)], Fallen(scope));
        steps := steps + [Resolved(mode, chosen)];
      }
    }

    /** `_operation`: the operation runs only once its begin fact is recorded. */
    method Execute(scope: ObservationScope?, operation: Operation, x: Execution) returns (r: Result, ghost steps: seq<Step>)
      requires scope != null ==> scope.Valid()
      modifies if scope != null then {scope} else {}
      ensures scope != null ==> scope.Valid() && scope.sealed == old(scope.sealed) && old(scope.events) <= scope.events
      ensures Tidy(old(Fallen(scope)), steps, Fallen(scope))
      ensures Actions(steps) == [] || Actions(steps) == [Executed(operation.attempt, operation.client)]
      ensures Actions(steps) == [] ==> r == Threw(Observation) && scope != null
      ensures Actions(steps) != [] && scope != null ==>
                |old(scope.events)| < |scope.events| && scope.events[|old(scope.events)|].fact == OperationBegin(operation)
      ensures r == Done ==> x.result == Done
      ensures Intact(scope) ==> r == x.result && Actions(steps) != []
      ensures Intact(scope) && scope != null ==> EndsWith(scope.events, OperationEnd(operation, OutcomeOf(x.result)))
    {
      hide Tidy, Actions;
      ghost var was := Fallen(scope);
      var begun;
      begun, steps := Record(scope, OperationBegin(operation));
      if !begun { return Threw(Observation), steps; }
      ghost var run := Executed(operation.attempt, operation.client);
      ghost var fell: seq<Step>;
      StepIsTidy(Fallen(scope), run);
      Joins(was, steps, Fallen(scope), [run], Fallen(scope));
      steps := steps + [run];
      ghost var mid := Fallen(scope);
      fell := Disturb(scope, x.noise);
      Joins(was, steps, mid, fell, Fallen(scope));
      steps := steps + fell;
      mid := Fallen(scope);
      var ended;
      ended, fell := Record(scope, OperationEnd(operation, OutcomeOf(x.result)));
      Joins(was, steps, mid, fell, Fallen(scope));
      steps := steps + fell;
      r := if x.result == Done && !ended then Threw(Observation) else x.result;
    }

    /** An observation failure, or an observation error, ends the call without a retry. */
    predicate MustStop(scope: ObservationScope?, problem: Problem)
      reads if scope != null then {scope} else {}
    {
      scope != null && (scope.failed || problem == Observation)
    }

    /** The existence probe and its fact: `gone` when it answered no and that was recorded. */
    method Probe(scope: ObservationScope?, operation: Operation, probe: Existence, problem: Problem)
      returns (r: Result, gone: bool, ghost steps: seq<Step>)
      requires scope != null ==> scope.Valid()
      modifies if scope != null then {scope} else {}
      ensures scope != null ==> scope.Valid() && scope.sealed == old(scope.sealed) && old(scope.events) <= scope.events
      ensures Tidy(old(Fallen(scope)), steps, Fallen(scope))
      ensures Actions(steps) == if probe.ProbeThrew? then [] else [Probed(operation.client, probe.exists_)]
      ensures gone ==> probe.Answered? && !probe.exists_
      ensures r == Threw(problem) || r == Threw(Observation)
      ensures Intact(scope) ==> gone == FoundGone(probe) && r == Threw(problem)
      ensures Intact(scope) && scope != null && probe.Answered? ==> EndsWith(scope.events, Exists(operation, probe.exists_))
    {
      hide Tidy, Actions;
      ghost var was := Fallen(scope);
      gone, r := false, Threw(problem);
      steps := Disturb(scope, probe.noise);
      if probe.ProbeThrew? { return; }
      ghost var mid, step := Fallen(scope), Probed(operation.client, probe.exists_);
      StepIsTidy(mid, step);
      Joins(was, steps, mid, [step], mid);
      steps := steps + [step];
      var noted;
      ghost var fell: seq<Step>;
      noted, fell := Record(scope, Exists(operation, probe.exists_));
      Joins(was, steps, mid, fell, Fallen(scope));
      steps := steps + fell;
      if noted { gone := !probe.exists_; } else { r := Threw(Observation); }
    }

    /** `_clear`: the cache is empty whether or not its fact is recorded. */
    method Forget(scope: ObservationScope?, id: Option<string>, first: string) returns (ok: bool, ghost steps: seq<Step>)
      requires scope != null ==> scope.Valid()
      modifies this, if scope != null then {scope} else {}
      ensures scope != null ==> scope.Valid() && scope.sealed == old(scope.sealed) && old(scope.events) <= scope.events
      ensures client == None && Tidy(old(Fallen(scope)), steps, Fallen(scope)) && Actions(steps) == [Cleared(first)]
      ensures Intact(scope) ==> ok
      ensures Intact(scope) && scope != null ==> EndsWith(scope.events, Clear(id, Some(first)))
    {
      hide Tidy, Actions;
      ghost var was := Fallen(scope);
      client := None;
      StepIsTidy(was, Cleared(first));
      ghost var fell: seq<Step>;
      ok, fell := Record(scope, Clear(id, Some(first)));
      Joins(was, [Cleared(first)], was, fell, Fallen(scope));
      steps := [Cleared(first)] + fell;
    }

    lemma Announced(before: seq<Event>, events: seq<Event>, operation: Operation)
      requires |before| < |events| && events[|before|].fact == OperationBegin(operation)
      ensures Announces(events, operation)
    {
    }

    /** One execution, and the probe where it raised with observation intact. */
    method Attempt(scope: ObservationScope?, operation: Operation, x: Execution, probe: Existence)
      returns (r: Result, gone: bool, ghost steps: seq<Step>)
      requires scope != null ==> scope.Valid()
      modifies if scope != null then {scope} else {}
      ensures scope != null ==> scope.Valid() && scope.sealed == old(scope.sealed) && old(scope.events) <= scope.events
      ensures Tidy(old(Fallen(scope)), steps, Fallen(scope))
      ensures Actions(steps) <= [Executed(operation.attempt, operation.client),
                                 Probed(operation.client, probe.Answered? && probe.exists_)]
      ensures r == Done ==> |Actions(steps)| == 1 && x.result == Done
      ensures gone ==> |Actions(steps)| == 2 && probe.Answered? && !probe.exists_
      ensures Intact(scope) ==> && Actions(steps) != [] && r == x.result
                                && gone == (MayRetry(scope != null, x.result) && FoundGone(probe))
      ensures Actions(steps) != [] && scope != null ==> Announces(scope.events, operation)
    {
      hide Tidy, Actions, Announces;
      ghost var was := Fallen(scope);
      ghost var start := if scope == null then [] else scope.events;
      gone := false;
      r, steps := Execute(scope, operation, x);
      if Actions(steps) != [] && scope != null { Announced(start, scope.events, operation); }
      if !r.Threw? || MustStop(scope, r.problem) { return; }
      ghost var mid := Fallen(scope);
      ghost var told := if scope == null then [] else scope.events;
      ghost var more: seq<Step>;
      r, gone, more := Probe(scope, operation, probe, r.problem);
      if scope != null { AnnouncementStays(told, scope.events, operation); }
      Joins(was, steps, mid, more, Fallen(scope));
      steps := steps + more;
    }

    /** Clear the cache and resolve again: with nothing cached, a success is a new selection. */
    method Reselect(scope: ObservationScope?, s: Script, id: Option<string>, first: string)
      returns (r: Result, second: string, ghost steps: seq<Step>)
      requires scope != null ==> scope.Valid()
      modifies this, if scope != null then {scope} else {}
      ensures scope != null ==> scope.Valid() && scope.sealed == old(scope.sealed) && old(scope.events) <= scope.events
      ensures Tidy(old(Fallen(scope)), steps, Fallen(scope))
      ensures Actions(steps) == if r == Done then [Cleared(first), Resolved(Selected, second)] else [Cleared(first)]
      ensures r == Done ==> client == Some(second)
      ensures Intact(scope) ==> r == Selection(s.listings.two) && (r == Done <==> OffersOne(s.listings.two))
      ensures Intact(scope) && r == Done ==> Some(second) == s.listings.two.clients[0]
    {
      hide Tidy, Actions;
      ghost var was := Fallen(scope);
      var cleared, mode;
      second := "";
      cleared, steps := Forget(scope, id, first);
      if !cleared { return Threw(Observation), second, steps; }
      ghost var mid, more := Fallen(scope), [];
      r, second, mode, more := Resolve(scope, id, s.listings.two);
      Joins(was, steps, mid, more, Fallen(scope));
      steps := steps + more;
    }

    /** The retry: `more` is what it adds to the trace after the client was found gone. */
    method Retry(scope: ObservationScope?, s: Script, id: Option<string>, first: string)
      returns (r: Result, ghost more: seq<Step>)
      requires scope != null ==> scope.Valid()
      modifies this, if scope != null then {scope} else {}
      ensures scope != null ==> scope.Valid() && scope.sealed == old(scope.sealed) && old(scope.events) <= scope.events
      ensures Intact(scope) ==> (|Actions(more)| > 2 <==> OffersOne(s.listings.two))
      ensures Intact(scope) && OffersOne(s.listings.two) ==>
                Actions(more)[2] == Executed(2, s.listings.two.clients[0].value)
      ensures Intact(scope) ==>
                r == if Selection(s.listings.two) == Threw(ClientNotFound) then Threw(ClientIdNotFound)
                     else if Selection(s.listings.two) != Done then Selection(s.listings.two)
                     else if MayRetry(scope != null, s.executions.two.result) && FoundGone(s.probes.two) then
                       Threw(ClientIdNotFound)
                     else s.executions.two.result
      ensures RetryCourse(first, Actions(more)) && Tidy(old(Fallen(scope)), more, Fallen(scope))
      ensures r == Done ==> |Actions(more)| == 3 && s.executions.two.result == Done
      ensures |Actions(more)| > 2 ==> && Actions(more)[2].Executed? && client == Some(Actions(more)[2].client)
                                      && (scope != null ==>
                                            Announces(scope.events, Operation(s.id, 2, Actions(more)[2].client)))
    {
      hide RetryCourse, Tidy, Actions, Announces;
      ghost var was := Fallen(scope);
      var second;
      r, second, more := Reselect(scope, s, id, first);
      RetryGrows(Actions(more), first, second, false);
      if r != Done {
        if r == Threw(ClientNotFound) { r := Threw(ClientIdNotFound); }
        return;
      }
      ghost var mid, steps := Fallen(scope), [];
      var gone;
      r, gone, steps := Attempt(scope, Operation(s.id, 2, second), s.executions.two, s.probes.two);
      FailureLasts(mid, steps, Fallen(scope));
      Joins(was, more, mid, steps, Fallen(scope));
      more := more + steps;
      RetryGrows(Actions(more), first, second, s.probes.two.Answered? && s.probes.two.exists_);
      if gone { r := Threw(ClientIdNotFound); }
    }

    /**
     * `run_with_client`: every call keeps the one course; the operation runs at most twice, each time
     * after its own begin fact, and never once observation has failed, wherever in the call it failed.
     */
    method RunWithClient(scope: ObservationScope?, s: Script) returns (r: Result, ghost trace: seq<Step>)
      requires scope != null ==> scope.Valid()
      modifies this, if scope != null then {scope} else {}
      ensures scope != null ==> scope.Valid()
      ensures Intact(scope) && Resolution(old(client), s.listings.one).Some? ==>
                && |Actions(trace)| > 1 && Actions(trace)[1] == Executed(1, Resolution(old(client), s.listings.one).value)
                && (s.executions.one.result == Done ==> r == Done)
      ensures Intact(scope) ==> (|Actions(trace)| > 5 <==> Reruns(old(client), s, scope != null))
      ensures Intact(scope) && Reruns(old(client), s, scope != null) ==>
                && Actions(trace)[5] == Executed(2, s.listings.two.clients[0].value)
                && (r == Done <==> s.executions.two.result == Done)
      ensures Intact(scope) ==> r == AnswerOf(old(client), s, scope != null)
      ensures OnCourse(Actions(trace)) && Runs(trace) <= 2
      ensures Tidy(old(Fallen(scope)), trace, Fallen(scope))
      ensures r == Done ==> && Actions(trace) != [] && Actions(trace)[|Actions(trace)| - 1].Executed?
                            && (if |Actions(trace)| == 2 then s.executions.one.result == Done
                                else s.executions.two.result == Done)
      ensures |Actions(trace)| > 1 && scope != null ==>
                Actions(trace)[1].Executed? && Announces(scope.events, Operation(s.id, 1, Actions(trace)[1].client))
      ensures |Actions(trace)| > 5 ==> && Actions(trace)[5].Executed? && client == Some(Actions(trace)[5].client)
                                       && (scope != null ==>
                                             Announces(scope.events, Operation(s.id, 2, Actions(trace)[5].client)))
    {
      hide OnCourse, RetryCourse, Tidy, Actions, Announces, Runs;
      ghost var was, mid, steps := Fallen(scope), false, [];
      var id := if scope == null then None else Some(s.id);
      var resolved, first, mode;
      resolved, first, mode, trace := Resolve(scope, id, s.listings.one);
      CourseGrows(Actions(trace), mode, first, false);
      AtMostTwice(trace);
      if resolved != Done { return resolved, trace; }
      var operation, gone := Operation(s.id, 1, first), false;
      mid := Fallen(scope);
      r, gone, steps := Attempt(scope, operation, s.executions.one, s.probes.one);
      FailureLasts(mid, steps, Fallen(scope));
      Joins(was, trace, mid, steps, Fallen(scope));
      trace := trace + steps;
      CourseGrows(Actions(trace), mode, first, s.probes.one.Answered? && s.probes.one.exists_);
      AtMostTwice(trace);
      if !gone { return r, trace; }
      mid := Fallen(scope);
      ghost var told := if scope == null then [] else scope.events;
      r, steps := Retry(scope, s, id, first);
      FailureLasts(mid, steps, Fallen(scope));
      CourseContinues(Actions(trace), mode, first, Actions(steps));
      Joins(was, trace, mid, steps, Fallen(scope));
      if scope != null { AnnouncementStays(told, scope.events, operation); }
      trace := trace + steps;
      AtMostTwice(trace);
    }
  }
}
