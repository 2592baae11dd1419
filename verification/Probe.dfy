/**
 * The kernel probe as a step relation on its `@until` and `@origin` maps, and the two replays that
 * recover process membership from the events it prints.
 */
module Probe {

  import opened Base

  /** A process: its id and its birth tick. */
  datatype Proc = Proc(pid: nat, birth: nat)

  /** `leader` says the exiting thread is the group leader; `Touch` is any file or network action. */
  datatype Act = Fork(child: Proc) | Exec | Exit(leader: bool) | Touch(facts: string)

  /** Something a process does in the kernel, whether the probe sees it or not. */
  datatype Occurrence = Occurrence(ns: nat, actor: Proc, act: Act)

  /** A printed record, `root` being the actor's `@origin`. */
  datatype Event = Event(ns: nat, actor: Proc, root: Proc, act: Act)

  datatype Maps = Maps(until: map<Proc, nat>, origin: map<Proc, Proc>)

  /** The predicate on every hook; a missing map entry reads as zero. */
  predicate Covered(m: Maps, deadline: nat, o: Occurrence) {
    o.actor in m.until && m.until[o.actor] > o.ns && o.ns < deadline
  }

  function OriginOf(m: Maps, p: Proc): Proc {
    if p in m.origin then m.origin[p] else Proc(0, 0)
  }

  function Step(m: Maps, deadline: nat, o: Occurrence): (Maps, seq<Event>) {
    var printed := [Event(o.ns, o.actor, OriginOf(m, o.actor), o.act)];
    if !Covered(m, deadline, o) then (m, [])
    else
      match o.act
      case Fork(child) =>
        if child.pid == o.actor.pid then (m, [])
        else (Maps(m.until[child := m.until[o.actor]], m.origin[child := OriginOf(m, o.actor)]), printed)
      case Exit(leader) =>
        if leader then (Maps(m.until - {o.actor}, m.origin - {o.actor}), printed) else (m, [])
      case _ => (m, printed)
  }

  /** The maps after the occurrences, and everything printed. */
  function Watch(m: Maps, deadline: nat, run: seq<Occurrence>): (Maps, seq<Event>) {
    if run == [] then (m, [])
    else
      var (before, printed) := Watch(m, deadline, run[..|run| - 1]);
      var (after, more) := Step(before, deadline, run[|run| - 1]);
      (after, printed + more)
  }

  /** One seeded root that is its own origin. */
  function Seeded(root: Proc, until: nat): Maps {
    Maps(map[root := until], map[root := root])
  }

  // ----- The replay -----

  datatype Crowd = Crowd(members: set<Proc>, seen: set<Proc>)

  function Fresh(root: Proc): Crowd {
    Crowd({root}, {root})
  }

  function Admit(c: Crowd, root: Proc, e: Event): Option<Crowd> {
    if e.actor !in c.members || e.root != root then None
    else
      match e.act
      case Fork(child) => if child in c.seen then None else Some(Crowd(c.members + {child}, c.seen + {child}))
      case Exit(_) => Some(c.(members := c.members - {e.actor}))
      case _ => Some(c)
  }

  function Replay(c: Crowd, root: Proc, events: seq<Event>): Option<Crowd> {
    if events == [] then Some(c)
    else
      match Replay(c, root, events[..|events| - 1])
      case None => None
      case Some(d) => Admit(d, root, events[|events| - 1])
  }

  /** The events before the first one later than `ns`. */
  function Upto(events: seq<Event>, ns: nat): seq<Event> {
    if events == [] || events[0].ns > ns then [] else [events[0]] + Upto(events[1..], ns)
  }

  /** The loop of `live`, from any sets: refuses, or gives the sets it ends with. */
  method ReplayLoop(c: Crowd, root: Proc, kernel: seq<Event>, ns: nat) returns (r: Option<Crowd>)
    ensures r == Replay(c, root, Upto(kernel, ns))
  {
    var members, seen := c.members, c.seen;
    var i := 0;
    UptoIsPrefix(kernel, ns);
    ghost var n := |Upto(kernel, ns)|;
    while i < |kernel| && kernel[i].ns <= ns
      invariant 0 <= i <= n
      invariant Replay(c, root, kernel[..i]) == Some(Crowd(members, seen))
    {
      var e := kernel[i];
      assert kernel[..i + 1][..i] == kernel[..i];
      ReplayPrefix(c, root, kernel[..n], i + 1);
      assert kernel[..n][..i + 1] == kernel[..i + 1];
      if e.actor !in members || e.root != root { return None; }
      if e.act.Fork? {
        if e.act.child in seen { return None; }
        seen, members := seen + {e.act.child}, members + {e.act.child};
      } else if e.act.Exit? {
        members := members - {e.actor};
      }
      i := i + 1;
    }
    r := Some(Crowd(members, seen));
  }

  lemma {:induction false} UptoIsPrefix(events: seq<Event>, ns: nat)
    ensures var n := |Upto(events, ns)|;
            && n <= |events| && Upto(events, ns) == events[..n]
            && (forall i | 0 <= i < n :: events[i].ns <= ns)
            && (n < |events| ==> events[n].ns > ns)
  {
    if events != [] && events[0].ns <= ns {
      UptoIsPrefix(events[1..], ns);
      var n := |Upto(events[1..], ns)|;
      forall i | 0 <= i < n + 1 ensures events[i].ns <= ns { if i > 0 { assert events[i] == events[1..][i - 1]; } }
      assert events[..n + 1] == [events[0]] + events[1..][..n];
    }
  }

  lemma {:induction false} ReplayPrefix(c: Crowd, root: Proc, events: seq<Event>, k: nat)
    requires k <= |events|
    ensures Replay(c, root, events[..k]) == None ==> Replay(c, root, events) == None
  {
    if k == |events| {
      assert events[..k] == events;
    } else {
      var before := events[..|events| - 1];
      ReplayPrefix(c, root, before, k);
      assert before[..k] == events[..k];
    }
  }

  // ----- The replay recovers the probe's map -----

  /** A new process, as opposed to a thread: the child leads a group of its own. */
  predicate IsProcessFork(o: Occurrence) {
    o.act.Fork? && o.act.child.pid != o.actor.pid
  }

  /** Keys are not reused: the child of a process fork is no earlier process of the run. Threads may come and go. */
  ghost predicate Unreused(root: Proc, run: seq<Occurrence>) {
    forall i | 0 <= i < |run| && IsProcessFork(run[i]) ::
      run[i].act.child != root && forall j | 0 <= j < i && IsProcessFork(run[j]) :: run[i].act.child != run[j].act.child
  }

  /** Everything the replay has seen is the root or a process forked in the run. */
  ghost predicate SeenFrom(seen: set<Proc>, root: Proc, run: seq<Occurrence>) {
    forall p | p in seen :: p == root || exists i | 0 <= i < |run| && IsProcessFork(run[i]) :: run[i].act.child == p
  }

  /** A thread is cloned under its own group's key, which reuses none. */
  lemma ThreadsReuseNothing(root: Proc, run: seq<Occurrence>, o: Occurrence)
    requires Unreused(root, run) && o.act == Fork(o.actor)
    ensures Unreused(root, run + [o])
  {
    var all := run + [o];
    forall i | 0 <= i < |all| && IsProcessFork(all[i])
      ensures all[i].act.child != root && forall j | 0 <= j < i && IsProcessFork(all[j]) :: all[i].act.child != all[j].act.child {
      assert all[i] == run[i] && forall j | 0 <= j < i :: all[j] == run[j];
    }
  }

  ghost predicate InStep(m: Maps, root: Proc, until: nat, c: Crowd) {
    && c.members == m.until.Keys == m.origin.Keys && c.members <= c.seen
    && (forall p | p in m.until :: m.until[p] == until && m.origin[p] == root)
  }

  /**
   * For every run with unreused keys and one seeded root, replaying what the probe printed never
   * refuses, and the members it ends with are the keys of the probe's `@until` map.
   */
  lemma {:induction false} ReplayFollowsProbe(root: Proc, until: nat, deadline: nat, run: seq<Occurrence>)
    requires Unreused(root, run)
    ensures var (m, events) := Watch(Seeded(root, until), deadline, run);
            && Replay(Fresh(root), root, events).Some?
            && InStep(m, root, until, Replay(Fresh(root), root, events).value)
            && SeenFrom(Replay(Fresh(root), root, events).value.seen, root, run)
  {
    if run != [] {
      var before, o := run[..|run| - 1], run[|run| - 1];
      ReplayFollowsProbe(root, until, deadline, before);
      var (m, events) := Watch(Seeded(root, until), deadline, before);
      StepFollows(root, until, deadline, before, o, m, events);
      SeenGrows(Replay(Fresh(root), root, events).value.seen, root, before, o);
      assert run == before + [o];
    }
  }

  lemma SeenGrows(seen: set<Proc>, root: Proc, run: seq<Occurrence>, o: Occurrence)
    requires SeenFrom(seen, root, run)
    ensures SeenFrom(seen, root, run + [o])
    ensures IsProcessFork(o) ==> SeenFrom(seen + {o.act.child}, root, run + [o])
  {
    var all := run + [o];
    forall p | p in seen && p != root ensures exists i | 0 <= i < |all| && IsProcessFork(all[i]) :: all[i].act.child == p {
      var i :| 0 <= i < |run| && IsProcessFork(run[i]) && run[i].act.child == p;
      assert all[i] == run[i];
    }
    assert all[|run|] == o;
  }

  lemma StepFollows(root: Proc, until: nat, deadline: nat, run: seq<Occurrence>, o: Occurrence, m: Maps, events: seq<Event>)
    requires Unreused(root, run + [o])
    requires Replay(Fresh(root), root, events).Some?
    requires InStep(m, root, until, Replay(Fresh(root), root, events).value)
    requires SeenFrom(Replay(Fresh(root), root, events).value.seen, root, run)
    ensures var (after, more) := Step(m, deadline, o);
            && Replay(Fresh(root), root, events + more).Some?
            && var c := Replay(Fresh(root), root, events + more).value;
               && InStep(after, root, until, c)
               && (c.seen == Replay(Fresh(root), root, events).value.seen
                   || (IsProcessFork(o) && c.seen == Replay(Fresh(root), root, events).value.seen + {o.act.child}))
  {
    var c := Replay(Fresh(root), root, events).value;
    var (after, more) := Step(m, deadline, o);
    if more == [] {
      assert events + more == events;
    } else {
      assert (events + more)[..|events|] == events;
      if o.act.Fork? { ChildIsNew(root, run, o, c.seen); }
    }
  }

  lemma ChildIsNew(root: Proc, run: seq<Occurrence>, o: Occurrence, seen: set<Proc>)
    requires Unreused(root, run + [o]) && SeenFrom(seen, root, run) && IsProcessFork(o)
    ensures o.act.child !in seen
  {
    var all := run + [o];
    assert all[|run|] == o;
    forall i | 0 <= i < |run| && IsProcessFork(run[i]) ensures run[i].act.child != o.act.child {
      assert all[i] == run[i];
    }
  }

  // ----- At each instant -----

  ghost predicate InTimeOrder(run: seq<Occurrence>) {
    forall i, j | 0 <= i < j < |run| :: run[i].ns <= run[j].ns
  }

  /** How many occurrences have happened by `ns`. */
  function By(run: seq<Occurrence>, ns: nat): (n: nat)
    ensures n <= |run|
  {
    if run == [] || run[0].ns > ns then 0 else 1 + By(run[1..], ns)
  }

  lemma {:induction false} ByIsPrefix(run: seq<Occurrence>, ns: nat)
    ensures forall i | 0 <= i < By(run, ns) :: run[i].ns <= ns
    ensures By(run, ns) < |run| ==> run[By(run, ns)].ns > ns
  {
    if run != [] && run[0].ns <= ns {
      ByIsPrefix(run[1..], ns);
      forall i | 0 <= i < By(run, ns) ensures run[i].ns <= ns { if i > 0 { assert run[i] == run[1..][i - 1]; } }
    }
  }

  /** The events of a run start with the events of its beginning, and the later ones are later. */
  lemma {:induction false} EventsSplit(m: Maps, deadline: nat, run: seq<Occurrence>, k: nat, ns: nat)
    requires k <= |run| && (forall i | 0 <= i < k :: run[i].ns <= ns) && (forall i | k <= i < |run| :: run[i].ns > ns)
    ensures var head, all := Watch(m, deadline, run[..k]).1, Watch(m, deadline, run).1;
            && |head| <= |all| && head == all[..|head|]
            && (forall i | 0 <= i < |head| :: all[i].ns <= ns)
            && (forall i | |head| <= i < |all| :: all[i].ns > ns)
  {
    if run == [] {
    } else if k == |run| {
      assert run[..k] == run;
      EventsSplit(m, deadline, run[..k - 1], k - 1, ns);
      assert run[..k - 1][..k - 1] == run[..k - 1];
    } else {
      var before := run[..|run| - 1];
      EventsSplit(m, deadline, before, k, ns);
      assert before[..k] == run[..k];
    }
  }

  /** A list whose first part is at most `ns` and whose rest is later is cut there. */
  lemma {:induction false} UptoCuts(events: seq<Event>, k: nat, ns: nat)
    requires k <= |events| && (forall i | 0 <= i < k :: events[i].ns <= ns) && (k < |events| ==> events[k].ns > ns)
    ensures Upto(events, ns) == events[..k]
  {
    if k > 0 {
      UptoCuts(events[1..], k - 1, ns);
      assert events[..k] == [events[0]] + events[1..][..k - 1];
    }
  }

  /** `live` at any instant: it does not refuse, and its members are the map's keys at that instant. */
  lemma LiveIsUntil(root: Proc, until: nat, deadline: nat, run: seq<Occurrence>, ns: nat)
    requires Unreused(root, run) && InTimeOrder(run)
    ensures var kernel := Watch(Seeded(root, until), deadline, run).1;
            var past := run[..By(run, ns)];
            && Replay(Fresh(root), root, Upto(kernel, ns)).Some?
            && Replay(Fresh(root), root, Upto(kernel, ns)).value.members
               == Watch(Seeded(root, until), deadline, past).0.until.Keys
  {
    hide Watch, Replay, Upto;
    ByIsPrefix(run, ns);
    var k := By(run, ns);
    forall i | k <= i < |run| ensures run[i].ns > ns { assert run[k].ns <= run[i].ns || i == k; }
    var m := Seeded(root, until);
    EventsSplit(m, deadline, run, k, ns);
    var head, all := Watch(m, deadline, run[..k]).1, Watch(m, deadline, run).1;
    UptoCuts(all, |head|, ns);
    assert Unreused(root, run[..k]);
    ReplayFollowsProbe(root, until, deadline, run[..k]);
  }

  // ----- The map is the living family -----

  /** Who is alive of the root's family: children of the family join, an exiting leader leaves. */
  function Family(root: Proc, run: seq<Occurrence>): set<Proc> {
    if run == [] then {root}
    else
      var f, o := Family(root, run[..|run| - 1]), run[|run| - 1];
      if o.actor !in f then f
      else if IsProcessFork(o) then f + {o.act.child}
      else if o.act.Exit? && o.act.leader then f - {o.actor}
      else f
  }

  /** Before the deadline and the root's expiry, the probe's map holds exactly the living family. */
  lemma {:induction false} MapIsFamily(root: Proc, until: nat, deadline: nat, run: seq<Occurrence>)
    requires Unreused(root, run) && forall i | 0 <= i < |run| :: run[i].ns < deadline && run[i].ns < until
    ensures Watch(Seeded(root, until), deadline, run).0.until.Keys == Family(root, run)
  {
    if run != [] {
      var before := run[..|run| - 1];
      assert Unreused(root, before);
      MapIsFamily(root, until, deadline, before);
      ReplayFollowsProbe(root, until, deadline, before);
    }
  }

  /** The hook prints: a covered occurrence other than a thread's creation or a thread's exit. */
  predicate IsPrinted(m: Maps, deadline: nat, o: Occurrence) {
    && Covered(m, deadline, o) && (o.act.Fork? ==> IsProcessFork(o)) && (o.act.Exit? ==> o.act.leader)
  }

  /** Every printed occurrence gives one event with its own time, actor and facts under the actor's origin; others give none. */
  lemma PrintsItself(m: Maps, deadline: nat, run: seq<Occurrence>, o: Occurrence)
    ensures var before, all := Watch(m, deadline, run), Watch(m, deadline, run + [o]);
            all.1 == before.1 + (if IsPrinted(before.0, deadline, o) then
                                   [Event(o.ns, o.actor, OriginOf(before.0, o.actor), o.act)]
                                 else [])
  {
    assert (run + [o])[..|run|] == run;
  }

  /** With one seeded root every printed event names it as origin. */
  lemma PrintsRoot(root: Proc, until: nat, deadline: nat, run: seq<Occurrence>, o: Occurrence)
    requires Unreused(root, run) && IsPrinted(Watch(Seeded(root, until), deadline, run).0, deadline, o)
    ensures Watch(Seeded(root, until), deadline, run + [o]).1
            == Watch(Seeded(root, until), deadline, run).1 + [Event(o.ns, o.actor, root, o.act)]
  {
    hide Watch, Replay, Step;
    PrintsItself(Seeded(root, until), deadline, run, o);
    ReplayFollowsProbe(root, until, deadline, run);
  }

  /** What an observer of the whole family would write down, until the root expires or the deadline comes. */
  function FamilyEvents(root: Proc, until: nat, deadline: nat, run: seq<Occurrence>): seq<Event> {
    if run == [] then []
    else
      var before, o := run[..|run| - 1], run[|run| - 1];
      FamilyEvents(root, until, deadline, before)
      + (if o.actor in Family(root, before) && o.ns < until && o.ns < deadline
            && (o.act.Fork? ==> IsProcessFork(o)) && (o.act.Exit? ==> o.act.leader) then
           [Event(o.ns, o.actor, root, o.act)]
         else [])
  }

  /**
   * In every run in time order with unreused keys, expiry included, the probe prints exactly what the
   * root's living family does before the root's expiry and the deadline, in order and under the root.
   */
  lemma {:induction false} PrintsFamily(root: Proc, until: nat, deadline: nat, run: seq<Occurrence>)
    requires Unreused(root, run) && InTimeOrder(run)
    ensures Watch(Seeded(root, until), deadline, run).1 == FamilyEvents(root, until, deadline, run)
  {
    if run != [] {
      var before, o := run[..|run| - 1], run[|run| - 1];
      assert Unreused(root, before);
      PrintsFamily(root, until, deadline, before);
      ReplayFollowsProbe(root, until, deadline, before);
      if o.ns < until && o.ns < deadline {
        forall i | 0 <= i < |before| ensures before[i].ns < until && before[i].ns < deadline {
          assert run[i].ns <= run[|run| - 1].ns;
        }
        MapIsFamily(root, until, deadline, before);
      }
    }
  }

  /** Seeding a descendant beside the root breaks the replay: its first event is a foreign member. */
  lemma SecondSeedRefused(root: Proc, child: Proc, until: nat, deadline: nat, ns: nat)
    requires root != child && ns < until && ns < deadline
    ensures var m := Maps(map[root := until, child := until], map[root := root, child := root]);
            var events := Watch(m, deadline, [Occurrence(ns, child, Exec)]).1;
            events != [] && Replay(Fresh(root), root, events) == None
  {
    var run := [Occurrence(ns, child, Exec)];
    assert run[..0] == [];
    var m := Maps(map[root := until, child := until], map[root := root, child := root]);
    var events := Watch(m, deadline, run).1;
    assert Watch(m, deadline, []) == (m, []);
    assert Step(m, deadline, run[0]) == (m, [Event(ns, child, root, Exec)]);
    assert events == [Event(ns, child, root, Exec)];
    assert events[..0] == [];
  }

  // ----- The shared replay -----

  /** Sets carried from call to call, every call replaying from the first event. */
  function Shared(root: Proc, kernel: seq<Event>, times: seq<nat>): Option<Crowd> {
    if times == [] then Some(Fresh(root))
    else
      match Shared(root, kernel, times[..|times| - 1])
      case None => None
      case Some(c) => Replay(c, root, Upto(kernel, times[|times| - 1]))
  }

  /** The boot-install `live`, called once for every write. */
  class SharedReplay {
    const root: Proc
    const kernel: seq<Event>
    var crowd: Crowd
    var refused: bool
    ghost var times: seq<nat>

    ghost predicate Valid()
      reads this
    {
      if refused then Shared(root, kernel, times) == None else Shared(root, kernel, times) == Some(crowd)
    }

    constructor (root: Proc, kernel: seq<Event>)
      ensures Valid() && this.root == root && this.kernel == kernel && times == [] && !refused
    {
      this.root, this.kernel := root, kernel;
      crowd, refused, times := Fresh(root), false, [];
    }

    /** On times that do not go back, an answer is the one a fresh replay gives. */
    method Live(actor: Proc, ns: nat) returns (answer: Option<bool>)
      requires Valid() && !refused && (times != [] ==> times[|times| - 1] <= ns)
      requires forall i, j | 0 <= i < j < |times| :: times[i] <= times[j]
      modifies this
      ensures Valid() && times == old(times) + [ns] && (refused <==> answer == None)
      ensures answer.Some? ==>
                && Replay(Fresh(root), root, Upto(kernel, ns)).Some?
                && answer == Some(actor in Replay(Fresh(root), root, Upto(kernel, ns)).value.members)
    {
      var r := ReplayLoop(crowd, root, kernel, ns);
      ghost var all := times + [ns];
      assert all[..|times|] == times;
      times := all;
      if r == None {
        refused := true;
        return None;
      }
      crowd := r.value;
      SharedIsFresh(root, kernel, all);
      answer := Some(actor in crowd.members);
    }
  }

  predicate IsQuiet(events: seq<Event>) {
    forall i | 0 <= i < |events| :: !events[i].act.Fork? && !events[i].act.Exit?
  }

  lemma {:induction false} QuietKeeps(c: Crowd, root: Proc, events: seq<Event>)
    requires IsQuiet(events) && Replay(c, root, events).Some?
    ensures Replay(c, root, events).value == c
  {
    if events != [] { QuietKeeps(c, root, events[..|events| - 1]); }
  }

  /** After a replay, every forked child has been seen, and whoever exited is gone for good. */
  lemma {:induction false} ReplayMarks(c: Crowd, root: Proc, events: seq<Event>, i: nat)
    requires c.members <= c.seen && Replay(c, root, events).Some? && i < |events|
    ensures var d := Replay(c, root, events).value;
            && d.members <= d.seen && c.seen <= d.seen
            && (events[i].act.Fork? ==> events[i].act.child in d.seen)
            && (events[i].act.Exit? ==> events[i].actor in d.seen && events[i].actor !in d.members)
  {
    var before := events[..|events| - 1];
    if i < |before| {
      ReplayMarks(c, root, before, i);
    } else if before != [] {
      ReplayMarks(c, root, before, 0);
    }
  }

  /** A replay never readmits: a seen child is refused, and so is an actor that was seen and is gone. */
  lemma {:induction false} ReplayRefuses(c: Crowd, root: Proc, events: seq<Event>, i: nat)
    requires i < |events|
    requires (events[i].act.Fork? && events[i].act.child in c.seen)
             || (events[i].actor in c.seen && events[i].actor !in c.members)
    ensures Replay(c, root, events) == None
  {
    var before := events[..|events| - 1];
    if i < |before| {
      ReplayRefuses(c, root, before, i);
    } else if Replay(c, root, before).Some? {
      StillMarked(c, root, before, if events[i].act.Fork? then events[i].act.child else events[i].actor, events[i].actor);
    }
  }

  lemma {:induction false} StillMarked(c: Crowd, root: Proc, events: seq<Event>, child: Proc, actor: Proc)
    requires Replay(c, root, events).Some?
    ensures var d := Replay(c, root, events).value;
            && (child in c.seen ==> child in d.seen)
            && (actor in c.seen && actor !in c.members ==> actor in d.seen && actor !in d.members)
  {
    if events != [] { StillMarked(c, root, events[..|events| - 1], child, actor); }
  }

  lemma UptoGrows(events: seq<Event>, a: nat, b: nat)
    requires a <= b
    ensures |Upto(events, a)| <= |Upto(events, b)| && Upto(events, a) == Upto(events, b)[..|Upto(events, a)|]
  {
    UptoIsPrefix(events, a);
    UptoIsPrefix(events, b);
  }

  /** Replaying a beginning a second time is refused as soon as it forks or exits. */
  lemma SecondReplayIsQuiet(root: Proc, first: seq<Event>, second: seq<Event>)
    requires |first| <= |second| && first == second[..|first|]
    requires Replay(Fresh(root), root, first).Some?
    requires Replay(Replay(Fresh(root), root, first).value, root, second).Some?
    ensures IsQuiet(first)
  {
    hide Replay;
    var c := Replay(Fresh(root), root, first).value;
    forall i | 0 <= i < |first| ensures !first[i].act.Fork? && !first[i].act.Exit? {
      if first[i].act.Fork? || first[i].act.Exit? {
        ReplayMarks(Fresh(root), root, first, i);
        assert second[i] == first[i];
        ReplayRefuses(c, root, second, i);
      }
    }
  }

  /**
   * The shared replay is the stricter one: on times that do not go back it answers exactly when the
   * fresh replay does and nothing forked or exited by the call before, and then with the same sets.
   */
  lemma {:induction false} SharedIsFresh(root: Proc, kernel: seq<Event>, times: seq<nat>)
    requires times != [] && forall i, j | 0 <= i < j < |times| :: times[i] <= times[j]
    ensures var n := |times| - 1;
            var last := Replay(Fresh(root), root, Upto(kernel, times[n]));
            && (Shared(root, kernel, times).Some? ==> Shared(root, kernel, times) == last)
            && (Shared(root, kernel, times).Some? <==>
                  last.Some? && (n > 0 ==> IsQuiet(Upto(kernel, times[n - 1]))))
  {
    hide Replay, Upto;
    var n := |times| - 1;
    if n == 0 {
      assert times[..0] == [];
    } else {
      var before := times[..n];
      SharedIsFresh(root, kernel, before);
      UptoGrows(kernel, times[n - 1], times[n]);
      var first, second := Upto(kernel, times[n - 1]), Upto(kernel, times[n]);
      if Shared(root, kernel, before).Some? {
        if Shared(root, kernel, times).Some? { SecondReplayIsQuiet(root, first, second); }
        if IsQuiet(first) { QuietKeeps(Fresh(root), root, first); }
      } else if Replay(Fresh(root), root, second).Some? && IsQuiet(first) {
        if n >= 2 { QuietBefore(kernel, times); }
        ReplayPrefix(Fresh(root), root, second, |first|);
      }
    }
  }

  /** The two replays do differ: after a fork, a second call at the same time is refused, and a fresh one is not. */
  lemma SharedRefusesAgain(root: Proc, child: Proc, ns: nat)
    requires child != root
    ensures var kernel := [Event(ns, root, root, Fork(child))];
            && Shared(root, kernel, [ns, ns]) == None
            && Replay(Fresh(root), root, Upto(kernel, ns)) == Some(Crowd({root, child}, {root, child}))
  {
    var e := Event(ns, root, root, Fork(child));
    assert [e][1..] == [] && [e][..0] == [];
    assert Upto([e], ns) == [e];
    assert Replay(Fresh(root), root, [e]) == Admit(Fresh(root), root, e);
    assert {root} + {child} == {root, child};
    assert !IsQuiet([e]) by { assert [e][0].act.Fork?; }
    SharedIsFresh(root, [e], [ns, ns]);
  }

  /** What is quiet up to a time was quiet up to an earlier one. */
  lemma QuietBefore(kernel: seq<Event>, times: seq<nat>)
    requires |times| > 2 && times[|times| - 3] <= times[|times| - 2] && IsQuiet(Upto(kernel, times[|times| - 2]))
    ensures IsQuiet(Upto(kernel, times[|times| - 3]))
  {
    UptoGrows(kernel, times[|times| - 3], times[|times| - 2]);
  }
}
