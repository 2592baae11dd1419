/**
 * What the ledger's calls write about their attempt: the BEGIN of the call, the ACK of the accept record
 * and an END the independent request check accepts. A session whose attempts all ended can be exported.
 */
module LedgerRecords {

  import opened Base
  import opened Names
  import opened Budgets
  import opened Catalog
  import opened Ledger
  import opened LedgerProofs
  import opened LedgerClass
  import Archive
  import Cut
  import Export
  import LedgerBudgets

  // ----- An attempt stays the attempt of its call -----

  ghost predicate SameCall(a: Attempt, b: Attempt) {
    a.key == b.key && a.tool == b.tool && a.arguments == b.arguments && a.decision == b.decision
  }

  ghost predicate SameCalls(before: seq<Attempt>, after: seq<Attempt>) {
    |before| == |after| && forall i | 0 <= i < |before| :: SameCall(before[i], after[i])
  }

  lemma KeptCalls(before: seq<Attempt>)
    ensures SameCalls(before, before)
  {
  }

  lemma SetCalls(before: seq<Attempt>, i: nat, a: Attempt)
    requires i < |before| && SameCall(before[i], a)
    ensures SameCalls(before, before[i := a])
  {
  }

  lemma AcceptSameCalls(s: Book, n: nat)
    ensures SameCalls(s.attempts, DoStartAccept(s, n).attempts) && SameCalls(s.attempts, DoFailAccept(s, n).attempts)
    ensures SameCalls(s.attempts, DoCompleteAccept(s, n).attempts)
  {
    hide SameCalls, Available;
    KeptCalls(s.attempts);
    if Owned(s, n) {
      SetCalls(s.attempts, n - 1, At(s, n).(phase := Accepting));
      SetCalls(s.attempts, n - 1, At(s, n).(phase := Unknown));
      SetCalls(s.attempts, n - 1, At(s, n).(phase := Accepted));
    }
  }

  lemma FinishSameCalls(s: Book, n: nat, poisoned: bool)
    ensures SameCalls(s.attempts, DoStartFinish(s, n).attempts) && SameCalls(s.attempts, DoReturnFinish(s, n, poisoned).attempts)
    ensures SameCalls(s.attempts, DoFailFinish(s, n).attempts) && SameCalls(s.attempts, DoCompleteFinish(s, n).attempts)
    ensures SameCalls(s.attempts, DoRetire(s, n).attempts)
  {
    hide SameCalls;
    KeptCalls(s.attempts);
    if Owned(s, n) {
      SetCalls(s.attempts, n - 1, At(s, n).(phase := Finishing));
      SetCalls(s.attempts, n - 1, At(s, n).(phase := Accepted));
      SetCalls(s.attempts, n - 1, At(s, n).(phase := Unknown));
      SetCalls(s.attempts, n - 1, At(s, n).(phase := Ended));
      SetCalls(s.attempts, n - 1, At(s, n).(active := false));
    }
  }

  lemma DropSameCalls(s: Book)
    requires s.attempts != []
    ensures SameCalls(s.attempts, Drop(s).attempts)
  {
    hide SameCalls;
    KeptCalls(s.attempts);
    SetCalls(s.attempts, |s.attempts| - 1, At(s, |s.attempts|).(active := false));
  }

  lemma BeginSameCalls(w: World, s: Book, o: Publication)
    ensures SameCalls(s.attempts, DoPublishBegin(w, s, o).attempts)
  {
    hide SameCalls, Publish, Drop;
    KeptCalls(s.attempts);
    if s.holder.Reserved? && s.attempts != [] {
      PublishFrame(w, s, s.holder.begin, o);
      SetCalls(s.attempts, |s.attempts| - 1, At(s, |s.attempts|).(begun := true));
      DropSameCalls(Publish(w, s, s.holder.begin, o).0.(holder := Free));
    }
  }

  lemma RejectionSameCalls(w: World, s: Book, o: Publication)
    ensures SameCalls(s.attempts, DoPublishRejection(w, s, o).attempts)
  {
    hide SameCalls, Publish, Drop;
    KeptCalls(s.attempts);
    if s.holder == Rejecting && s.attempts != [] {
      PublishFrame(w, s, RejectionOf(|s.attempts|), o);
      SetCalls(s.attempts, |s.attempts| - 1, At(s, |s.attempts|).(phase := Ended, ended := true));
      DropSameCalls(Publish(w, s, RejectionOf(|s.attempts|), o).0.(holder := Free));
    }
  }

  lemma AckSameCalls(w: World, s: Book, o: Publication)
    ensures SameCalls(s.attempts, DoPublishAck(w, s, o).attempts)
  {
    hide SameCalls, Publish;
    KeptCalls(s.attempts);
    if s.holder.Acking? && Owned(s, s.holder.n) {
      PublishFrame(w, s, AcceptAck(s.holder.n, s.holder.accept), o);
      var a, i := At(s, s.holder.n), s.holder.n - 1;
      var ok := Publish(w, s, AcceptAck(i + 1, s.holder.accept), o).1;
      SetCalls(s.attempts, i, if ok then a.(acked := true) else a.(phase := Unknown));
    }
  }

  lemma EndSameCalls(w: World, s: Book, o: Publication)
    ensures SameCalls(s.attempts, DoPublishEnd(w, s, o).attempts)
  {
    hide SameCalls, Publish;
    KeptCalls(s.attempts);
    if s.holder.Ending? && Owned(s, s.holder.n) {
      PublishFrame(w, s, s.holder.end, o);
      var a, i := At(s, s.holder.n), s.holder.n - 1;
      var ok := Publish(w, s, s.holder.end, o).1;
      SetCalls(s.attempts, i, if ok then a.(ended := true) else a.(phase := Unknown));
    }
  }

  lemma EdgeSameCalls(w: World, s: Book, o: Publication)
    ensures SameCalls(s.attempts, DoOpen(w, s, o).attempts) && SameCalls(s.attempts, DoPublishClose(w, s, o).attempts)
  {
    hide SameCalls, Publish;
    KeptCalls(s.attempts);
    PublishFrame(w, s, w.opening, o);
    PublishFrame(w, s, InstanceEnd(|s.attempts|, s.accepted, s.rejected), o);
  }

  lemma LockSameCalls(w: World, s: Book, n: nat, accept: Link, outcome: Outcome, raws: seq<Bytes>)
    ensures SameCalls(s.attempts, DoLockAck(w, s, n, accept).attempts)
    ensures SameCalls(s.attempts, DoLockEnd(w, s, n, outcome, raws).attempts)
  {
    hide SameCalls, DoFailAccept, DoFailFinish, EndPayload, Directory, RecordPath, Available, MayFailAccept;
    KeptCalls(s.attempts);
    AcceptSameCalls(s, n);
    FinishSameCalls(s, n, false);
  }

  lemma OthersSameCalls(w: World, s: Book, e: Event)
    requires !IsPhaseEvent(e) && !Publishes(e) && !e.LockAck? && !e.LockEnd? && !e.Reserve?
    ensures SameCalls(s.attempts, Next(w, s, e).attempts)
  {
    hide Draft, BeginPayload, AllEnded, Available;
  }

  /** Only a reservation adds an attempt, and no region changes the key, tool, arguments or decision of one. */
  lemma NextSameCalls(w: World, s: Book, e: Event)
    requires !e.Reserve?
    ensures SameCalls(s.attempts, Next(w, s, e).attempts)
  {
    hide SameCalls, DoOpen, DoPublishBegin, DoPublishRejection, DoStartAccept, DoFailAccept, DoLockAck, DoPublishAck;
    hide DoCompleteAccept, DoStartFinish, DoReturnFinish, DoFailFinish, DoLockEnd, DoPublishEnd, DoCompleteFinish;
    hide DoRetire, DoPublishClose;
    match e
    case StartAccept(n) => AcceptSameCalls(s, n);
    case FailAccept(n) => AcceptSameCalls(s, n);
    case CompleteAccept(n) => AcceptSameCalls(s, n);
    case StartFinish(n) => FinishSameCalls(s, n, false);
    case ReturnFinish(n, poisoned) => FinishSameCalls(s, n, poisoned);
    case FailFinish(n) => FinishSameCalls(s, n, false);
    case CompleteFinish(n) => FinishSameCalls(s, n, false);
    case Retire(n) => FinishSameCalls(s, n, false);
    case PublishBegin(o) => BeginSameCalls(w, s, o);
    case PublishRejection(o) => RejectionSameCalls(w, s, o);
    case PublishAck(o) => AckSameCalls(w, s, o);
    case PublishEnd(o) => EndSameCalls(w, s, o);
    case Open(o) => EdgeSameCalls(w, s, o);
    case PublishClose(o) => EdgeSameCalls(w, s, o);
    case LockAck(n, accept) => LockSameCalls(w, s, n, accept, Returned, []);
    case LockEnd(n, outcome, raws) => LockSameCalls(w, s, n, Link(0, ""), outcome, raws);
    case _ => OthersSameCalls(w, s, e);
  }

  // ----- The catalog names the attempts of the calls -----

  /** The catalog's BEGIN of attempt `n` carries the call's key, tool, arguments and decision. */
  ghost predicate BeginsCall(n: nat, a: Attempt, p: Payload) {
    && p.AttemptBegin? && p.attempt == n && p.key == a.key && p.tool == a.tool && p.arguments == a.arguments
    && p.decision == a.decision
  }

  ghost predicate LivesNamed(attempts: seq<Attempt>, lives: seq<Life>) {
    |lives| <= |attempts| && forall i | 0 <= i < |lives| :: BeginsCall(i + 1, attempts[i], lives[i].begin)
  }

  ghost predicate HolderNamed(s: Book) {
    s.holder.Reserved? ==> s.attempts != [] && BeginsCall(|s.attempts|, At(s, |s.attempts|), s.holder.begin)
  }

  ghost predicate Named(w: World, s: Book) {
    LivesNamed(s.attempts, Lives(w.cat, s.chain)) && HolderNamed(s)
  }

  /** The only way into a reservation is the region that makes it. */
  lemma ReservationComes(w: World, s: Book, e: Event)
    requires Next(w, s, e).holder.Reserved? && !e.Reserve?
    ensures Next(w, s, e).holder == s.holder
  {
    hide Publish, Draft, EndPayload, AllEnded, Directory, RecordPath, BeginPayload, Available, MayFailAccept, InFinish;
    hide DoStartAccept, DoFailAccept, DoCompleteAccept, DoStartFinish, DoReturnFinish, DoFailFinish, DoCompleteFinish, DoRetire;
    if IsPhaseEvent(e) {
      PhaseEventsTouch(w, s, e);
    } else if e.LockAck? {
      AcceptRegionsTouch(s, e.n);
    } else if e.LockEnd? {
      FinishRegionsTouch(s, e.n, false);
    }
  }

  lemma NextHolderNamed(w: World, s: Book, e: Event)
    requires Inv(w, s) && HolderNamed(s)
    ensures HolderNamed(Next(w, s, e))
  {
    hide Next, Inv;
    if e.Reserve? {
      ReserveNames(w, s);
    } else if Next(w, s, e).holder.Reserved? {
      NextSameCalls(w, s, e);
      ReservationComes(w, s, e);
    }
  }

  lemma ReserveNames(w: World, s: Book)
    requires Inv(w, s) && HolderNamed(s)
    ensures HolderNamed(Next(w, s, Reserve))
  {
    hide Scan, DiskFits, CountersAgree, AttemptsAgree, RejectionsAgree, SeenAgree, FlagsFit;
  }

  lemma SameNamed(before: seq<Attempt>, after: seq<Attempt>, lives: seq<Life>)
    requires LivesNamed(before, lives) && SameCalls(before, after)
    ensures LivesNamed(after, lives)
  {
  }

  lemma ToldNamed(attempts: seq<Attempt>, lives: seq<Life>, p: Payload)
    requires LivesNamed(attempts, lives)
    requires p.AttemptBegin? ==> |lives| < |attempts| && BeginsCall(|lives| + 1, attempts[|lives|], p)
    ensures LivesNamed(attempts, Told(lives, p))
  {
  }

  /** A BEGIN is due only as the reserved call's own, for the next place of the catalog. */
  lemma DueNames(w: World, s: Book)
    requires Sound(w) && Inv(w, s) && HolderNamed(s) && Due(w, s).Some? && Due(w, s).value.AttemptBegin?
    ensures var lives := Lives(w.cat, s.chain);
            |lives| + 1 == |s.attempts| && BeginsCall(|lives| + 1, s.attempts[|lives|], Due(w, s).value)
  {
    hide Scan, Lives, DiskFits, CountersAgree, RejectionsAgree, SeenAgree, FlagsFit, LifeFits, Count, Directory, RecordPath;
    ScanReflects(w.cat, s.chain);
  }

  lemma PublishedChain(w: World, s: Book, p: Payload, o: Publication)
    ensures var (t, ok) := Publish(w, s, p, o);
            && (!ok ==> t.chain == s.chain)
            && (ok ==> Draft(w, s, p).Some? && t.chain == s.chain + [Draft(w, s, p).value])
  {
    hide Draft, Room, LinkOf;
  }

  lemma NextNamed(w: World, s: Book, e: Event)
    requires Sound(w) && Inv(w, s) && Named(w, s)
    ensures Named(w, Next(w, s, e))
  {
    hide Next, Inv, Sound, Lives, LivesNamed, HolderNamed, Publish, Due, Told, SameCalls;
    var t, lives := Next(w, s, e), Lives(w.cat, s.chain);
    NextHolderNamed(w, s, e);
    NextCatalog(w, s, e);
    if e.Reserve? {
      ReserveLives(w, s, lives);
    } else {
      NextSameCalls(w, s, e);
      if !SameCatalog(s, t) {
        var p := Due(w, s).value;
        PublishedChain(w, s, p, e.o);
        if Publish(w, s, p, e.o).1 {
          LedgerBudgets.DraftTold(w, s, p);
          if p.AttemptBegin? { DueNames(w, s); }
          ToldNamed(s.attempts, lives, p);
        }
      }
      SameNamed(s.attempts, t.attempts, Lives(w.cat, t.chain));
    }
  }

  lemma ReserveLives(w: World, s: Book, lives: seq<Life>)
    requires LivesNamed(s.attempts, lives)
    ensures LivesNamed(Next(w, s, Reserve).attempts, lives) && Next(w, s, Reserve).chain == s.chain
  {
  }

  lemma {:induction false} RunNamed(w: World, events: seq<Event>)
    requires Sound(w)
    ensures Named(w, Run(w, INITIAL, events))
  {
    hide Inv, Sound, Next, Named;
    if events == [] {
      StartNamed(w);
    } else {
      var before := events[..|events| - 1];
      RunNamed(w, before);
      InitialHolds(w);
      RunKeeps(w, INITIAL, before);
      NextNamed(w, Run(w, INITIAL, before), events[|events| - 1]);
    }
  }

  lemma StartNamed(w: World)
    ensures Named(w, INITIAL)
  {
  }

  /** In every run the catalog's BEGINs carry the key, tool, arguments and decision of the ledger's attempts. */
  lemma CatalogNamesCalls(w: World, s: Book, n: nat)
    requires Sound(w) && Reachable(w, s) && 1 <= n <= |Lives(w.cat, s.chain)|
    ensures Owned(s, n) && BeginsCall(n, At(s, n), Lives(w.cat, s.chain)[n - 1].begin)
  {
    hide Lives, BeginsCall, Run;
    var events :| s == Run(w, INITIAL, events);
    RunNamed(w, events);
    assert BeginsCall((n - 1) + 1, s.attempts[n - 1], Lives(w.cat, s.chain)[n - 1].begin);
  }

  // ----- What the calls write -----

  /** `_publish` of this payload is confirmed and had room. */
  predicate Goes(w: World, s: Book, p: Payload) {
    Draft(w, s, p).Some? && Room(w, s, Draft(w, s, p).value)
  }

  lemma GoingTells(w: World, s: Book, p: Payload)
    requires Sound(w) && Goes(w, s, p)
    ensures var (t, ok) := Publish(w, s, p, Confirmed);
            && ok && Lives(w.cat, t.chain) == Told(Lives(w.cat, s.chain), p)
            && t.unknown == s.unknown && t.broken == s.broken
  {
    hide Lives, Told, Encode, LinkOf;
    LedgerBudgets.DraftTold(w, s, p);
  }

  function AckOf(w: World, s: Book, n: nat, accept: Link): Payload
    requires Owned(s, n)
  {
    AcceptAck(n, Ref(RecordPath(Directory(w.cat.h, n, At(s, n).key), 0), accept.size, accept.sha))
  }

  /** The five regions of an undisturbed `accept`. */
  function AcceptCall(w: World, s: Book, n: nat, accept: Link, o: Publication): Book {
    Next(w, Four(w, s, StartAccept(n), LockAck(n, accept), PublishAck(o), CompleteAccept(n)), Retire(n))
  }

  /** The five regions of an undisturbed `finish`. */
  function FinishCall(w: World, s: Book, n: nat, outcome: Outcome, raws: seq<Bytes>, o: Publication): Book {
    Next(w, Four(w, s, StartFinish(n), LockEnd(n, outcome, raws), PublishEnd(o), CompleteFinish(n)), Retire(n))
  }

  /** A begun NEW attempt of an available ledger nobody else holds. */
  predicate MayAccept(s: Book, n: nat) {
    Available(s) && s.holder == Free && Owned(s, n) && At(s, n).decision == New && At(s, n).phase == Begun && !At(s, n).acked
  }

  predicate MayFinish(s: Book, n: nat) {
    Available(s) && s.holder == Free && Owned(s, n) && At(s, n).decision == New && At(s, n).phase == Accepted && !At(s, n).ended
  }

  /** Publishing looks at neither the attempts nor the holder, and leaves them. */
  lemma PublishCarries(w: World, s: Book, t: Book, p: Payload, o: Publication)
    requires t == s.(attempts := t.attempts, holder := t.holder)
    ensures Publish(w, t, p, o).0 == Publish(w, s, p, o).0.(attempts := t.attempts, holder := t.holder)
    ensures Publish(w, t, p, o).1 == Publish(w, s, p, o).1
  {
    hide Draft, Room, LinkOf;
    SameDraft(w, s, t, p);
  }

  /** A confirmed `accept` of a begun NEW attempt ends ACCEPTED, and its ACK names exactly the accept record's bytes. */
  lemma AcceptRecords(w: World, s: Book, n: nat, accept: Link)
    requires Sound(w) && MayAccept(s, n) && Goes(w, s, AckOf(w, s, n, accept))
    ensures var p, t := AckOf(w, s, n, accept), AcceptCall(w, s, n, accept, Confirmed);
            && t == Publish(w, s, p, Confirmed).0.(attempts := s.attempts[n - 1 := At(s, n).(phase := Accepted, acked := true)],
                                                   accepted := s.accepted + 1)
            && Lives(w.cat, t.chain) == Told(Lives(w.cat, s.chain), p)
  {
    hide Lives, Told, Sound, Goes, Next;
    var p := AckOf(w, s, n, accept);
    var b := s.(attempts := s.attempts[n - 1 := At(s, n).(phase := Accepting)], holder := Acking(n, p.accept));
    AcceptLocks(w, s, n, accept);
    PublishFrame(w, s, p, Confirmed);
    PublishCarries(w, s, b, p, Confirmed);
    GoingTells(w, s, p);
    AcceptEnds(w, b, n, p);
  }

  lemma AcceptLocks(w: World, s: Book, n: nat, accept: Link)
    requires MayAccept(s, n)
    ensures Next(w, Next(w, s, StartAccept(n)), LockAck(n, accept))
            == s.(attempts := s.attempts[n - 1 := At(s, n).(phase := Accepting)],
                  holder := Acking(n, AckOf(w, s, n, accept).accept))
  {
    hide Directory, RecordPath;
  }

  lemma AcceptEnds(w: World, b: Book, n: nat, p: Payload)
    requires p.AcceptAck? && b.holder == Acking(n, p.accept) && p.attempt == n && Owned(b, n) && At(b, n).phase == Accepting
    requires Publish(w, b, p, Confirmed).1 && |Publish(w, b, p, Confirmed).0.attempts| == |b.attempts|
    requires Publish(w, b, p, Confirmed).0.attempts == b.attempts
    ensures var t := Publish(w, b, p, Confirmed).0;
            Next(w, Next(w, Next(w, b, PublishAck(Confirmed)), CompleteAccept(n)), Retire(n))
            == t.(attempts := b.attempts[n - 1 := At(b, n).(phase := Accepted, acked := true)],
                  accepted := t.accepted + 1, holder := Free)
  {
    hide Publish;
  }

  /** A confirmed `finish` ends ENDED and retired, and its END is the one derived from the originals. */
  lemma FinishRecords(w: World, s: Book, n: nat, outcome: Outcome, raws: seq<Bytes>)
    requires Sound(w) && MayFinish(s, n)
    requires EndPayload(w, n, At(s, n), outcome, raws).Some?
    requires Goes(w, s, EndPayload(w, n, At(s, n), outcome, raws).value)
    ensures var z, t := EndPayload(w, n, At(s, n), outcome, raws).value, FinishCall(w, s, n, outcome, raws, Confirmed);
            && t == Publish(w, s, z, Confirmed).0.(
                      attempts := s.attempts[n - 1 := At(s, n).(phase := Ended, ended := true, active := false)],
                      active := if At(s, n).active then s.active - 1 else s.active)
            && Lives(w.cat, t.chain) == Told(Lives(w.cat, s.chain), z)
  {
    hide Lives, Told, Sound, Goes, Next, EndPayload;
    var z := EndPayload(w, n, At(s, n), outcome, raws).value;
    var b := s.(attempts := s.attempts[n - 1 := At(s, n).(phase := Finishing)], holder := Ending(n, z));
    FinishLocks(w, s, n, outcome, raws);
    PublishFrame(w, s, z, Confirmed);
    PublishCarries(w, s, b, z, Confirmed);
    GoingTells(w, s, z);
    FinishEnds(w, b, n, z);
  }

  lemma FinishLocks(w: World, s: Book, n: nat, outcome: Outcome, raws: seq<Bytes>)
    requires MayFinish(s, n) && EndPayload(w, n, At(s, n), outcome, raws).Some?
    ensures Next(w, Next(w, s, StartFinish(n)), LockEnd(n, outcome, raws))
            == s.(attempts := s.attempts[n - 1 := At(s, n).(phase := Finishing)],
                  holder := Ending(n, EndPayload(w, n, At(s, n), outcome, raws).value))
  {
    hide EndPayload;
    SameEnd(w, n, At(s, n), At(s, n).(phase := Finishing), outcome, raws);
  }

  lemma SameEnd(w: World, n: nat, a: Attempt, b: Attempt, outcome: Outcome, raws: seq<Bytes>)
    requires SameCall(a, b)
    ensures EndPayload(w, n, a, outcome, raws) == EndPayload(w, n, b, outcome, raws)
  {
  }

  lemma FinishEnds(w: World, b: Book, n: nat, z: Payload)
    requires b.holder == Ending(n, z) && Owned(b, n) && At(b, n).phase == Finishing
    requires Publish(w, b, z, Confirmed).1 && Publish(w, b, z, Confirmed).0.attempts == b.attempts
    requires Publish(w, b, z, Confirmed).0.active == b.active
    ensures var t := Publish(w, b, z, Confirmed).0;
            Next(w, Next(w, Next(w, b, PublishEnd(Confirmed)), CompleteFinish(n)), Retire(n))
            == t.(attempts := b.attempts[n - 1 := At(b, n).(phase := Ended, ended := true, active := false)],
                  active := if At(b, n).active then b.active - 1 else b.active, holder := Free)
  {
    hide Publish, Next;
    var t := Publish(w, b, z, Confirmed).0;
    EndPublished(w, b, n, z);
    EndCompletes(w, t.(attempts := b.attempts[n - 1 := At(b, n).(ended := true)], holder := Free), n);
  }

  lemma EndPublished(w: World, b: Book, n: nat, z: Payload)
    requires b.holder == Ending(n, z) && Owned(b, n)
    requires Publish(w, b, z, Confirmed).1 && Publish(w, b, z, Confirmed).0.attempts == b.attempts
    ensures Next(w, b, PublishEnd(Confirmed))
            == Publish(w, b, z, Confirmed).0.(attempts := b.attempts[n - 1 := At(b, n).(ended := true)], holder := Free)
  {
    hide Publish;
  }

  lemma EndCompletes(w: World, c: Book, n: nat)
    requires Owned(c, n) && At(c, n).phase == Finishing && At(c, n).ended
    ensures Next(w, Next(w, c, CompleteFinish(n)), Retire(n))
            == c.(attempts := c.attempts[n - 1 := At(c, n).(phase := Ended, active := false)],
                  active := if At(c, n).active then c.active - 1 else c.active)
  {
    hide Next;
    var d := DoCompleteFinish(c, n);
    assert Next(w, c, CompleteFinish(n)) == d && Next(w, d, Retire(n)) == DoRetire(d, n) by { Regions(w, c, d, n); }
    if !At(c, n).active { assert At(d, n) == At(d, n).(active := false); }
  }

  lemma Regions(w: World, c: Book, d: Book, n: nat)
    ensures Next(w, c, CompleteFinish(n)) == DoCompleteFinish(c, n) && Next(w, d, Retire(n)) == DoRetire(d, n)
  {
    hide DoCompleteFinish, DoRetire;
  }

  /** A taken, confirmed `begin` writes the call itself: its number, key, tool, arguments, and the admission decision. */
  lemma BeginRecords(w: World, s: Book, key: Key, tool: string, arguments: string)
    requires Sound(w) && s.holder == Free && Takes(w, s, key, tool, arguments)
    requires Goes(w, s, BeginPayload(w, s, key, tool, arguments))
    ensures var p := BeginPayload(w, s, key, tool, arguments);
            var t := Next(w, Two(w, s, Decide(key, tool, arguments), Reserve), PublishBegin(Confirmed));
            && p.AttemptBegin? && BeginsCall(|s.attempts| + 1, t.attempts[|s.attempts|], p)
            && p.key == key && p.tool == tool && p.arguments == arguments && p.reason == Judge(w, s, key)
            && Lives(w.cat, t.chain) == Lives(w.cat, s.chain) + [Life(p, None, None)]
  {
    hide Lives, Sound, Judge, Goes, Draft, Room;
    var p := BeginPayload(w, s, key, tool, arguments);
    var b := Two(w, s, Decide(key, tool, arguments), Reserve);
    assert b.holder == Reserved(p) && b.attempts != [];
    BeginPublishes(w, s, b, p);
  }

  lemma BeginPublishes(w: World, s: Book, b: Book, p: Payload)
    requires Sound(w) && Goes(w, s, p) && p.AttemptBegin? && b.holder == Reserved(p) && b.attempts != []
    requires b.count == s.count && b.head == s.head && b.bytes == s.bytes && b.chain == s.chain
    ensures var t := Next(w, b, PublishBegin(Confirmed));
            && |t.attempts| == |b.attempts| && SameCall(At(b, |b.attempts|), At(t, |t.attempts|))
            && Lives(w.cat, t.chain) == Told(Lives(w.cat, s.chain), p)
  {
    hide Lives, Told, Sound, Encode, LinkOf;
    SameDraft(w, s, b, p);
    GoingTells(w, b, p);
    PublishFrame(w, b, p, Confirmed);
  }

  /** A confirmed close of a quiet, known ledger whose attempts all ended returns over a CLOSED_KNOWN catalog. */
  lemma CloseRecords(w: World, s: Book)
    requires Sound(w) && Inv(w, s) && s.holder == Free && !s.closed && s.active == 0 && !s.unknown && AllEnded(s)
    requires Goes(w, s, InstanceEnd(|s.attempts|, s.accepted, s.rejected))
    ensures var t := Four(w, s, StartClose, CheckClose, PublishClose(Confirmed), Cleanup(true));
            t.returned && t.closed && !t.unknown && Scan(w.cat, t.chain).Some? && Scan(w.cat, t.chain).value.ended
  {
    hide Inv, Sound, Scan, Draft, Room, Publish;
    var b := Two(w, s, StartClose, CheckClose);
    assert b == s.(closing := true, holder := Sealing);
    var p := InstanceEnd(|s.attempts|, s.accepted, s.rejected);
    TwoKeep(w, s, StartClose, CheckClose);
    SameDraft(w, s, b, p);
    EndRecordAnswers(w, b, Confirmed);
    CleanupAnswers(w, Next(w, b, PublishClose(Confirmed)), true);
    FourKeep(w, s, StartClose, CheckClose, PublishClose(Confirmed), Cleanup(true));
    KnownStays(w, b, p);
  }

  lemma KnownStays(w: World, b: Book, p: Payload)
    requires b.holder == Sealing && !b.unknown && p == InstanceEnd(|b.attempts|, b.accepted, b.rejected) && Goes(w, b, p)
    ensures !Next(w, Next(w, b, PublishClose(Confirmed)), Cleanup(true)).unknown
  {
    hide Draft, LinkOf;
  }

  /** A failed accept leaves its attempt UNKNOWN and retired, the ledger unknown, and the catalog as it was. */
  lemma AcceptFailureRecords(w: World, s: Book, n: nat)
    requires MayAccept(s, n) && At(s, n).active
    ensures Next(w, Two(w, s, StartAccept(n), FailAccept(n)), Retire(n))
            == s.(attempts := s.attempts[n - 1 := At(s, n).(phase := Unknown, active := false)], active := s.active - 1,
                  unknown := true)
  {
    hide Next;
    var a := s.(attempts := s.attempts[n - 1 := At(s, n).(phase := Accepting)]);
    var b := s.(attempts := s.attempts[n - 1 := At(s, n).(phase := Unknown)], unknown := true);
    AcceptFailureRegions(w, s, a, b, n);
  }

  lemma AcceptFailureRegions(w: World, s: Book, a: Book, b: Book, n: nat)
    requires MayAccept(s, n) && At(s, n).active
    requires a == s.(attempts := s.attempts[n - 1 := At(s, n).(phase := Accepting)])
    requires b == s.(attempts := s.attempts[n - 1 := At(s, n).(phase := Unknown)], unknown := true)
    ensures Next(w, s, StartAccept(n)) == a && Next(w, a, FailAccept(n)) == b
    ensures Next(w, b, Retire(n)) == b.(attempts := s.attempts[n - 1 := At(s, n).(phase := Unknown, active := false)],
                                        active := s.active - 1)
  {
  }

  /** A failed `finish`, whatever the reason, leaves its attempt UNKNOWN and retired. */
  function Doubted(s: Book, n: nat): Book
    requires Owned(s, n)
  {
    s.(attempts := s.attempts[n - 1 := At(s, n).(phase := Unknown, active := false)], active := s.active - 1, unknown := true)
  }

  /** Originals that do not read back as this request: the ledger is unknown, and the catalog as it was. */
  lemma FinishFailureRecords(w: World, s: Book, n: nat, outcome: Outcome, raws: seq<Bytes>, o: Publication)
    requires MayFinish(s, n) && At(s, n).active && EndPayload(w, n, At(s, n), outcome, raws) == None
    ensures FinishCall(w, s, n, outcome, raws, o) == Doubted(s, n)
  {
    hide Next, EndPayload;
    var a := s.(attempts := s.attempts[n - 1 := At(s, n).(phase := Finishing)]);
    var b := s.(attempts := s.attempts[n - 1 := At(s, n).(phase := Unknown)], unknown := true);
    FinishMisreads(w, s, a, b, n, outcome, raws);
    NothingToComplete(w, b, n, o);
    RetireDoubted(w, b, n);
  }

  lemma FinishMisreads(w: World, s: Book, a: Book, b: Book, n: nat, outcome: Outcome, raws: seq<Bytes>)
    requires MayFinish(s, n) && EndPayload(w, n, At(s, n), outcome, raws) == None
    requires a == s.(attempts := s.attempts[n - 1 := At(s, n).(phase := Finishing)])
    requires b == s.(attempts := s.attempts[n - 1 := At(s, n).(phase := Unknown)], unknown := true)
    ensures Next(w, s, StartFinish(n)) == a && Next(w, a, LockEnd(n, outcome, raws)) == b
  {
    hide EndPayload;
    SamePayload(w, n, At(s, n), At(a, n), outcome, raws);
  }

  /** The END payload depends on the call alone. */
  lemma SamePayload(w: World, n: nat, a: Attempt, b: Attempt, outcome: Outcome, raws: seq<Bytes>)
    requires a.key == b.key && a.tool == b.tool && a.arguments == b.arguments
    ensures EndPayload(w, n, a, outcome, raws) == EndPayload(w, n, b, outcome, raws)
  {
    hide Archive.Scan, Directory, RecordPath;
  }

  lemma NothingToComplete(w: World, b: Book, n: nat, o: Publication)
    requires b.holder == Free && Owned(b, n) && At(b, n).phase == Unknown
    ensures Next(w, b, PublishEnd(o)) == b && Next(w, b, CompleteFinish(n)) == b
    ensures Next(w, b, PublishAck(o)) == b && Next(w, b, CompleteAccept(n)) == b
  {
  }

  lemma RetireDoubted(w: World, b: Book, n: nat)
    requires Owned(b, n) && At(b, n).phase == Unknown && At(b, n).active && b.unknown
    ensures Next(w, b, Retire(n)) == Doubted(b, n)
  {
  }

  /** An END that is not confirmed leaves the attempt in doubt and the confirmed catalog as it was. */
  lemma UnconfirmedFinish(w: World, s: Book, n: nat, outcome: Outcome, raws: seq<Bytes>, o: Publication)
    requires MayFinish(s, n) && At(s, n).active && EndPayload(w, n, At(s, n), outcome, raws).Some? && o != Confirmed
    ensures var t := FinishCall(w, s, n, outcome, raws, o);
            t == Doubted(s, n).(broken := true, disk := t.disk)
  {
    hide Next, EndPayload, Publish;
    var z := EndPayload(w, n, At(s, n), outcome, raws).value;
    var b := s.(attempts := s.attempts[n - 1 := At(s, n).(phase := Finishing)], holder := Ending(n, z));
    FinishLocks(w, s, n, outcome, raws);
    var c := EndDoubted(w, b, n, z, o);
    NothingToComplete(w, c, n, o);
    RetireDoubted(w, c, n);
  }

  lemma PublishFails(w: World, s: Book, p: Payload, o: Publication)
    requires o != Confirmed
    ensures var (t, ok) := Publish(w, s, p, o);
            !ok && t == s.(unknown := true, broken := true, disk := t.disk)
  {
    hide Draft, Room;
  }

  lemma EndDoubted(w: World, b: Book, n: nat, z: Payload, o: Publication) returns (c: Book)
    requires b.holder == Ending(n, z) && Owned(b, n) && o != Confirmed
    ensures c == Next(w, b, PublishEnd(o))
    ensures c == b.(attempts := b.attempts[n - 1 := At(b, n).(phase := Unknown)], holder := Free, unknown := true,
                    broken := true, disk := c.disk)
  {
    hide Publish;
    c := Next(w, b, PublishEnd(o));
    PublishFails(w, b, z, o);
  }

  /** The same of an ACK that is not confirmed. */
  lemma UnconfirmedAccept(w: World, s: Book, n: nat, accept: Link, o: Publication)
    requires MayAccept(s, n) && At(s, n).active && o != Confirmed
    ensures var t := AcceptCall(w, s, n, accept, o);
            t == Doubted(s, n).(broken := true, disk := t.disk)
  {
    hide Next, Publish, Directory, RecordPath;
    var path := RecordPath(Directory(w.cat.h, n, At(s, n).key), 0);
    var b := s.(attempts := s.attempts[n - 1 := At(s, n).(phase := Accepting)], holder := Acking(n, Ref(path, accept.size, accept.sha)));
    AcceptLocks(w, s, n, accept);
    var c := AckDoubted(w, b, n, b.holder.accept, o);
    NothingToComplete(w, c, n, o);
    RetireDoubted(w, c, n);
  }

  lemma AckDoubted(w: World, b: Book, n: nat, accept: Ref, o: Publication) returns (c: Book)
    requires b.holder == Acking(n, accept) && Owned(b, n) && o != Confirmed
    ensures c == Next(w, b, PublishAck(o))
    ensures c == b.(attempts := b.attempts[n - 1 := At(b, n).(phase := Unknown)], holder := Free, unknown := true,
                    broken := true, disk := c.disk)
  {
    hide Publish;
    c := Next(w, b, PublishAck(o));
    PublishFails(w, b, AcceptAck(n, accept), o);
  }

  /** A `finish` that raises before its originals are read gives the attempt back, unless its journal was poisoned. */
  lemma FinishReturns(w: World, s: Book, n: nat, poisoned: bool)
    requires MayFinish(s, n)
    ensures Two(w, s, StartFinish(n), ReturnFinish(n, poisoned)) == s.(unknown := poisoned)
  {
    var a := s.(attempts := s.attempts[n - 1 := At(s, n).(phase := Finishing)]);
    assert Next(w, s, StartFinish(n)) == a;
    assert a.attempts[n - 1 := At(s, n)] == s.attempts;
  }

  // ----- Closing waits for active attempts -----

  ghost predicate ClosingIdle(s: Book) {
    s.closing ==> s.active <= 0
  }

  lemma NextClosingIdle(w: World, s: Book, e: Event)
    requires Inv(w, s) && ClosingIdle(s)
    ensures ClosingIdle(Next(w, s, e))
  {
    hide Scan, Publish, Draft, EndPayload, BeginPayload, AllEnded, Directory, RecordPath, DiskFits, CountersAgree,
         AttemptsAgree, RejectionsAgree, SeenAgree, HolderFits, MayFailAccept, InFinish;
    hide DoStartAccept, DoFailAccept, DoCompleteAccept, DoStartFinish, DoReturnFinish, DoFailFinish, DoCompleteFinish, DoRetire;
    if IsPhaseEvent(e) {
      PhaseEventsTouch(w, s, e);
      PhaseActive(w, s, e);
    } else if Publishes(e) {
      PublishedActive(w, s, e);
    } else if e.LockAck? {
      AcceptRegionsTouch(s, e.n);
      PhaseActive(w, s, FailAccept(e.n));
    } else if e.LockEnd? {
      FinishRegionsTouch(s, e.n, false);
      PhaseActive(w, s, FailFinish(e.n));
    }
  }

  lemma PhaseActive(w: World, s: Book, e: Event)
    requires IsPhaseEvent(e)
    ensures Next(w, s, e).active <= s.active
  {
    hide DoStartAccept, DoFailAccept, DoCompleteAccept, DoStartFinish, DoReturnFinish, DoFailFinish, DoCompleteFinish, DoRetire;
    AcceptRegionsActive(s, e.n);
    FinishRegionsActive(s, e.n, e.ReturnFinish? && e.poisoned);
  }

  lemma AcceptRegionsActive(s: Book, n: nat)
    ensures DoStartAccept(s, n).active == DoFailAccept(s, n).active == DoCompleteAccept(s, n).active == s.active
  {
    hide Available, MayFailAccept, Issued;
  }

  lemma FinishRegionsActive(s: Book, n: nat, poisoned: bool)
    ensures DoStartFinish(s, n).active == DoReturnFinish(s, n, poisoned).active == DoFailFinish(s, n).active == s.active
    ensures DoCompleteFinish(s, n).active == s.active && DoRetire(s, n).active <= s.active
  {
    hide InFinish;
  }

  lemma PublishedActive(w: World, s: Book, e: Event)
    requires Publishes(e)
    ensures Next(w, s, e).active <= s.active && Next(w, s, e).closing == s.closing
  {
    hide DoOpen, DoPublishBegin, DoPublishRejection, DoPublishAck, DoPublishEnd, DoPublishClose;
    PublishingTakesNone(w, s, e.o);
  }

  lemma {:induction false} RunClosingIdle(w: World, events: seq<Event>)
    requires Sound(w)
    ensures ClosingIdle(Run(w, INITIAL, events))
  {
    hide Inv, Sound, Next;
    if events != [] {
      var before := events[..|events| - 1];
      RunClosingIdle(w, before);
      InitialHolds(w);
      RunKeeps(w, INITIAL, before);
      NextClosingIdle(w, Run(w, INITIAL, before), events[|events| - 1]);
    }
  }

  /** In every run a close begins only with no attempt active, and none becomes active after it. */
  lemma ClosingFindsNoneActive(w: World, s: Book, i: nat)
    requires Sound(w) && Approved(w.limits) && Reachable(w, s) && s.closing && i < |s.attempts|
    ensures !s.attempts[i].active
  {
    hide Run, Inv, Sound, Approved, LedgerBudgets.Bounds, Count;
    var events :| s == Run(w, INITIAL, events);
    RunClosingIdle(w, events);
    LedgerBudgets.RunBounds(w, events);
    LedgerBudgets.TablesOf(w, s);
    NoneCounted(s.attempts, i);
  }

  lemma {:induction false} NoneCounted(xs: seq<Attempt>, i: nat)
    requires Count(xs, LedgerBudgets.IsActive) == 0 && i < |xs|
    ensures !xs[i].active
  {
    if i < |xs| - 1 { NoneCounted(xs[..|xs| - 1], i); }
  }

  // ----- UNKNOWN is sticky and stops the ledger -----

  /** An attempt in doubt makes the whole ledger unknown. */
  ghost predicate DoubtShows(s: Book) {
    forall i | 0 <= i < |s.attempts| && s.attempts[i].phase == Unknown :: s.unknown
  }

  lemma PhasesShowDoubt(w: World, s: Book, e: Event)
    requires IsPhaseEvent(e) && DoubtShows(s)
    ensures DoubtShows(Next(w, s, e)) && (s.unknown ==> Next(w, s, e).unknown)
  {
    hide Available;
  }

  lemma BeginShowsDoubt(w: World, s: Book, o: Publication)
    requires DoubtShows(s)
    ensures DoubtShows(DoPublishBegin(w, s, o)) && (s.unknown ==> DoPublishBegin(w, s, o).unknown)
    ensures DoubtShows(DoPublishRejection(w, s, o)) && (s.unknown ==> DoPublishRejection(w, s, o).unknown)
  {
    hide Publish;
    if s.holder.Reserved? { PublishDoubt(w, s, s.holder.begin, o); }
    PublishDoubt(w, s, RejectionOf(|s.attempts|), o);
  }

  lemma AnswersShowDoubt(w: World, s: Book, o: Publication)
    requires DoubtShows(s)
    ensures DoubtShows(DoPublishAck(w, s, o)) && (s.unknown ==> DoPublishAck(w, s, o).unknown)
    ensures DoubtShows(DoPublishEnd(w, s, o)) && (s.unknown ==> DoPublishEnd(w, s, o).unknown)
  {
    hide Publish;
    if s.holder.Acking? { PublishDoubt(w, s, AcceptAck(s.holder.n, s.holder.accept), o); }
    if s.holder.Ending? { PublishDoubt(w, s, s.holder.end, o); }
  }

  lemma PublishDoubt(w: World, s: Book, p: Payload, o: Publication)
    ensures var (t, ok) := Publish(w, s, p, o);
            t.attempts == s.attempts && (s.unknown ==> t.unknown) && (!ok ==> t.unknown)
  {
    hide Draft, Room;
  }

  lemma OthersShowDoubt(w: World, s: Book, e: Event)
    requires !IsPhaseEvent(e) && (Publishes(e) ==> e.Open? || e.PublishClose?) && DoubtShows(s)
    ensures DoubtShows(Next(w, s, e)) && (s.unknown ==> Next(w, s, e).unknown)
  {
    hide Publish, Draft, EndPayload, BeginPayload, AllEnded, Available, Directory, RecordPath;
    PublishDoubt(w, s, w.opening, if Publishes(e) then e.o else Lost);
    PublishDoubt(w, s, InstanceEnd(|s.attempts|, s.accepted, s.rejected), if Publishes(e) then e.o else Lost);
  }

  lemma NextShowsDoubt(w: World, s: Book, e: Event)
    requires DoubtShows(s)
    ensures DoubtShows(Next(w, s, e)) && (s.unknown ==> Next(w, s, e).unknown)
  {
    hide DoubtShows, DoPublishBegin, DoPublishRejection, DoPublishAck, DoPublishEnd;
    match e
    case PublishBegin(o) => BeginShowsDoubt(w, s, o);
    case PublishRejection(o) => BeginShowsDoubt(w, s, o);
    case PublishAck(o) => AnswersShowDoubt(w, s, o);
    case PublishEnd(o) => AnswersShowDoubt(w, s, o);
    case _ => if IsPhaseEvent(e) { PhasesShowDoubt(w, s, e); } else { OthersShowDoubt(w, s, e); }
  }

  /** In every run: unknown once is unknown for good, and any attempt in doubt makes it so. */
  lemma {:induction false} UnknownIsSticky(w: World, s: Book, events: seq<Event>)
    requires DoubtShows(s)
    ensures var t := Run(w, s, events); DoubtShows(t) && (s.unknown ==> t.unknown)
  {
    hide DoubtShows, Next;
    if events != [] {
      UnknownIsSticky(w, s, events[..|events| - 1]);
      NextShowsDoubt(w, Run(w, s, events[..|events| - 1]), events[|events| - 1]);
    }
  }

  /** Nobody is on the way to a publication. */
  predicate Idle(h: Holder) {
    h.Free? || h.Closing? || h.Cleaning?
  }

  /** An unknown ledger nobody writes to takes no attempt and no record. */
  lemma UnknownStops(w: World, s: Book, e: Event)
    requires s.unknown && Idle(s.holder)
    ensures var t := Next(w, s, e);
            t.unknown && Idle(t.holder) && t.chain == s.chain && t.disk == s.disk && |t.attempts| == |s.attempts|
  {
    hide Publish, Draft, EndPayload, BeginPayload, AllEnded, Directory, RecordPath, MayFailAccept, InFinish, SameCalls;
    hide DoStartAccept, DoFailAccept, DoCompleteAccept, DoStartFinish, DoReturnFinish, DoFailFinish, DoCompleteFinish, DoRetire;
    if !e.Reserve? { LengthStays(w, s, e); }
    if IsPhaseEvent(e) {
      PhaseEventsTouch(w, s, e);
      PhaseUnknown(w, s, e);
    } else if e.LockAck? {
      AcceptRegionsTouch(s, e.n);
      PhaseUnknown(w, s, FailAccept(e.n));
    } else if e.LockEnd? {
      FinishRegionsTouch(s, e.n, false);
      PhaseUnknown(w, s, FailFinish(e.n));
    }
  }

  lemma LengthStays(w: World, s: Book, e: Event)
    requires !e.Reserve?
    ensures |Next(w, s, e).attempts| == |s.attempts|
  {
    hide Next;
    NextSameCalls(w, s, e);
  }

  lemma PhaseUnknown(w: World, s: Book, e: Event)
    requires IsPhaseEvent(e) && s.unknown
    ensures Next(w, s, e).unknown
  {
    hide Available, Issued, MayFailAccept, InFinish;
  }

  lemma {:induction false} UnknownFreezes(w: World, s: Book, events: seq<Event>)
    requires s.unknown && Idle(s.holder)
    ensures var t := Run(w, s, events);
            t.unknown && Idle(t.holder) && t.chain == s.chain && t.disk == s.disk && |t.attempts| == |s.attempts|
  {
    hide Next;
    if events != [] {
      UnknownFreezes(w, s, events[..|events| - 1]);
      UnknownStops(w, Run(w, s, events[..|events| - 1]), events[|events| - 1]);
    }
  }

  // ----- What finish writes is what the verifiers ask for -----

  /** The ACK of an accept record with these bytes. */
  function AckFor(h: Hashing, n: nat, key: Key, raw: Bytes): Payload {
    AcceptAck(n, RefOf(h, RecordPath(Directory(h, n, key), 0), raw))
  }

  /** The END derived from read-back originals, with the BEGIN and ACK of the same call, passes the cut's request check. */
  lemma EndMeetsRequestCheck(w: World, n: nat, a: Attempt, outcome: Outcome, raws: seq<Bytes>, l: Life)
    requires Sound(w) && EndPayload(w, n, a, outcome, raws).Some? && BeginsCall(n, a, l.begin)
    requires l.end == EndPayload(w, n, a, outcome, raws) && l.ack == Some(AckFor(w.cat.h, n, a.key, raws[0]))
    ensures Cut.RequestFits(w.arc, n, l, raws)
  {
    hide Archive.Scan, Archive.Parse, Directory, RecordPath, Lossless;
    Archive.ScanMeans(w.arc, raws);
  }

  /** The cut's request check implies the snapshot's, which compares the head by size and digest. */
  lemma RequestCheckReadsBack(arc: Archive.Codec, n: nat, l: Life, raws: seq<Bytes>)
    requires Cut.RequestFits(arc, n, l, raws)
    ensures Export.ReadsBack(arc, n, l, raws)
  {
    hide Archive.Scan, Archive.Parse, Directory, RecordPath;
    Archive.ScanMeans(arc, raws);
  }

  /** The directory holds exactly these records, each with its own descriptor. */
  ghost predicate OnDisk(h: Hashing, disk: Export.Disk, directory: string, raws: seq<Bytes>) {
    forall i | 0 <= i < |raws| :: HeldAt(h, disk, RecordPath(directory, i), raws[i])
  }

  ghost predicate HeldAt(h: Hashing, disk: Export.Disk, path: string, raw: Bytes) {
    path in disk && disk[path].raw == raw && h.sha(disk[path].sd) == disk[path].identity.acl
  }

  lemma OnDiskReads(h: Hashing, disk: Export.Disk, directory: string, raws: seq<Bytes>, limit: nat)
    requires OnDisk(h, disk, directory, raws) && forall i | 0 <= i < |raws| :: |raws[i]| <= limit
    ensures Export.Readable(h, disk, directory, |raws|, limit)
    ensures Export.Raws(Export.Records(disk, directory, |raws|)) == raws
  {
    hide RecordPath;
    forall i | 0 <= i < |raws|
      ensures Export.ReadableAt(h, disk, RecordPath(directory, i), limit)
              && Export.Fetch(disk, RecordPath(directory, i)).raw == raws[i] {
      assert HeldAt(h, disk, RecordPath(directory, i), raws[i]);
    }
  }

  lemma RequestRecordsSmall(arc: Archive.Codec, raws: seq<Bytes>)
    requires Archive.Scan(arc, raws).Some?
    ensures forall i | 0 <= i < |raws| :: |raws[i]| <= arc.maxRecordBytes
  {
    hide Archive.Scan;
    Archive.ScanIsLegal(arc, raws);
    forall i | 0 <= i < |raws| ensures |raws[i]| <= arc.maxRecordBytes { assert Archive.Lawful(arc, raws, i); }
  }

  /** An ended attempt whose catalog records and originals come from its own calls is settled. */
  lemma EndedIsSettled(w: World, s: Book, disk: Export.Disk, lives: seq<Life>, n: nat, outcome: Outcome, raws: seq<Bytes>)
    requires Sound(w) && Owned(s, n) && n <= |lives| && At(s, n).phase == Ended && At(s, n).decision == New
    requires BeginsCall(n, At(s, n), lives[n - 1].begin) && EndPayload(w, n, At(s, n), outcome, raws).Some?
    requires lives[n - 1].ack == Some(AckFor(w.cat.h, n, At(s, n).key, raws[0]))
    requires lives[n - 1].end == EndPayload(w, n, At(s, n), outcome, raws)
    requires OnDisk(w.cat.h, disk, Directory(w.cat.h, n, At(s, n).key), raws)
    ensures Export.Settled(w, s, disk, lives, n)
  {
    hide Cut.RequestFits, Export.ReadsBack, Export.Readable, Export.Records, OnDisk, Archive.Scan, Directory, RecordPath;
    var l := lives[n - 1];
    EndMeetsRequestCheck(w, n, At(s, n), outcome, raws, l);
    RequestCheckReadsBack(w.arc, n, l, raws);
    EndPayloadFits(w, n, At(s, n), outcome, raws);
    RequestRecordsSmall(w.arc, raws);
    OnDiskReads(w.cat.h, disk, Directory(w.cat.h, n, At(s, n).key), raws, w.arc.maxRecordBytes);
  }

  /** A ledger nobody holds and nothing broke has every attempt in its catalog. */
  lemma CatalogIsWhole(w: World, s: Book)
    requires Inv(w, s) && Available(s) && s.holder == Free
    ensures |Lives(w.cat, s.chain)| == |s.attempts|
    ensures forall i | 0 <= i < |s.attempts| :: PhaseFits(s.attempts[i])
  {
    hide Scan, Lives, DiskFits, CountersAgree, RejectionsAgree, SeenAgree, LifeFits, Count, EntryFits, PhaseFits;
    ScanReflects(w.cat, s.chain);
  }

  /**
   * From any reachable ledger: a confirmed accept with the link of the first original and a confirmed
   * finish whose originals read back, and are on disk, leave the attempt settled for export.
   */
  lemma AcceptFinishSettles(w: World, s: Book, disk: Export.Disk, n: nat, outcome: Outcome, raws: seq<Bytes>)
    requires Sound(w) && Reachable(w, s) && MayAccept(s, n)
    requires EndPayload(w, n, At(s, n), outcome, raws).Some?
    requires Goes(w, s, AckOf(w, s, n, LinkOf(w.cat.h, raws[0])))
    requires var t := AcceptCall(w, s, n, LinkOf(w.cat.h, raws[0]), Confirmed);
             Goes(w, t, EndPayload(w, n, At(s, n), outcome, raws).value)
    requires OnDisk(w.cat.h, disk, Directory(w.cat.h, n, At(s, n).key), raws)
    ensures var t := AcceptCall(w, s, n, LinkOf(w.cat.h, raws[0]), Confirmed);
            var u := FinishCall(w, t, n, outcome, raws, Confirmed);
            Export.Settled(w, u, disk, Lives(w.cat, u.chain), n) && Available(u) && u.holder == Free
  {
    hide Inv, Sound, Reachable, Lives, EndPayload, Goes, OnDisk, AcceptCall, FinishCall, Export.Settled, Publish, PhaseFits,
         Directory, RecordPath;
    var h, a := w.cat.h, At(s, n);
    EndPayloadFits(w, n, a, outcome, raws);
    var p, z := AckOf(w, s, n, LinkOf(h, raws[0])), EndPayload(w, n, a, outcome, raws).value;
    var t := AcceptCall(w, s, n, LinkOf(h, raws[0]), Confirmed);
    ReachableHolds(w, s);
    CatalogIsWhole(w, s);
    CatalogNamesCalls(w, s, n);
    BegunIsOpen(a);
    AcceptRecords(w, s, n, LinkOf(h, raws[0]));
    GoingTells(w, s, p);
    PublishFrame(w, s, p, Confirmed);
    SameEnd(w, n, a, At(t, n), outcome, raws);
    FinishRecords(w, t, n, outcome, raws);
    GoingTells(w, t, z);
    PublishFrame(w, t, z, Confirmed);
    var u := FinishCall(w, t, n, outcome, raws, Confirmed);
    SameEnd(w, n, a, At(u, n), outcome, raws);
    EndedIsSettled(w, u, disk, Lives(w.cat, u.chain), n, outcome, raws);
  }

  lemma BegunIsOpen(a: Attempt)
    requires PhaseFits(a) && a.phase == Begun && a.decision == New
    ensures !a.ended && !a.acked
  {
  }

  /** A refused attempt that ended is settled by its catalog records alone. */
  lemma RefusedIsSettled(w: World, s: Book, disk: Export.Disk, n: nat)
    requires Sound(w) && Reachable(w, s) && Available(s) && s.holder == Free
    requires Owned(s, n) && At(s, n).decision == Rejected && At(s, n).phase == Ended
    ensures Export.Settled(w, s, disk, Lives(w.cat, s.chain), n)
  {
    hide Scan, Reachable, Lives, Directory, RecordPath, DiskFits, CountersAgree, RejectionsAgree, SeenAgree, HolderFits,
         Export.Readable, Export.ReadsBack;
    ReachableHolds(w, s);
    CatalogIsWhole(w, s);
    CatalogNamesCalls(w, s, n);
    EntryReflects(w.cat, s.chain, n);
    var v := Scan(w.cat, s.chain).value;
    assert EntryFits(w, (n - 1) + 1, s.attempts[n - 1], v.attempts[n - 1]) && PhaseFits(s.attempts[n - 1]);
  }

  lemma CatalogRecordsSmall(c: Codec, raws: seq<Bytes>)
    requires Scan(c, raws).Some?
    ensures forall i | 0 <= i < |raws| :: |raws[i]| <= c.maxRecordBytes
  {
    hide Scan;
    forall i | 0 <= i < |raws| ensures |raws[i]| <= c.maxRecordBytes {
      if i + 1 < |raws| { ScanPrefix(c, raws, i + 1); }
      assert i + 1 == |raws| ==> raws[..i + 1] == raws;
      LastRecord(c, raws[..i + 1]);
    }
  }

  /**
   * The snapshot is issued: an available ledger nobody holds, whose confirmed catalog is on disk and
   * whose attempts of the session are all settled, issues the session's prefix.
   */
  lemma SettledSessionIssues(w: World, s: Book, disk: Export.Disk, session: string)
    requires Sound(w) && Reachable(w, s) && Available(s) && s.holder == Free && s.chain != [] && session != ""
    requires OnDisk(w.cat.h, disk, "c", s.chain)
    requires forall i | 0 <= i < |s.attempts| && s.attempts[i].key.session == session ::
               Export.Settled(w, s, disk, Lives(w.cat, s.chain), i + 1)
    ensures Export.TakePrefix(w, s, disk, session).Some?
  {
    hide Scan, Reachable, Lives, OnDisk, Export.Settled, Export.Readable, Export.Records, Cut.Own, Inv, Sound;
    ReachableHolds(w, s);
    EveryRunVerifies(w, s);
    CatalogIsWhole(w, s);
    CatalogRecordsSmall(w.cat, s.chain);
    OnDiskReads(w.cat.h, disk, "c", s.chain, w.cat.maxRecordBytes);
    LastRecord(w.cat, s.chain);
    var lives := Lives(w.cat, s.chain);
    var own := Cut.Own(lives, session);
    forall i | 0 <= i < |own|
      ensures Owned(s, own[i]) && At(s, own[i]).key.session == session && Export.Settled(w, s, disk, lives, own[i]) {
      Cut.OwnIsSession(lives, session, own[i]);
      CatalogNamesCalls(w, s, own[i]);
      assert Export.Settled(w, s, disk, lives, (own[i] - 1) + 1);
    }
    forall i | 0 <= i < |s.attempts| && s.attempts[i].key.session == session ensures i + 1 in own {
      CatalogNamesCalls(w, s, i + 1);
      Cut.OwnIsSession(lives, session, i + 1);
    }
  }

  // ----- The byte reserve holds under any configuration -----

  /** Admitted requests reserve no more than the archive total leaves beside the catalog and the records in flight. */
  ghost predicate ReserveHolds(w: World, s: Book) {
    var l := w.limits;
    var fixed := CatalogReserve(l) + PendingReserve(l);
    && (s.reserve == 0 || s.reserve + fixed <= l.maxTotalArchiveBytes)
    && (s.holder.Decided? && s.holder.begin.AttemptBegin? && s.holder.begin.decision == New ==>
          s.reserve + l.request.maxTotalBytes + fixed <= l.maxTotalArchiveBytes)
  }

  lemma DecisionReserves(w: World, s: Book, key: Key, tool: string, arguments: string)
    requires ReserveHolds(w, s)
    ensures ReserveHolds(w, DoDecide(w, s, key, tool, arguments)) && ReserveHolds(w, DoReserve(w, s))
  {
    hide Draft, CatalogReserve, PendingReserve, Available;
  }

  /** Reserve and closing stay, no attempt becomes active, and no decision is newly held. */
  ghost predicate TakesNone(s: Book, t: Book) {
    t.reserve == s.reserve && t.closing == s.closing && t.active <= s.active && (t.holder.Decided? ==> t.holder == s.holder)
  }

  lemma BeginTakesNone(w: World, s: Book, o: Publication)
    ensures TakesNone(s, DoPublishBegin(w, s, o))
  {
    hide Publish, Drop;
    if s.holder.Reserved? && s.attempts != [] {
      PublishFrame(w, s, s.holder.begin, o);
      DropTouches(Publish(w, s, s.holder.begin, o).0.(holder := Free));
    }
  }

  lemma RejectionTakesNone(w: World, s: Book, o: Publication)
    ensures TakesNone(s, DoPublishRejection(w, s, o))
  {
    hide Publish, Drop;
    if s.holder == Rejecting && s.attempts != [] {
      PublishFrame(w, s, RejectionOf(|s.attempts|), o);
      DropTouches(Publish(w, s, RejectionOf(|s.attempts|), o).0.(holder := Free));
    }
  }

  lemma AckTakesNone(w: World, s: Book, o: Publication)
    ensures TakesNone(s, DoPublishAck(w, s, o))
  {
    hide Publish;
    if s.holder.Acking? { PublishFrame(w, s, AcceptAck(s.holder.n, s.holder.accept), o); }
  }

  lemma EndTakesNone(w: World, s: Book, o: Publication)
    ensures TakesNone(s, DoPublishEnd(w, s, o))
  {
    hide Publish;
    if s.holder.Ending? { PublishFrame(w, s, s.holder.end, o); }
  }

  lemma EdgesTakeNone(w: World, s: Book, o: Publication)
    ensures TakesNone(s, DoOpen(w, s, o)) && TakesNone(s, DoPublishClose(w, s, o))
  {
    hide Publish;
    PublishFrame(w, s, w.opening, o);
    PublishFrame(w, s, InstanceEnd(|s.attempts|, s.accepted, s.rejected), o);
  }

  /** Whatever is published, and however it is answered. */
  lemma PublishingTakesNone(w: World, s: Book, o: Publication)
    ensures TakesNone(s, DoOpen(w, s, o)) && TakesNone(s, DoPublishBegin(w, s, o)) && TakesNone(s, DoPublishRejection(w, s, o))
    ensures TakesNone(s, DoPublishAck(w, s, o)) && TakesNone(s, DoPublishEnd(w, s, o)) && TakesNone(s, DoPublishClose(w, s, o))
  {
    hide TakesNone, DoOpen, DoPublishBegin, DoPublishRejection, DoPublishAck, DoPublishEnd, DoPublishClose;
    BeginTakesNone(w, s, o);
    RejectionTakesNone(w, s, o);
    AckTakesNone(w, s, o);
    EndTakesNone(w, s, o);
    EdgesTakeNone(w, s, o);
  }

  lemma PublishedReserve(w: World, s: Book, e: Event)
    requires ReserveHolds(w, s) && Publishes(e)
    ensures ReserveHolds(w, Next(w, s, e))
  {
    hide CatalogReserve, PendingReserve;
    hide DoOpen, DoPublishBegin, DoPublishRejection, DoPublishAck, DoPublishEnd, DoPublishClose;
    PublishingTakesNone(w, s, e.o);
  }

  lemma NextReserves(w: World, s: Book, e: Event)
    requires ReserveHolds(w, s)
    ensures ReserveHolds(w, Next(w, s, e))
  {
    hide CatalogReserve, PendingReserve, DoDecide, DoReserve, EndPayload, AllEnded, Available, Directory, RecordPath;
    hide DoOpen, DoPublishBegin, DoPublishRejection, DoPublishAck, DoPublishEnd, DoPublishClose, MayFailAccept, InFinish;
    hide DoStartAccept, DoFailAccept, DoCompleteAccept, DoStartFinish, DoReturnFinish, DoFailFinish, DoCompleteFinish, DoRetire;
    if IsPhaseEvent(e) {
      PhaseEventsTouch(w, s, e);
    } else if Publishes(e) {
      PublishedReserve(w, s, e);
    } else {
      match e
      case Decide(key, tool, arguments) => DecisionReserves(w, s, key, tool, arguments);
      case Reserve => DecisionReserves(w, s, Key("", "", IntegerId(0)), "", "");
      case LockAck(n, _) => AcceptRegionsTouch(s, n);
      case LockEnd(n, _, _) => FinishRegionsTouch(s, n, false);
      case _ =>
    }
  }

  /** In every run of any configuration, approved or not, the BYTE_LIMIT refusal keeps the reserve within the total. */
  lemma {:induction false} RunReserves(w: World, events: seq<Event>)
    ensures ReserveHolds(w, Run(w, INITIAL, events))
  {
    hide ReserveHolds, Next;
    if events == [] {
      StartReserves(w);
    } else {
      RunReserves(w, events[..|events| - 1]);
      NextReserves(w, Run(w, INITIAL, events[..|events| - 1]), events[|events| - 1]);
    }
  }

  lemma StartReserves(w: World)
    ensures ReserveHolds(w, INITIAL)
  {
  }
}
