/** What every interleaving of ledger calls keeps: the confirmed catalog is one the verifier accepts. */
module LedgerProofs {

  import opened Base
  import opened Names
  import opened Catalog
  import opened Ledger
  import Archive

  // ----- The invariant -----

  ghost predicate CountersAgree(w: World, s: Book, v: State) {
    && v.count == s.count && v.total == s.bytes && v.head == s.head && v.accepted == s.accepted
    && (v.instance == None || v.instance == Some(w.instance))
  }

  /** What an attempt's phase says about its records. */
  ghost predicate PhaseFits(a: Attempt) {
    if a.decision == Rejected then
      !a.acked && !a.active && a.phase in {Begun, Ended} && (a.ended <==> a.phase == Ended)
    else
      && (a.phase == Begun ==> !a.acked)
      && (a.phase in {Accepted, Finishing, Ended} ==> a.acked)
      && (a.ended ==> a.phase in {Finishing, Ended})
      && (a.phase == Ended ==> a.ended)
  }

  ghost predicate EntryFits(w: World, n: nat, a: Attempt, e: Entry) {
    a.begun && e == Entry(a.decision, Directory(w.cat.h, n, a.key), a.acked, a.ended)
  }

  /** The verifier's table is the ledger's, but for a begin that is reserved and not yet confirmed. */
  ghost predicate AttemptsAgree(w: World, s: Book, v: State) {
    && |v.attempts| <= |s.attempts| <= |v.attempts| + 1
    && (forall i | 0 <= i < |s.attempts| :: PhaseFits(s.attempts[i]))
    && (forall i | 0 <= i < |v.attempts| :: EntryFits(w, i + 1, s.attempts[i], v.attempts[i]))
    && (|v.attempts| < |s.attempts| ==>
          (s.holder.Reserved? || s.broken) && At(s, |s.attempts|).phase == Begun && !At(s, |s.attempts|).begun)
  }

  /** The last attempt is a rejection whose END is not confirmed. */
  ghost predicate PendingRejection(s: Book, v: State) {
    && s.attempts != [] && |v.attempts| == |s.attempts|
    && At(s, |s.attempts|).decision == Rejected && !At(s, |s.attempts|).ended
  }

  ghost predicate RejectionsAgree(s: Book, v: State) {
    && v.rejected == s.rejected + (if PendingRejection(s, v) then 1 else 0)
    && (PendingRejection(s, v) ==> s.holder == Rejecting || s.broken)
  }

  ghost predicate SeenAgree(w: World, s: Book, v: State) {
    && (s.holder.Reserved? && s.holder.begin.AttemptBegin? ==>
          s.seen == v.seen + {w.cat.h.keyBytes(s.holder.begin.key)})
    && (!s.holder.Reserved? && !s.broken ==> s.seen == v.seen)
  }

  /** The stored records are the confirmed ones, or those and the one whose publication failed. */
  ghost predicate DiskFits(w: World, s: Book) {
    || s.disk == s.chain
    || (s.broken && exists raw :: s.disk == s.chain + [raw] && Scan(w.cat, s.chain + [raw]).Some?)
  }

  ghost predicate Writes(h: Holder) {
    !h.Free? && !h.Closing? && !h.Cleaning?
  }

  ghost predicate FlagsFit(s: Book, v: State) {
    && (s.broken ==> s.unknown && !Writes(s.holder))
    && (Writes(s.holder) && !s.holder.Sealing? ==> !s.closed && !s.closing)
    && (s.holder.Closing? || s.holder.Sealing? ==> s.closing && !s.closed)
    && (s.holder.Cleaning? ==> s.closing && s.closed && (s.holder.known <==> v.ended))
    && (s.holder.Free? && s.closing ==> s.closed)
    && (v.ended ==> s.closed && s.closing && |v.attempts| == |s.attempts| && AllEnded(s))
    && (s.returned ==> v.ended)
    && (s.closed && !s.unknown ==> v.ended)
    && (s.chain == [] ==> s.attempts == [] && (s.holder == Opening || s.closed))
    && (s.holder == Opening ==> s.chain == [] && s.disk == [])
  }

  ghost predicate HolderFits(w: World, s: Book, v: State) {
    match s.holder
    case Decided(p) =>
      && p.AttemptBegin? && p.attempt == |s.attempts| + 1 && |v.attempts| == |s.attempts| < w.limits.maxAttempts
      && (p.decision == New <==> p.reason == NoReason)
      && (p.reason == Duplicate <==> w.cat.h.keyBytes(p.key) in s.seen)
      && (p.decision == New ==> s.active < w.limits.maxActive)
      && |w.cat.h.keyBytes(p.key)| <= w.limits.maxKeyBytes
    case Reserved(p) =>
      && p.AttemptBegin? && p.attempt == |s.attempts| == |v.attempts| + 1
      && At(s, |s.attempts|).key == p.key && At(s, |s.attempts|).decision == p.decision
      && (p.decision == New <==> p.reason == NoReason)
      && (p.reason == Duplicate <==> w.cat.h.keyBytes(p.key) in v.seen)
    case Rejecting => PendingRejection(s, v)
    case Acking(n, accept) =>
      && Owned(s, n) && At(s, n).phase == Accepting && At(s, n).decision == New && !At(s, n).acked && !At(s, n).ended
      && accept.path == RecordPath(Directory(w.cat.h, n, At(s, n).key), 0)
    case Ending(n, p) =>
      && Owned(s, n) && At(s, n).phase == Finishing && At(s, n).decision == New && At(s, n).acked && !At(s, n).ended
      && p.AttemptEnd? && p.attempt == n && p.disposition != Refused && p.head.Some? && p.records > 0
      && p.head.value.path == RecordPath(Directory(w.cat.h, n, At(s, n).key), p.records - 1)
      && p.bytes <= w.limits.request.maxTotalBytes
    case Sealing => AllEnded(s)
    case _ => true
  }

  ghost predicate Good(w: World, s: Book, v: State) {
    && CountersAgree(w, s, v)
    && AttemptsAgree(w, s, v)
    && RejectionsAgree(s, v)
    && SeenAgree(w, s, v)
    && FlagsFit(s, v)
    && HolderFits(w, s, v)
  }

  ghost predicate Inv(w: World, s: Book) {
    Scan(w.cat, s.chain).Some? && DiskFits(w, s) && Good(w, s, Scan(w.cat, s.chain).value)
  }

  // ----- Publication -----

  function Advanced(w: World, s: Book, v: State, p: Payload, raw: Bytes): Option<State> {
    match StepPayload(w.cat, v, p)
    case None => None
    case Some(t) => Some(t.(head := Some(LinkOf(w.cat.h, raw)), instance := Some(w.instance),
                            total := s.bytes + |raw|, count := s.count + 1))
  }

  /** `_publish` touches the catalog and the flags, nothing else. */
  lemma PublishFrame(w: World, s: Book, p: Payload, o: Publication)
    ensures var t := Publish(w, s, p, o).0;
            t == s.(unknown := t.unknown, broken := t.broken, chain := t.chain, disk := t.disk, head := t.head,
                    count := t.count, bytes := t.bytes)
  {
    hide Draft, Room;
  }

  /** A payload the verifier's step takes keeps chain and disk acceptable, however the publisher answers. */
  lemma PublishExtends(w: World, s: Book, v: State, p: Payload, o: Publication)
    requires Sound(w) && Scan(w.cat, s.chain) == Some(v) && CountersAgree(w, s, v) && !v.ended
    requires s.disk == s.chain && StepPayload(w.cat, v, p).Some?
    ensures var (t, ok) := Publish(w, s, p, o);
            && DiskFits(w, t)
            && (ok ==>
                  && Draft(w, s, p).Some? && t.chain != [] && t.disk == t.chain && t.broken == s.broken && t.unknown == s.unknown
                  && Scan(w.cat, t.chain) == Advanced(w, s, v, p, Draft(w, s, p).value))
            && (ok ==> t.head == Some(LinkOf(w.cat.h, Draft(w, s, p).value)) && t.count == s.count + 1
                       && t.bytes == s.bytes + |Draft(w, s, p).value|)
            && (!ok ==> t.chain == s.chain && t.broken && t.unknown
                        && t.head == s.head && t.count == s.count && t.bytes == s.bytes)
  {
    hide StepPayload, Scan, Step, Advanced;
    var draft := Draft(w, s, p);
    if draft.Some? && Room(w, s, draft.value) {
      DraftSteps(w, s, v, p);
      ScanSnoc(w.cat, s.chain, v, draft.value);
    }
  }

  /** The verifier takes the draft of any payload its step takes. */
  lemma DraftSteps(w: World, s: Book, v: State, p: Payload)
    requires Sound(w) && CountersAgree(w, s, v) && !v.ended && StepPayload(w.cat, v, p).Some?
    requires Draft(w, s, p).Some? && Room(w, s, Draft(w, s, p).value)
    ensures Step(w.cat, v, Draft(w, s, p).value).Some?
    ensures Step(w.cat, v, Draft(w, s, p).value) == Advanced(w, s, v, p, Draft(w, s, p).value)
  {
    hide StepPayload, Parse, WellFormed;
    EncodeParses(w.cat, Record(s.count, s.head, w.instance, p));
  }

  // ----- What a region may touch -----

  /** The catalog, confirmed and stored, with its counters and whether a publication failed. */
  ghost predicate SameCatalog(s: Book, t: Book) {
    && t.chain == s.chain && t.disk == s.disk && t.head == s.head && t.count == s.count && t.bytes == s.bytes
    && t.broken == s.broken
  }

  /** Only attempts, the active count and the sticky flag move. */
  ghost predicate OnlyAttempts(s: Book, t: Book) {
    t == s.(attempts := t.attempts, unknown := t.unknown, active := t.active)
  }

  lemma AcceptRegionsTouch(s: Book, n: nat)
    ensures OnlyAttempts(s, DoStartAccept(s, n)) && OnlyAttempts(s, DoFailAccept(s, n))
    ensures OnlyAttempts(s, DoCompleteAccept(s, n))
  {
    hide Available, MayFailAccept, Issued;
  }

  lemma FinishRegionsTouch(s: Book, n: nat, poisoned: bool)
    ensures OnlyAttempts(s, DoStartFinish(s, n)) && OnlyAttempts(s, DoReturnFinish(s, n, poisoned))
    ensures OnlyAttempts(s, DoFailFinish(s, n)) && OnlyAttempts(s, DoCompleteFinish(s, n))
    ensures OnlyAttempts(s, DoRetire(s, n))
  {
    hide InFinish;
  }

  predicate IsPhaseEvent(e: Event) {
    || e.StartAccept? || e.FailAccept? || e.CompleteAccept? || e.StartFinish? || e.ReturnFinish? || e.FailFinish?
    || e.CompleteFinish? || e.Retire?
  }

  lemma PhaseEventsTouch(w: World, s: Book, e: Event)
    requires IsPhaseEvent(e)
    ensures OnlyAttempts(s, Next(w, s, e))
  {
    hide OnlyAttempts, DoStartAccept, DoFailAccept, DoCompleteAccept, DoStartFinish, DoReturnFinish, DoFailFinish;
    hide DoCompleteFinish, DoRetire;
    AcceptRegionsTouch(s, e.n);
    FinishRegionsTouch(s, e.n, e.ReturnFinish? && e.poisoned);
  }

  predicate Publishes(e: Event) {
    e.Open? || e.PublishBegin? || e.PublishRejection? || e.PublishAck? || e.PublishEnd? || e.PublishClose?
  }

  /** The payload the call that holds the catalog is about to publish. */
  function Due(w: World, s: Book): Option<Payload> {
    match s.holder
    case Opening => Some(w.opening)
    case Reserved(p) => Some(p)
    case Rejecting => Some(RejectionOf(|s.attempts|))
    case Acking(n, accept) => Some(AcceptAck(n, accept))
    case Ending(_, p) => Some(p)
    case Sealing => Some(InstanceEnd(|s.attempts|, s.accepted, s.rejected))
    case _ => None
  }

  /** The catalog moves only where the holder publishes what is due. */
  ghost predicate CatalogMoves(w: World, s: Book, e: Event, t: Book) {
    || SameCatalog(s, t)
    || (Publishes(e) && Due(w, s).Some? && SameCatalog(Publish(w, s, Due(w, s).value, e.o).0, t))
  }

  lemma DropTouches(s: Book)
    requires s.attempts != []
    ensures OnlyAttempts(s, Drop(s)) && Drop(s).active <= s.active
  {
  }

  lemma BeginMoves(w: World, s: Book, o: Publication)
    ensures CatalogMoves(w, s, PublishBegin(o), DoPublishBegin(w, s, o))
  {
    hide Publish, Drop;
    if s.holder.Reserved? && s.attempts != [] {
      PublishFrame(w, s, s.holder.begin, o);
      DropTouches(Publish(w, s, s.holder.begin, o).0.(holder := Free));
    }
  }

  lemma RejectionMoves(w: World, s: Book, o: Publication)
    ensures CatalogMoves(w, s, PublishRejection(o), DoPublishRejection(w, s, o))
  {
    hide Publish, Drop;
    if s.holder == Rejecting && s.attempts != [] {
      PublishFrame(w, s, RejectionOf(|s.attempts|), o);
      DropTouches(Publish(w, s, RejectionOf(|s.attempts|), o).0.(holder := Free));
    }
  }

  lemma AnswerMoves(w: World, s: Book, o: Publication)
    ensures CatalogMoves(w, s, PublishAck(o), DoPublishAck(w, s, o))
    ensures CatalogMoves(w, s, PublishEnd(o), DoPublishEnd(w, s, o))
  {
    hide Publish;
  }

  lemma EdgeMoves(w: World, s: Book, o: Publication)
    ensures CatalogMoves(w, s, Open(o), DoOpen(w, s, o))
    ensures CatalogMoves(w, s, PublishClose(o), DoPublishClose(w, s, o))
  {
    hide Publish;
  }

  lemma LockMoves(w: World, s: Book, n: nat, accept: Link, outcome: Outcome, raws: seq<Bytes>)
    ensures SameCatalog(s, DoLockAck(w, s, n, accept)) && SameCatalog(s, DoLockEnd(w, s, n, outcome, raws))
  {
    hide EndPayload, Directory, RecordPath, Available, MayFailAccept, InFinish, DoFailAccept, DoFailFinish;
    AcceptRegionsTouch(s, n);
    FinishRegionsTouch(s, n, false);
  }

  lemma OtherMoves(w: World, s: Book, e: Event)
    requires !IsPhaseEvent(e) && !Publishes(e) && !e.LockAck? && !e.LockEnd?
    ensures SameCatalog(s, Next(w, s, e))
  {
    hide Draft, BeginPayload, AllEnded, Available;
  }

  lemma NextCatalog(w: World, s: Book, e: Event)
    ensures CatalogMoves(w, s, e, Next(w, s, e))
  {
    hide Publish, DoOpen, DoPublishBegin, DoPublishRejection, DoPublishAck, DoPublishEnd, DoPublishClose, DoLockAck, DoLockEnd;
    hide Due;
    if IsPhaseEvent(e) {
      PhaseEventsTouch(w, s, e);
    } else {
      match e
      case Open(o) => EdgeMoves(w, s, o);
      case PublishBegin(o) => BeginMoves(w, s, o);
      case PublishRejection(o) => RejectionMoves(w, s, o);
      case PublishAck(o) => AnswerMoves(w, s, o);
      case PublishEnd(o) => AnswerMoves(w, s, o);
      case PublishClose(o) => EdgeMoves(w, s, o);
      case LockAck(n, accept) => LockMoves(w, s, n, accept, Returned, []);
      case LockEnd(n, outcome, raws) => LockMoves(w, s, n, Link(0, ""), outcome, raws);
      case _ => OtherMoves(w, s, e);
    }
  }

  // ----- Regions that publish nothing -----

  /** What a phase change of attempt `n` must respect. */
  ghost predicate PhaseMoves(w: World, s: Book, v: State, n: nat, a: Attempt, t: Book) {
    && Owned(s, n) && a.key == At(s, n).key && a.decision == At(s, n).decision
    && a.begun == At(s, n).begun && a.acked == At(s, n).acked && a.ended == At(s, n).ended && PhaseFits(a)
    && t == Set(s, n, a).(unknown := t.unknown, active := t.active) && (s.unknown ==> t.unknown)
    && (n > |v.attempts| ==> a.phase == Begun)
    && ((s.holder.Acking? || s.holder.Ending?) && s.holder.n == n ==> a.phase == At(s, n).phase)
    && (s.holder.Sealing? || At(s, n).phase == Ended ==> a.phase == Ended)
    && (s.holder.Decided? ==> t.active <= s.active)
  }

  lemma PhaseKeepsTables(w: World, s: Book, v: State, n: nat, a: Attempt, t: Book)
    requires Good(w, s, v) && PhaseMoves(w, s, v, n, a, t)
    ensures CountersAgree(w, t, v) && AttemptsAgree(w, t, v) && RejectionsAgree(t, v) && SeenAgree(w, t, v)
  {
    hide Directory, RecordPath, HolderFits, FlagsFit;
  }

  lemma PhaseKeepsHolder(w: World, s: Book, v: State, n: nat, a: Attempt, t: Book)
    requires Good(w, s, v) && PhaseMoves(w, s, v, n, a, t)
    ensures FlagsFit(t, v) && HolderFits(w, t, v)
  {
    hide Directory, RecordPath, CountersAgree, AttemptsAgree, SeenAgree, RejectionsAgree;
  }

  /** Moving one attempt to another phase keeps the invariant if the new phase tells the same records. */
  lemma PhaseKeeps(w: World, s: Book, n: nat, a: Attempt, t: Book)
    requires Inv(w, s) && PhaseMoves(w, s, Scan(w.cat, s.chain).value, n, a, t)
    ensures Inv(w, t)
  {
    hide Scan, DiskFits, CountersAgree, AttemptsAgree, RejectionsAgree, SeenAgree, FlagsFit, HolderFits, PhaseFits;
    SameDisk(w, s, t);
    PhaseKeepsTables(w, s, Scan(w.cat, s.chain).value, n, a, t);
    PhaseKeepsHolder(w, s, Scan(w.cat, s.chain).value, n, a, t);
  }

  lemma RetireKeeps(w: World, s: Book, n: nat)
    requires Inv(w, s)
    ensures Inv(w, DoRetire(s, n))
  {
    hide Scan, Directory, RecordPath, DiskFits, SeenAgree, RejectionsAgree, CountersAgree, FlagsFit;
    if DoRetire(s, n) != s {
      assert PhaseFits(At(s, n));
      PhaseKeeps(w, s, n, At(s, n).(active := false), DoRetire(s, n));
    }
  }

  lemma AcceptPhasesKeep(w: World, s: Book, n: nat)
    requires Inv(w, s)
    ensures Inv(w, DoStartAccept(s, n)) && Inv(w, DoFailAccept(s, n)) && Inv(w, DoCompleteAccept(s, n))
  {
    hide Scan, Directory, RecordPath, DiskFits, SeenAgree, RejectionsAgree, CountersAgree;
    if Owned(s, n) {
      var a := At(s, n);
      assert PhaseFits(a);
      if DoStartAccept(s, n) != s { PhaseKeeps(w, s, n, a.(phase := Accepting), DoStartAccept(s, n)); }
      if DoFailAccept(s, n) != s { PhaseKeeps(w, s, n, a.(phase := Unknown), DoFailAccept(s, n)); }
      if DoCompleteAccept(s, n) != s { PhaseKeeps(w, s, n, a.(phase := Accepted), DoCompleteAccept(s, n)); }
    }
  }

  lemma FinishEdgesKeep(w: World, s: Book, n: nat)
    requires Inv(w, s)
    ensures Inv(w, DoStartFinish(s, n)) && Inv(w, DoCompleteFinish(s, n))
  {
    hide Scan, Directory, RecordPath, DiskFits, SeenAgree, RejectionsAgree, CountersAgree;
    if Owned(s, n) {
      var a := At(s, n);
      assert PhaseFits(a);
      if DoStartFinish(s, n) != s { PhaseKeeps(w, s, n, a.(phase := Finishing), DoStartFinish(s, n)); }
      if DoCompleteFinish(s, n) != s { PhaseKeeps(w, s, n, a.(phase := Ended), DoCompleteFinish(s, n)); }
    }
  }

  lemma FinishAnswersKeep(w: World, s: Book, n: nat, poisoned: bool)
    requires Inv(w, s)
    ensures Inv(w, DoReturnFinish(s, n, poisoned)) && Inv(w, DoFailFinish(s, n))
  {
    hide Scan, Directory, RecordPath, DiskFits, SeenAgree, RejectionsAgree, CountersAgree;
    if InFinish(s, n) {
      var a := At(s, n);
      assert PhaseFits(a);
      PhaseKeeps(w, s, n, a.(phase := Accepted), DoReturnFinish(s, n, poisoned));
      PhaseKeeps(w, s, n, a.(phase := Unknown), DoFailFinish(s, n));
    }
  }

  lemma FinishPhasesKeep(w: World, s: Book, n: nat, poisoned: bool)
    requires Inv(w, s)
    ensures Inv(w, DoStartFinish(s, n)) && Inv(w, DoReturnFinish(s, n, poisoned)) && Inv(w, DoFailFinish(s, n))
    ensures Inv(w, DoCompleteFinish(s, n))
  {
    hide Inv, DoStartFinish, DoReturnFinish, DoFailFinish, DoCompleteFinish;
    FinishEdgesKeep(w, s, n);
    FinishAnswersKeep(w, s, n, poisoned);
  }

  lemma DecideKeeps(w: World, s: Book, key: Key, tool: string, arguments: string)
    requires Inv(w, s)
    ensures Inv(w, DoDecide(w, s, key, tool, arguments))
  {
    hide Scan, Directory, RecordPath;
  }

  lemma ReserveKeeps(w: World, s: Book)
    requires Inv(w, s)
    ensures Inv(w, DoReserve(w, s))
  {
    hide Scan, Directory, RecordPath;
  }

  lemma LockAckKeeps(w: World, s: Book, n: nat, accept: Link)
    requires Inv(w, s)
    ensures Inv(w, DoLockAck(w, s, n, accept))
  {
    hide Scan, Directory, RecordPath;
    AcceptPhasesKeep(w, s, n);
    if Owned(s, n) { assert PhaseFits(At(s, n)); }
  }

  /** A read-back chain that passes the checks of `finish` yields an END the verifier will take. */
  lemma EndPayloadFits(w: World, n: nat, a: Attempt, outcome: Outcome, raws: seq<Bytes>)
    requires Sound(w) && EndPayload(w, n, a, outcome, raws).Some?
    ensures var p := EndPayload(w, n, a, outcome, raws).value;
            && p.AttemptEnd? && p.attempt == n && p.disposition != Refused && p.head.Some? && p.records > 0
            && p.head.value.path == RecordPath(Directory(w.cat.h, n, a.key), p.records - 1)
            && p.records == |raws| == p.events + 2
            && p.bytes == Archive.TotalBytes(raws) <= w.limits.request.maxTotalBytes
            && LinkOfRef(p.head.value) == LinkOf(w.cat.h, raws[|raws| - 1])
            && Archive.Parse(w.arc, raws[0]).Some? && Archive.Parse(w.arc, raws[|raws| - 1]).Some?
            && Archive.Parse(w.arc, raws[0]).value.payload == Archive.Accept(a.key, a.tool, a.arguments, n)
            && Archive.Parse(w.arc, raws[|raws| - 1]).value.payload
               == Archive.Seal(outcome, if p.disposition == Complete then Archive.Complete else Archive.Failed, p.events)
            && p.outcome == Some(outcome)
  {
    hide Directory, RecordPath, Archive.Parse;
    Archive.ScanMeans(w.arc, raws);
  }

  lemma LockEndKeeps(w: World, s: Book, n: nat, outcome: Outcome, raws: seq<Bytes>)
    requires Sound(w) && Inv(w, s)
    ensures Inv(w, DoLockEnd(w, s, n, outcome, raws))
  {
    hide Scan, Directory, RecordPath, EndPayload;
    if s.holder == Free && InFinish(s, n) {
      if Available(s) && EndPayload(w, n, At(s, n), outcome, raws).Some? {
        assert PhaseFits(At(s, n));
        EndPayloadFits(w, n, At(s, n), outcome, raws);
      } else {
        FinishPhasesKeep(w, s, n, false);
      }
    }
  }

  lemma PoisonKeeps(w: World, s: Book)
    requires Inv(w, s)
    ensures Inv(w, Next(w, s, Poison))
  {
    hide Scan, Directory, RecordPath;
  }

  lemma StartCloseKeeps(w: World, s: Book)
    requires Inv(w, s)
    ensures Inv(w, DoStartClose(s))
  {
    hide Scan, Directory, RecordPath;
  }

  lemma CheckCloseKeeps(w: World, s: Book)
    requires Inv(w, s)
    ensures Inv(w, DoCheckClose(s))
  {
    hide Scan, Directory, RecordPath;
  }

  lemma CleanupKeeps(w: World, s: Book, ok: bool)
    requires Inv(w, s)
    ensures Inv(w, DoCleanup(s, ok))
  {
    hide Scan, Directory, RecordPath;
  }

  // ----- Regions that publish -----

  lemma ScanNothing(c: Codec)
    ensures Scan(c, []) == Some(START)
  {
  }

  lemma OpenKeeps(w: World, s: Book, o: Publication)
    requires Sound(w) && Inv(w, s)
    ensures Inv(w, DoOpen(w, s, o))
  {
    hide Scan, Publish, Draft, Directory, RecordPath, DiskFits;
    if s.holder == Opening {
      ScanNothing(w.cat);
      PublishExtends(w, s, START, w.opening, o);
      PublishFrame(w, s, w.opening, o);
      SameDisk(w, Publish(w, s, w.opening, o).0, DoOpen(w, s, o));
    }
  }

  lemma PublishBeginKeeps(w: World, s: Book, o: Publication)
    requires Sound(w) && Inv(w, s)
    ensures Inv(w, DoPublishBegin(w, s, o))
  {
    hide Scan, Publish, Draft, Directory, RecordPath;
    if s.holder.Reserved? {
      var v, n := Scan(w.cat, s.chain).value, |s.attempts|;
      PublishExtends(w, s, v, s.holder.begin, o);
      PublishFrame(w, s, s.holder.begin, o);
      assert PhaseFits(At(s, n));
    }
  }

  lemma PublishRejectionKeeps(w: World, s: Book, o: Publication)
    requires Sound(w) && Inv(w, s)
    ensures Inv(w, DoPublishRejection(w, s, o))
  {
    hide Scan, Publish, Draft, Directory, RecordPath;
    if s.holder == Rejecting {
      var v, n := Scan(w.cat, s.chain).value, |s.attempts|;
      assert EntryFits(w, n, s.attempts[n - 1], v.attempts[n - 1]) && PhaseFits(At(s, n));
      PublishExtends(w, s, v, RejectionOf(n), o);
      PublishFrame(w, s, RejectionOf(n), o);
    }
  }

  /** The verifier and the ledger mark the same attempt, and the call lets go of the catalog. */
  lemma MarkKeeps(w: World, s: Book, v: State, n: nat, a: Attempt, e: Entry, t: Book, u: State)
    requires Good(w, s, v) && Owned(s, n) && n <= |v.attempts| && !s.broken && At(s, n).decision == New
    requires (s.holder.Acking? || s.holder.Ending?) && s.holder.n == n
    requires PhaseFits(a) && EntryFits(w, n, a, e) && a.decision == New && a.phase != Ended
    requires t == s.(attempts := s.attempts[n - 1 := a], holder := Free, chain := t.chain, disk := t.disk, head := t.head,
                     count := t.count, bytes := t.bytes, accepted := t.accepted) && t.chain != []
    requires u == v.(attempts := v.attempts[n - 1 := e], head := u.head, instance := Some(w.instance), total := u.total,
                     count := u.count, accepted := u.accepted)
    requires CountersAgree(w, t, u)
    ensures Good(w, t, u)
  {
    hide Directory, RecordPath;
  }

  lemma PublishAckKeeps(w: World, s: Book, o: Publication)
    requires Sound(w) && Inv(w, s)
    ensures Inv(w, DoPublishAck(w, s, o))
  {
    hide Scan, Publish, Draft, Directory, RecordPath, DiskFits;
    if s.holder.Acking? {
      var v, n, p := Scan(w.cat, s.chain).value, s.holder.n, AcceptAck(s.holder.n, s.holder.accept);
      assert EntryFits(w, n, s.attempts[n - 1], v.attempts[n - 1]) && PhaseFits(At(s, n));
      DiskWhole(w, s);
      PublishExtends(w, s, v, p, o);
      PublishFrame(w, s, p, o);
      var t := DoPublishAck(w, s, o);
      SameDisk(w, Publish(w, s, p, o).0, t);
      if Publish(w, s, p, o).1 {
        MarkKeeps(w, s, v, n, At(t, n), v.attempts[n - 1].(acked := true), t, Scan(w.cat, t.chain).value);
      } else {
        BrokenKeeps(w, s, n, t);
      }
    }
  }

  lemma PublishEndKeeps(w: World, s: Book, o: Publication)
    requires Sound(w) && Inv(w, s)
    ensures Inv(w, DoPublishEnd(w, s, o))
  {
    hide Scan, Publish, Draft, Directory, RecordPath, DiskFits;
    if s.holder.Ending? {
      var v, n, p := Scan(w.cat, s.chain).value, s.holder.n, s.holder.end;
      assert EntryFits(w, n, s.attempts[n - 1], v.attempts[n - 1]) && PhaseFits(At(s, n));
      DiskWhole(w, s);
      PublishExtends(w, s, v, p, o);
      PublishFrame(w, s, p, o);
      var t := DoPublishEnd(w, s, o);
      SameDisk(w, Publish(w, s, p, o).0, t);
      if Publish(w, s, p, o).1 {
        MarkKeeps(w, s, v, n, At(t, n), v.attempts[n - 1].(ended := true), t, Scan(w.cat, t.chain).value);
      } else {
        BrokenKeeps(w, s, n, t);
      }
    }
  }

  lemma DiskWhole(w: World, s: Book)
    requires DiskFits(w, s) && !s.broken
    ensures s.disk == s.chain
  {
  }

  lemma SameDisk(w: World, s: Book, t: Book)
    requires DiskFits(w, s) && t.chain == s.chain && t.disk == s.disk && t.broken == s.broken
    ensures DiskFits(w, t)
  {
  }

  /** A failed ACK or END leaves the attempt UNKNOWN and the catalog as it was. */
  lemma BrokenKeeps(w: World, s: Book, n: nat, t: Book)
    requires Inv(w, s) && Owned(s, n) && (s.holder.Acking? || s.holder.Ending?) && s.holder.n == n
    requires DiskFits(w, t)
    requires t == s.(attempts := s.attempts[n - 1 := At(s, n).(phase := Unknown)], unknown := true, broken := true,
                     holder := Free, disk := t.disk)
    ensures Inv(w, t)
  {
    hide Scan, Directory, RecordPath, DiskFits;
    assert PhaseFits(At(s, n));
  }

  lemma PublishCloseKeeps(w: World, s: Book, o: Publication)
    requires Sound(w) && Inv(w, s)
    ensures Inv(w, DoPublishClose(w, s, o))
  {
    hide Scan, Publish, Draft, Directory, RecordPath;
    if s.holder == Sealing {
      var v := Scan(w.cat, s.chain).value;
      forall i | 0 <= i < |v.attempts| ensures v.attempts[i].ended {
        assert EntryFits(w, i + 1, s.attempts[i], v.attempts[i]) && PhaseFits(s.attempts[i]);
      }
      PublishExtends(w, s, v, InstanceEnd(|s.attempts|, s.accepted, s.rejected), o);
      PublishFrame(w, s, InstanceEnd(|s.attempts|, s.accepted, s.rejected), o);
    }
  }

  /** Every region of every call keeps the invariant. */
  lemma NextKeeps(w: World, s: Book, e: Event)
    requires Sound(w) && Inv(w, s)
    ensures Inv(w, Next(w, s, e))
  {
    hide Inv, Sound;
    hide DoOpen, DoDecide, DoReserve, DoPublishBegin, DoPublishRejection, DoStartAccept, DoFailAccept, DoLockAck;
    hide DoPublishAck, DoCompleteAccept, DoStartFinish, DoReturnFinish, DoFailFinish, DoLockEnd, DoPublishEnd;
    hide DoCompleteFinish, DoRetire, DoPublishClose;
    match e
    case Open(o) => OpenKeeps(w, s, o);
    case Decide(key, tool, arguments) => DecideKeeps(w, s, key, tool, arguments);
    case Reserve => ReserveKeeps(w, s);
    case PublishBegin(o) => PublishBeginKeeps(w, s, o);
    case PublishRejection(o) => PublishRejectionKeeps(w, s, o);
    case StartAccept(n) => AcceptPhasesKeep(w, s, n);
    case FailAccept(n) => AcceptPhasesKeep(w, s, n);
    case LockAck(n, accept) => LockAckKeeps(w, s, n, accept);
    case PublishAck(o) => PublishAckKeeps(w, s, o);
    case CompleteAccept(n) => AcceptPhasesKeep(w, s, n);
    case StartFinish(n) => FinishPhasesKeep(w, s, n, false);
    case ReturnFinish(n, poisoned) => FinishPhasesKeep(w, s, n, poisoned);
    case FailFinish(n) => FinishPhasesKeep(w, s, n, false);
    case LockEnd(n, outcome, raws) => LockEndKeeps(w, s, n, outcome, raws);
    case PublishEnd(o) => PublishEndKeeps(w, s, o);
    case CompleteFinish(n) => FinishPhasesKeep(w, s, n, false);
    case Retire(n) => RetireKeeps(w, s, n);
    case Poison => PoisonKeeps(w, s);
    case StartClose => StartCloseKeeps(w, s);
    case CheckClose => CheckCloseKeeps(w, s);
    case PublishClose(o) => PublishCloseKeeps(w, s, o);
    case Cleanup(ok) => CleanupKeeps(w, s, ok);
  }

  lemma {:induction false} RunKeeps(w: World, s: Book, events: seq<Event>)
    requires Sound(w) && Inv(w, s)
    ensures Inv(w, Run(w, s, events))
  {
    hide Inv, Sound;
    if events != [] {
      var before := events[..|events| - 1];
      RunKeeps(w, s, before);
      NextKeeps(w, Run(w, s, before), events[|events| - 1]);
    }
  }

  // ----- The theorems over every run -----

  lemma InitialHolds(w: World)
    requires Sound(w)
    ensures Inv(w, INITIAL)
  {
  }

  ghost predicate Reachable(w: World, s: Book) {
    exists events :: s == Run(w, INITIAL, events)
  }

  lemma ReachableHolds(w: World, s: Book)
    requires Sound(w) && Reachable(w, s)
    ensures Inv(w, s)
  {
    var events :| s == Run(w, INITIAL, events);
    InitialHolds(w);
    RunKeeps(w, INITIAL, events);
  }

  /** The last attempt's BEGIN was not confirmed: its publication failed, or has not been tried yet. */
  predicate UnconfirmedBegin(s: Book) {
    s.attempts != [] && !At(s, |s.attempts|).begun
  }

  /** The last attempt is a refusal whose BEGIN was confirmed and whose END was not. */
  predicate OpenRejection(s: Book) {
    s.attempts != [] && At(s, |s.attempts|).decision == Rejected && At(s, |s.attempts|).begun && !At(s, |s.attempts|).ended
  }

  /**
   * The writer refines the verifier: in every interleaving the confirmed catalog is accepted with the
   * ledger's counters. The ledger counts an attempt before its BEGIN is published, so its table is one
   * longer exactly while the last BEGIN is unconfirmed, and its rejections one fewer exactly while a
   * refusal waits for its END. Closed and not unknown, as well as a returned close, means CLOSED_KNOWN.
   */
  lemma EveryRunVerifies(w: World, s: Book)
    requires Sound(w) && Reachable(w, s) && s.chain != []
    ensures Scan(w.cat, s.chain).Some?
    ensures var r := Summarize(Scan(w.cat, s.chain).value);
            && r.count == s.count == |s.chain| && r.total == s.bytes && r.head == s.head
            && r.instance == Some(w.instance) && r.accepted == s.accepted
            && |s.attempts| == r.attempts + (if UnconfirmedBegin(s) then 1 else 0)
            && r.rejected == s.rejected + (if OpenRejection(s) then 1 else 0)
            && (s.returned || (s.closed && !s.unknown) ==> r.status == ClosedKnown)
            && (r.status == ClosedKnown ==> s.closed && r.attempts == r.accepted + r.rejected == |s.attempts|
                                            && AllEnded(s))
  {
    ReachableHolds(w, s);
    hide Scan, Reachable;
    var v := Scan(w.cat, s.chain).value;
    LastRecord(w.cat, s.chain);
    if |v.attempts| == |s.attempts| > 0 {
      assert EntryFits(w, |s.attempts|, s.attempts[|s.attempts| - 1], v.attempts[|s.attempts| - 1]);
    }
    if v.ended { ClosedBalances(w.cat, s.chain); }
  }

  /** The attempt numbers do differ: a BEGIN that is not confirmed stays in the ledger's table for good. */
  lemma UnconfirmedBeginStays(w: World, key: Key, tool: string, arguments: string, o: Publication)
    requires Sound(w) && o != Confirmed
    requires Next(w, Next(w, INITIAL, Open(Confirmed)), Decide(key, tool, arguments)).holder.Decided?
    ensures var s := Next(w, Next(w, Next(w, INITIAL, Open(Confirmed)), Decide(key, tool, arguments)), Reserve);
            var t := Next(w, s, PublishBegin(o));
            && t.holder == Free && |t.attempts| == 1
            && Scan(w.cat, t.chain).Some? && Scan(w.cat, t.chain).value.attempts == []
  {
    hide Inv, Sound, Scan, Encode, Judge;
    var a := Next(w, INITIAL, Open(Confirmed));
    var b := Next(w, a, Decide(key, tool, arguments));
    var s := Next(w, b, Reserve);
    InitialHolds(w);
    NextKeeps(w, INITIAL, Open(Confirmed));
    NextKeeps(w, a, Decide(key, tool, arguments));
    NextKeeps(w, b, Reserve);
    UnconfirmedBeginCounts(w, s, o);
  }

  /** From any state about to publish a BEGIN, a failure leaves the ledger one attempt ahead of its catalog. */
  lemma UnconfirmedBeginCounts(w: World, s: Book, o: Publication)
    requires Sound(w) && Inv(w, s) && s.holder.Reserved? && o != Confirmed
    ensures var t := Next(w, s, PublishBegin(o));
            && t.holder == Free && UnconfirmedBegin(t) && t.attempts != [] && |t.attempts| == |s.attempts|
            && Scan(w.cat, t.chain).Some? && |t.attempts| == |Scan(w.cat, t.chain).value.attempts| + 1
  {
    hide Scan, Draft, Directory, RecordPath;
    PublishFrame(w, s, s.holder.begin, o);
  }

  // ----- How close ends -----

  /** Between the end record and the cleanup no other region touches the catalog or the answer. */
  lemma CleaningStays(w: World, s: Book, e: Event)
    requires s.holder.Cleaning? && s.closed && !e.Cleanup?
    ensures var t := Next(w, s, e);
            t.holder == s.holder && t.closed && t.chain == s.chain && t.disk == s.disk && t.returned == s.returned
  {
    hide DoStartAccept, DoFailAccept, DoCompleteAccept, DoStartFinish, DoReturnFinish, DoFailFinish;
    hide DoCompleteFinish, DoRetire, Publish, Draft, EndPayload, BeginPayload, AllEnded, Directory, RecordPath;
    if IsPhaseEvent(e) { PhaseEventsTouch(w, s, e); }
  }

  lemma {:induction false} CleaningRun(w: World, s: Book, between: seq<Event>)
    requires s.holder.Cleaning? && s.closed && forall i | 0 <= i < |between| :: !between[i].Cleanup?
    ensures var t := Run(w, s, between);
            t.holder == s.holder && t.closed && t.chain == s.chain && t.disk == s.disk && t.returned == s.returned
  {
    hide Next;
    if between != [] {
      CleaningRun(w, s, between[..|between| - 1]);
      CleaningStays(w, Run(w, s, between[..|between| - 1]), between[|between| - 1]);
    }
  }

  /** The end record and its fate: the confirmed and the stored catalog after it. */
  lemma EndRecordAnswers(w: World, s: Book, o: Publication)
    requires Sound(w) && Inv(w, s) && s.holder == Sealing
    ensures var t := Next(w, s, PublishClose(o));
            var draft := Draft(w, s, InstanceEnd(|s.attempts|, s.accepted, s.rejected));
            var written := draft.Some? && Room(w, s, draft.value);
            && t.closed && t.holder == Cleaning(written && o == Confirmed) && !t.returned
            && Scan(w.cat, t.chain).Some? && Scan(w.cat, t.disk).Some?
            && (Scan(w.cat, t.chain).value.ended <==> written && o == Confirmed)
            && (Scan(w.cat, t.disk).value.ended <==> written && o != Lost)
  {
    hide Directory, RecordPath, Encode, Scan, Step, Room;
    var v := Scan(w.cat, s.chain).value;
    var p := InstanceEnd(|s.attempts|, s.accepted, s.rejected);
    forall i | 0 <= i < |v.attempts| ensures v.attempts[i].ended {
      assert EntryFits(w, i + 1, s.attempts[i], v.attempts[i]) && PhaseFits(s.attempts[i]);
    }
    var draft := Draft(w, s, p);
    if draft.Some? && Room(w, s, draft.value) {
      DraftSteps(w, s, v, p);
      ScanSnoc(w.cat, s.chain, v, draft.value);
    }
  }

  /**
   * Exactly how a close ends, whatever regions of other calls run between its end record and its
   * cleanup: the confirmed catalog is CLOSED_KNOWN if and only if the record was writable and confirmed,
   * the call returned if and only if besides every resource closed, and the stored catalog is
   * CLOSED_KNOWN as soon as the record reached the disk.
   */
  lemma CloseAnswers(w: World, s: Book, o: Publication, between: seq<Event>, ok: bool)
    requires Sound(w) && Reachable(w, s) && s.holder == Sealing
    requires forall i | 0 <= i < |between| :: !between[i].Cleanup?
    ensures var t := Next(w, Run(w, Next(w, s, PublishClose(o)), between), Cleanup(ok));
            var draft := Draft(w, s, InstanceEnd(|s.attempts|, s.accepted, s.rejected));
            var written := draft.Some? && Room(w, s, draft.value);
            && t.closed && Scan(w.cat, t.chain).Some? && Scan(w.cat, t.disk).Some?
            && (Scan(w.cat, t.chain).value.ended <==> written && o == Confirmed)
            && (t.returned <==> Scan(w.cat, t.chain).value.ended && ok)
            && (Scan(w.cat, t.disk).value.ended <==> written && o != Lost)
  {
    hide Inv, Sound, Draft, Room, Scan, Reachable;
    ReachableHolds(w, s);
    EndRecordAnswers(w, s, o);
    CleaningRun(w, Next(w, s, PublishClose(o)), between);
    CleanupAnswers(w, Run(w, Next(w, s, PublishClose(o)), between), ok);
  }

  lemma CleanupAnswers(w: World, s: Book, ok: bool)
    requires s.holder.Cleaning?
    ensures var t := Next(w, s, Cleanup(ok));
            t.closed == s.closed && t.chain == s.chain && t.disk == s.disk && t.returned == (s.returned || (s.holder.known && ok))
  {
  }

  /**
   * A catalog can be CLOSED_KNOWN although close raised: here an empty instance is closed, its end record
   * confirmed, and a resource fails to close.
   */
  lemma KnownButRaised(w: World)
    requires Sound(w)
    requires Draft(w, INITIAL, w.opening).Some? && Room(w, INITIAL, Draft(w, INITIAL, w.opening).value)
    requires var s := Next(w, INITIAL, Open(Confirmed));
             Draft(w, s, InstanceEnd(0, 0, 0)).Some? && Room(w, s, Draft(w, s, InstanceEnd(0, 0, 0)).value)
    ensures var s := Next(w, Next(w, Next(w, INITIAL, Open(Confirmed)), StartClose), CheckClose);
            var t := Next(w, Next(w, s, PublishClose(Confirmed)), Cleanup(false));
            Scan(w.cat, t.chain).Some? && Scan(w.cat, t.chain).value.ended && !t.returned
  {
    hide Inv, Sound, Draft, Scan, Room;
    var a := Next(w, INITIAL, Open(Confirmed));
    var s := Next(w, Next(w, a, StartClose), CheckClose);
    InitialHolds(w);
    NextKeeps(w, INITIAL, Open(Confirmed));
    NextKeeps(w, a, StartClose);
    NextKeeps(w, Next(w, a, StartClose), CheckClose);
    assert s == a.(closing := true, holder := Sealing);
    SameDraft(w, a, s, InstanceEnd(0, 0, 0));
    EndRecordAnswers(w, s, Confirmed);
    CleanupAnswers(w, Next(w, s, PublishClose(Confirmed)), false);
  }

  lemma SameDraft(w: World, s: Book, t: Book, p: Payload)
    requires t.count == s.count && t.head == s.head && t.bytes == s.bytes
    ensures Draft(w, t, p) == Draft(w, s, p)
    ensures forall raw :: Room(w, t, raw) == Room(w, s, raw)
  {
  }

  lemma NextFrozen(w: World, s: Book, e: Event)
    requires Sound(w) && Inv(w, s) && s.broken
    ensures var t := Next(w, s, e); t.broken && t.chain == s.chain && t.disk == s.disk
  {
    hide Scan, Next, Publish;
    NextCatalog(w, s, e);
  }

  /**
   * Crash safety: whatever the publisher did, the stored catalog is the confirmed chain or that chain
   * and one more record, both of which the verifier accepts; and once a publication has failed no
   * later region of any call adds a record.
   */
  lemma {:induction false} FailureIsFinal(w: World, s: Book, events: seq<Event>)
    requires Sound(w) && Reachable(w, s)
    ensures Inv(w, Run(w, s, events)) && DiskFits(w, Run(w, s, events))
    ensures s.broken ==> Run(w, s, events).chain == s.chain && Run(w, s, events).disk == s.disk
                         && Run(w, s, events).broken
  {
    hide Inv, Sound, Next, DiskFits;
    ReachableHolds(w, s);
    assert DiskFits(w, Run(w, s, events)) by {
      RunKeeps(w, s, events);
      DiskHolds(w, Run(w, s, events));
    }
    RunKeeps(w, s, events);
    if events != [] {
      var before := events[..|events| - 1];
      RunKeeps(w, s, before);
      FailureIsFinal(w, s, before);
      if s.broken { NextFrozen(w, Run(w, s, before), events[|events| - 1]); }
    }
  }

  lemma BrokenIsUnknown(w: World, s: Book)
    requires Inv(w, s)
    ensures s.broken ==> s.unknown
  {
  }

  lemma ClosedIsKnown(w: World, s: Book)
    requires Inv(w, s)
    ensures s.returned || (s.closed && !s.unknown) ==> Scan(w.cat, s.chain).Some? && Scan(w.cat, s.chain).value.ended
  {
  }

  lemma DiskHolds(w: World, s: Book)
    requires Inv(w, s)
    ensures DiskFits(w, s)
  {
  }
}
