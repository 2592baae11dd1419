/** Under an approved configuration the ledger never runs into the limits the configuration reserves for. */
module LedgerBudgets {

  import opened Base
  import opened Names
  import opened Budgets
  import opened Catalog
  import opened Ledger
  import opened LedgerProofs
  import Archive
  import CatalogSpec

  predicate IsActive(a: Attempt) { a.active }

  /** The bytes of the ended requests, as their END records count them. */
  function RequestBytes(lives: seq<Life>): nat {
    if lives == [] then 0 else RequestBytes(lives[..|lives| - 1]) + EndBytes(lives[|lives| - 1])
  }

  function EndBytes(l: Life): nat {
    if l.end.Some? && l.end.value.AttemptEnd? then l.end.value.bytes else 0
  }

  /** Neither the key table nor the byte total ever refused this begin. */
  predicate NotStarved(p: Payload) {
    p.AttemptBegin? ==> p.reason != SeenLimit && p.reason != ByteLimit
  }

  ghost predicate LivesFit(l: Limits, lives: seq<Life>) {
    forall i | 0 <= i < |lives| :: NotStarved(lives[i].begin) && EndBytes(lives[i]) <= l.request.maxTotalBytes
  }

  ghost predicate TablesFit(w: World, s: Book) {
    var l, n := w.limits, |s.attempts|;
    && n <= l.maxAttempts
    && s.seenBytes <= n * l.maxKeyBytes
    && s.reserve <= n * l.request.maxTotalBytes
    && s.active == Count(s.attempts, IsActive) <= l.maxActive
    && (s.holder.Decided? || s.holder.Reserved? ==> NotStarved(s.holder.begin))
  }

  ghost predicate ChainFits(w: World, s: Book) {
    && s.bytes <= s.count * w.limits.maxCatalogRecordBytes
    && LivesFit(w.limits, Lives(w.cat, s.chain))
  }

  ghost predicate Bounds(w: World, s: Book) {
    TablesFit(w, s) && ChainFits(w, s)
  }

  /** The approved reserves rule out the two starvation reasons. */
  lemma NeverStarved(w: World, s: Book, key: Key)
    requires Approved(w.limits) && TablesFit(w, s) && |s.attempts| < w.limits.maxAttempts
    requires |w.cat.h.keyBytes(key)| <= w.limits.maxKeyBytes
    ensures Judge(w, s, key) != SeenLimit && Judge(w, s, key) != ByteLimit
  {
    var l, n := w.limits, |s.attempts|;
    Scale(n + 1, l.maxAttempts, l.maxKeyBytes);
    Scale(n + 1, l.maxAttempts, l.request.maxTotalBytes);
  }

  lemma Scale(a: nat, b: nat, c: nat)
    requires a <= b
    ensures a * c <= b * c && (a > 0 ==> (a - 1) * c + c == a * c)
  {
  }

  /** A record about to be written always has its place: `catalog_budget` never refuses. */
  lemma AlwaysRoom(w: World, s: Book, p: Payload)
    requires Sound(w) && Approved(w.limits) && Inv(w, s) && Bounds(w, s) && Writes(s.holder)
    requires Draft(w, s, p).Some?
    ensures Room(w, s, Draft(w, s, p).value)
  {
    var l, v := w.limits, Scan(w.cat, s.chain).value;
    CatalogSize(w.cat, s.chain);
    LastRecord(w.cat, s.chain);
    hide Scan;
    assert s.count + 1 <= 3 * l.maxAttempts + 2 <= l.maxCatalogRecords;
    Scale(s.count + 1, l.maxCatalogRecords, l.maxCatalogRecordBytes);
  }

  // ----- Preservation -----

  /** Publishing one record keeps the catalog within its share. */
  lemma PublishFits(w: World, s: Book, p: Payload, o: Publication)
    requires Sound(w) && ChainFits(w, s)
    requires p.AttemptBegin? ==> NotStarved(p)
    requires p.AttemptEnd? ==> p.bytes <= w.limits.request.maxTotalBytes
    ensures ChainFits(w, Publish(w, s, p, o).0)
  {
    hide Lives, Encode, LivesFit, Scan;
    var (t, ok) := Publish(w, s, p, o);
    if ok {
      var raw := Draft(w, s, p).value;
      DraftTold(w, s, p);
      Scale(s.count + 1, s.count + 1, w.limits.maxCatalogRecordBytes);
      ToldFits(w.limits, Lives(w.cat, s.chain), p);
    }
  }

  /** A draft is within the record limit, and tells its payload. */
  lemma DraftTold(w: World, s: Book, p: Payload)
    requires Sound(w) && Draft(w, s, p).Some?
    ensures |Draft(w, s, p).value| <= w.limits.maxCatalogRecordBytes
    ensures Lives(w.cat, s.chain + [Draft(w, s, p).value]) == Told(Lives(w.cat, s.chain), p)
  {
    hide WellFormed, Told;
    var raw := Draft(w, s, p).value;
    EncodeParses(w.cat, Record(s.count, s.head, w.instance, p));
    assert (s.chain + [raw])[..|s.chain|] == s.chain;
  }

  lemma ToldFits(l: Limits, lives: seq<Life>, p: Payload)
    requires LivesFit(l, lives)
    requires p.AttemptBegin? ==> NotStarved(p)
    requires p.AttemptEnd? ==> p.bytes <= l.request.maxTotalBytes
    ensures LivesFit(l, Told(lives, p))
  {
  }

  ghost predicate SameTables(s: Book, t: Book) {
    t.seenBytes == s.seenBytes && t.reserve == s.reserve
  }

  /** Changing one attempt keeps the tables if the active count follows its `active` flag. */
  lemma SetFits(w: World, s: Book, n: nat, a: Attempt, t: Book)
    requires TablesFit(w, s) && Owned(s, n) && SameTables(s, t)
    requires t.attempts == s.attempts[n - 1 := a] && (a.active ==> At(s, n).active)
    requires t.active == s.active - (if At(s, n).active && !a.active then 1 else 0)
    requires t.holder == s.holder || !(t.holder.Decided? || t.holder.Reserved?)
    ensures TablesFit(w, t)
  {
    CountUpdate(s.attempts, IsActive, n - 1, a);
  }

  lemma OneMore(n: nat, c: nat)
    ensures (n + 1) * c == n * c + c
  {
  }

  lemma ReserveFits(w: World, s: Book)
    requires Inv(w, s) && TablesFit(w, s)
    ensures TablesFit(w, DoReserve(w, s))
  {
    hide Scan, Judge, Count, AttemptsAgree, RejectionsAgree, SeenAgree, FlagsFit, DiskFits;
    if s.holder.Decided? {
      assert HolderFits(w, s, Scan(w.cat, s.chain).value);
      var t, n := DoReserve(w, s), |s.attempts|;
      CountAppend(s.attempts, IsActive, t.attempts[n]);
      OneMore(n, w.limits.maxKeyBytes);
      OneMore(n, w.limits.request.maxTotalBytes);
    }
  }

  /** Counters and attempts stay; only the holder, the flags and the catalog move. */
  lemma HolderMoves(w: World, s: Book, t: Book)
    requires TablesFit(w, s) && SameTables(s, t) && t.attempts == s.attempts && t.active == s.active
    requires t.holder == s.holder || (t.holder.Decided? || t.holder.Reserved? ==> NotStarved(t.holder.begin))
    ensures TablesFit(w, t)
  {
  }

  lemma AcceptFits(w: World, s: Book, n: nat)
    requires TablesFit(w, s)
    ensures TablesFit(w, DoStartAccept(s, n)) && TablesFit(w, DoFailAccept(s, n))
    ensures TablesFit(w, DoCompleteAccept(s, n))
  {
    hide TablesFit;
    if DoStartAccept(s, n) != s { SetFits(w, s, n, At(s, n).(phase := Accepting), DoStartAccept(s, n)); }
    if DoFailAccept(s, n) != s { SetFits(w, s, n, At(s, n).(phase := Unknown), DoFailAccept(s, n)); }
    if DoCompleteAccept(s, n) != s { SetFits(w, s, n, At(s, n).(phase := Accepted), DoCompleteAccept(s, n)); }
  }

  lemma FinishFits(w: World, s: Book, n: nat, poisoned: bool)
    requires TablesFit(w, s)
    ensures TablesFit(w, DoStartFinish(s, n)) && TablesFit(w, DoReturnFinish(s, n, poisoned))
    ensures TablesFit(w, DoFailFinish(s, n)) && TablesFit(w, DoCompleteFinish(s, n))
  {
    hide TablesFit, DoStartFinish, DoReturnFinish, DoFailFinish, DoCompleteFinish;
    FinishEdgesFit(w, s, n);
    FinishAnswersFit(w, s, n, poisoned);
  }

  lemma FinishEdgesFit(w: World, s: Book, n: nat)
    requires TablesFit(w, s)
    ensures TablesFit(w, DoStartFinish(s, n)) && TablesFit(w, DoCompleteFinish(s, n))
  {
    hide TablesFit;
    if DoStartFinish(s, n) != s { SetFits(w, s, n, At(s, n).(phase := Finishing), DoStartFinish(s, n)); }
    if DoCompleteFinish(s, n) != s { SetFits(w, s, n, At(s, n).(phase := Ended), DoCompleteFinish(s, n)); }
  }

  lemma FinishAnswersFit(w: World, s: Book, n: nat, poisoned: bool)
    requires TablesFit(w, s)
    ensures TablesFit(w, DoReturnFinish(s, n, poisoned)) && TablesFit(w, DoFailFinish(s, n))
  {
    hide TablesFit;
    if InFinish(s, n) {
      SetFits(w, s, n, At(s, n).(phase := Accepted), DoReturnFinish(s, n, poisoned));
      SetFits(w, s, n, At(s, n).(phase := Unknown), DoFailFinish(s, n));
    }
  }

  lemma RetireFits(w: World, s: Book, n: nat)
    requires TablesFit(w, s)
    ensures TablesFit(w, DoRetire(s, n))
  {
    hide TablesFit;
    if DoRetire(s, n) != s { SetFits(w, s, n, At(s, n).(active := false), DoRetire(s, n)); }
  }

  lemma LockAckFits(w: World, s: Book, n: nat, accept: Link)
    requires TablesFit(w, s)
    ensures TablesFit(w, DoLockAck(w, s, n, accept))
  {
    hide TablesFit, Directory, RecordPath;
    AcceptFits(w, s, n);
    var t := DoLockAck(w, s, n, accept);
    if t != s && t != DoFailAccept(s, n) { HolderMoves(w, s, t); }
  }

  lemma LockEndFits(w: World, s: Book, n: nat, outcome: Outcome, raws: seq<Bytes>)
    requires TablesFit(w, s)
    ensures TablesFit(w, DoLockEnd(w, s, n, outcome, raws))
  {
    hide TablesFit, EndPayload;
    FinishFits(w, s, n, false);
    var t := DoLockEnd(w, s, n, outcome, raws);
    if t != s && t != DoFailFinish(s, n) { HolderMoves(w, s, t); }
  }

  lemma DecideFits(w: World, s: Book, key: Key, tool: string, arguments: string)
    requires Approved(w.limits) && TablesFit(w, s)
    ensures TablesFit(w, DoDecide(w, s, key, tool, arguments))
  {
    hide Draft, TablesFit, Judge, Approved;
    var t := DoDecide(w, s, key, tool, arguments);
    if t != s {
      NeverStarved(w, s, key);
      HolderMoves(w, s, t);
    }
  }

  lemma DropFits(w: World, s: Book)
    requires TablesFit(w, s) && s.attempts != []
    ensures TablesFit(w, Drop(s))
  {
    hide TablesFit;
    var n := |s.attempts|;
    if At(s, n).active { SetFits(w, s, n, At(s, n).(active := false), Drop(s)); }
  }

  lemma PublishBeginFits(w: World, s: Book, o: Publication)
    requires TablesFit(w, s)
    ensures TablesFit(w, DoPublishBegin(w, s, o))
  {
    hide Publish, TablesFit, Drop;
    if s.holder.Reserved? && s.attempts != [] {
      var (t, ok) := Publish(w, s, s.holder.begin, o);
      PublishFrame(w, s, s.holder.begin, o);
      if ok {
        SetFits(w, s, |s.attempts|, At(s, |s.attempts|).(begun := true), DoPublishBegin(w, s, o));
      } else {
        HolderMoves(w, s, t.(holder := Free));
        DropFits(w, t.(holder := Free));
      }
    }
  }

  lemma PublishRejectionFits(w: World, s: Book, o: Publication)
    requires TablesFit(w, s)
    ensures TablesFit(w, DoPublishRejection(w, s, o))
  {
    hide Publish, TablesFit, Drop;
    if s.holder == Rejecting && s.attempts != [] {
      var n := |s.attempts|;
      var (t, ok) := Publish(w, s, RejectionOf(n), o);
      PublishFrame(w, s, RejectionOf(n), o);
      HolderMoves(w, s, t.(holder := Free));
      if ok {
        SetFits(w, s, n, At(s, n).(phase := Ended, ended := true), DoPublishRejection(w, s, o));
      } else {
        DropFits(w, t.(holder := Free));
      }
    }
  }

  lemma PublishAckFits(w: World, s: Book, o: Publication)
    requires TablesFit(w, s)
    ensures TablesFit(w, DoPublishAck(w, s, o))
  {
    hide Publish, TablesFit;
    if s.holder.Acking? && Owned(s, s.holder.n) {
      var n, p := s.holder.n, AcceptAck(s.holder.n, s.holder.accept);
      PublishFrame(w, s, p, o);
      SetFits(w, s, n, if Publish(w, s, p, o).1 then At(s, n).(acked := true) else At(s, n).(phase := Unknown),
              DoPublishAck(w, s, o));
    }
  }

  lemma PublishEndFits(w: World, s: Book, o: Publication)
    requires TablesFit(w, s)
    ensures TablesFit(w, DoPublishEnd(w, s, o))
  {
    hide Publish, TablesFit;
    if s.holder.Ending? && Owned(s, s.holder.n) {
      var n, p := s.holder.n, s.holder.end;
      PublishFrame(w, s, p, o);
      SetFits(w, s, n, if Publish(w, s, p, o).1 then At(s, n).(ended := true) else At(s, n).(phase := Unknown),
              DoPublishEnd(w, s, o));
    }
  }

  lemma EdgeFits(w: World, s: Book, o: Publication)
    requires TablesFit(w, s)
    ensures TablesFit(w, DoOpen(w, s, o)) && TablesFit(w, DoPublishClose(w, s, o))
  {
    hide Publish, TablesFit;
    PublishFrame(w, s, w.opening, o);
    PublishFrame(w, s, InstanceEnd(|s.attempts|, s.accepted, s.rejected), o);
    HolderMoves(w, s, DoOpen(w, s, o));
    HolderMoves(w, s, DoPublishClose(w, s, o));
  }

  lemma NextTables(w: World, s: Book, e: Event)
    requires Approved(w.limits) && Inv(w, s) && TablesFit(w, s)
    ensures TablesFit(w, Next(w, s, e))
  {
    hide TablesFit, Inv, Approved;
    hide DoOpen, DoDecide, DoReserve, DoPublishBegin, DoPublishRejection, DoStartAccept, DoFailAccept, DoLockAck;
    hide DoPublishAck, DoCompleteAccept, DoStartFinish, DoReturnFinish, DoFailFinish, DoLockEnd, DoPublishEnd;
    hide DoCompleteFinish, DoRetire, DoPublishClose;
    match e
    case Open(o) => EdgeFits(w, s, o);
    case Decide(key, tool, arguments) => DecideFits(w, s, key, tool, arguments);
    case Reserve => ReserveFits(w, s);
    case PublishBegin(o) => PublishBeginFits(w, s, o);
    case PublishRejection(o) => PublishRejectionFits(w, s, o);
    case StartAccept(n) => AcceptFits(w, s, n);
    case FailAccept(n) => AcceptFits(w, s, n);
    case LockAck(n, accept) => LockAckFits(w, s, n, accept);
    case PublishAck(o) => PublishAckFits(w, s, o);
    case CompleteAccept(n) => AcceptFits(w, s, n);
    case StartFinish(n) => FinishFits(w, s, n, false);
    case ReturnFinish(n, poisoned) => FinishFits(w, s, n, poisoned);
    case FailFinish(n) => FinishFits(w, s, n, false);
    case LockEnd(n, outcome, raws) => LockEndFits(w, s, n, outcome, raws);
    case PublishEnd(o) => PublishEndFits(w, s, o);
    case CompleteFinish(n) => FinishFits(w, s, n, false);
    case Retire(n) => RetireFits(w, s, n);
    case Poison => HolderMoves(w, s, Next(w, s, Poison));
    case StartClose => HolderMoves(w, s, DoStartClose(s));
    case CheckClose => HolderMoves(w, s, DoCheckClose(s));
    case PublishClose(o) => EdgeFits(w, s, o);
    case Cleanup(ok) => HolderMoves(w, s, DoCleanup(s, ok));
  }

  lemma ChainCarries(w: World, s: Book, t: Book)
    requires ChainFits(w, s) && SameCatalog(s, t)
    ensures ChainFits(w, t)
  {
  }

  /** What is due to be published respects the limits. */
  lemma DueFits(w: World, s: Book)
    requires Sound(w) && Inv(w, s) && Bounds(w, s) && Due(w, s).Some?
    ensures var p := Due(w, s).value;
            && (p.AttemptBegin? ==> NotStarved(p))
            && (p.AttemptEnd? ==> p.bytes <= w.limits.request.maxTotalBytes)
  {
    hide Scan, Directory, RecordPath, Count;
  }

  lemma NextChain(w: World, s: Book, e: Event)
    requires Sound(w) && Inv(w, s) && Bounds(w, s)
    ensures ChainFits(w, Next(w, s, e))
  {
    hide Next, ChainFits, Inv, Sound, Publish, Due;
    NextCatalog(w, s, e);
    if SameCatalog(s, Next(w, s, e)) {
      ChainCarries(w, s, Next(w, s, e));
    } else {
      DueFits(w, s);
      PublishFits(w, s, Due(w, s).value, e.o);
      ChainCarries(w, Publish(w, s, Due(w, s).value, e.o).0, Next(w, s, e));
    }
  }

  lemma {:induction false} RunBounds(w: World, events: seq<Event>)
    requires Sound(w) && Approved(w.limits)
    ensures Inv(w, Run(w, INITIAL, events)) && Bounds(w, Run(w, INITIAL, events))
  {
    hide Inv, Sound, Approved, Next;
    InitialHolds(w);
    RunKeeps(w, INITIAL, events);
    if events != [] {
      var before := events[..|events| - 1];
      var s := Run(w, INITIAL, before);
      RunBounds(w, before);
      NextTables(w, s, events[|events| - 1]);
      NextChain(w, s, events[|events| - 1]);
    }
  }

  lemma {:induction false} RequestShare(l: Limits, lives: seq<Life>)
    requires LivesFit(l, lives)
    ensures RequestBytes(lives) <= |lives| * l.request.maxTotalBytes
  {
    if lives != [] {
      RequestShare(l, lives[..|lives| - 1]);
      Scale(|lives|, |lives|, l.request.maxTotalBytes);
    }
  }

  /**
   * The arithmetic closes: in every run of an approved configuration no begin is refused for the key
   * table or the byte total, no publication for the catalog budget, the catalog stays within `3A + 2`
   * records, and its bytes, those of the ended requests and the pending reserve fit the archive total.
   */
  lemma ApprovedRunsFit(w: World, s: Book, p: Payload)
    requires Sound(w) && Approved(w.limits) && Reachable(w, s)
    ensures forall i | 0 <= i < |Lives(w.cat, s.chain)| :: NotStarved(Lives(w.cat, s.chain)[i].begin)
    ensures Writes(s.holder) && Draft(w, s, p).Some? ==> Room(w, s, Draft(w, s, p).value)
    ensures s.active <= w.limits.maxActive
    ensures |s.chain| <= 3 * w.limits.maxAttempts + 2 <= 100000000
    ensures |s.attempts| + 2 <= w.limits.maxDirectories
    ensures s.bytes + RequestBytes(Lives(w.cat, s.chain)) + PendingReserve(w.limits) <= w.limits.maxTotalArchiveBytes
    ensures Archive.TotalBytes(s.disk) + RequestBytes(Lives(w.cat, s.chain))
            + w.limits.maxActive * w.limits.request.maxRecordBytes <= w.limits.maxTotalArchiveBytes
  {
    hide Archive.TotalBytes;
    hide Run, Draft, Room, Lives, Inv, Sound, Approved, Bounds, PendingReserve, RequestBytes;
    var events :| s == Run(w, INITIAL, events);
    RunBounds(w, events);
    if Writes(s.holder) && Draft(w, s, p).Some? { AlwaysRoom(w, s, p); }
    BoundsGive(w, s);
    ApprovedBytes(w, s);
    DiskBytes(w, s);
    PendingIs(w.limits);
    ApprovedLimits(w.limits, w.cat, w.arc) by { SoundIsBuilt(w); }
  }

  lemma SoundIsBuilt(w: World)
    requires Sound(w)
    ensures Built(w.limits, w.cat, w.arc)
  {
  }

  /** Approved budgets leave every request journal room for its accept and its seal, and every attempt its directory. */
  lemma ApprovedLimits(l: Limits, cat: Codec, arc: Archive.Codec)
    requires Approved(l) && Built(l, cat, arc)
    ensures 2 <= arc.maxRecords <= 100000000 && 2 * arc.maxRecordBytes <= arc.maxTotalBytes
    ensures l.maxAttempts + 2 <= l.maxDirectories && l.maxActive <= l.maxAttempts
    ensures 3 * l.maxAttempts + 2 <= cat.maxRecords <= 100000000
  {
  }

  lemma PendingIs(l: Limits)
    ensures PendingReserve(l) == l.maxActive * l.request.maxRecordBytes + l.maxCatalogRecordBytes
  {
  }

  /** What lies on disk is the confirmed bytes and at most one record more. */
  lemma DiskBytes(w: World, s: Book)
    requires Sound(w) && Inv(w, s)
    ensures Archive.TotalBytes(s.disk) <= s.bytes + w.limits.maxCatalogRecordBytes
  {
    hide Scan, AttemptsAgree, RejectionsAgree, SeenAgree, FlagsFit, HolderFits, CatalogSpec.Legal, CatalogSpec.Tells;
    CatalogSpec.ScanIsLegal(w.cat, s.chain);
    if s.disk != s.chain {
      var raw :| s.disk == s.chain + [raw] && Scan(w.cat, s.chain + [raw]).Some?;
      LastRecord(w.cat, s.disk);
      assert s.disk[..|s.chain|] == s.chain;
    }
  }

  lemma BoundsGive(w: World, s: Book)
    requires Bounds(w, s)
    ensures LivesFit(w.limits, Lives(w.cat, s.chain)) && |s.attempts| <= w.limits.maxAttempts
    ensures s.active <= w.limits.maxActive && s.bytes <= s.count * w.limits.maxCatalogRecordBytes
  {
    hide Count, LivesFit, Lives;
  }

  /** Three records an attempt and two more, and every request its reserve. */
  lemma ApprovedBytes(w: World, s: Book)
    requires Sound(w) && Approved(w.limits) && Inv(w, s) && Bounds(w, s)
    ensures |s.chain| <= 3 * w.limits.maxAttempts + 2
    ensures s.bytes + RequestBytes(Lives(w.cat, s.chain)) + PendingReserve(w.limits) <= w.limits.maxTotalArchiveBytes
  {
    hide Scan, Lives, LifeFits, Count, RequestBytes, LivesFit, HolderFits, FlagsFit, SeenAgree, RejectionsAgree, EntryFits,
         PhaseFits, Bounds;
    var l, lives := w.limits, Lives(w.cat, s.chain);
    BoundsGive(w, s);
    CatalogSize(w.cat, s.chain);
    LastRecord(w.cat, s.chain);
    ScanReflects(w.cat, s.chain);
    RequestShare(l, lives);
    Scale(|lives|, l.maxAttempts, l.request.maxTotalBytes);
    Scale(|s.chain|, 3 * l.maxAttempts + 2, l.maxCatalogRecordBytes);
  }

  // ----- What admission means -----

  /**
   * Under approved budgets an available ledger refuses a key as DUPLICATE exactly when its confirmed
   * catalog already has a BEGIN of that key, as ACTIVE_LIMIT exactly when the key is new and all places
   * are held by attempts not yet retired, and for no other reason.
   */
  lemma AdmissionMeans(w: World, s: Book, key: Key)
    requires Sound(w) && Approved(w.limits) && Reachable(w, s) && Available(s) && s.holder == Free
    requires |s.attempts| < w.limits.maxAttempts && |w.cat.h.keyBytes(key)| <= w.limits.maxKeyBytes
    ensures var known := CatalogSpec.HasKey(w.cat.h, CatalogSpec.Payloads(w.cat, s.chain), key);
            var full := Count(s.attempts, IsActive) == w.limits.maxActive;
            && Count(s.attempts, IsActive) <= w.limits.maxActive
            && Judge(w, s, key) == (if known then Duplicate else if full then ActiveLimit else NoReason)
  {
    hide Run, Bounds, Inv, Approved, Scan, Sound, CatalogSpec.HasKey, Count;
    var events :| s == Run(w, INITIAL, events);
    RunBounds(w, events);
    TablesOf(w, s);
    NeverStarved(w, s, key);
    SeenIsCatalog(w, s, key);
  }

  lemma TablesOf(w: World, s: Book)
    requires Bounds(w, s)
    ensures TablesFit(w, s) && s.active == Count(s.attempts, IsActive) <= w.limits.maxActive
  {
  }

  lemma SeenIsCatalog(w: World, s: Book, key: Key)
    requires Inv(w, s) && Available(s) && s.holder == Free
    ensures CatalogSpec.HasKey(w.cat.h, CatalogSpec.Payloads(w.cat, s.chain), key) <==> w.cat.h.keyBytes(key) in s.seen
  {
    hide Scan, CatalogSpec.Legal, CatalogSpec.Tells, CatalogSpec.HasKey;
    CatalogSpec.ScanIsLegal(w.cat, s.chain);
    CatalogSpec.KeySeen(w.cat.h, CatalogSpec.Payloads(w.cat, s.chain), Scan(w.cat, s.chain).value, key);
  }
}
