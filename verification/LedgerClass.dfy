/**
 * The ledger object. A region method is what one thread does under one lock; `Begin`, `Accept`, `Finish`
 * and `Close` run the regions of one call without interruption, which is one of the interleavings.
 */
module LedgerClass {

  import opened Base
  import opened Names
  import opened Budgets
  import opened Catalog
  import opened Ledger
  import opened LedgerProofs

  class ArchiveAttemptLedger {
    const w: World
    var attempts: seq<Attempt>
    var seen: set<Bytes>
    var seenBytes: nat
    var active: int
    var reserve: nat
    var accepted: nat
    var rejected: nat
    var count: nat
    var bytes: nat
    var head: Option<Link>
    var unknown: bool
    var closed: bool
    var closing: bool
    var holder: Holder
    ghost var chain: seq<Bytes>
    ghost var disk: seq<Bytes>
    ghost var broken: bool
    ghost var returned: bool

    ghost function View(): Book
      reads this
    {
      Book(attempts, seen, seenBytes, active, reserve, accepted, rejected, count, bytes, head, unknown, closed,
           closing, holder, chain, disk, broken, returned)
    }

    /** The catalog the object has confirmed is one the verifier accepts, and no call is running. */
    ghost predicate Valid()
      reads this
    {
      Sound(w) && Inv(w, View()) && holder == Free
    }

    constructor (w: World)
      ensures this.w == w && View() == INITIAL
    {
      this.w := w;
      attempts, seen, seenBytes, active, reserve := [], {}, 0, 0, 0;
      accepted, rejected, count, bytes, head := 0, 0, 0, 0, None;
      unknown, closed, closing := false, false, false;
      holder, chain, disk, broken, returned := Opening, [], [], false, false;
    }

    /** `_initialize`: where the first record is not confirmed the object is closed and unknown. */
    method OpenApproved(o: Publication)
      requires Sound(w) && View() == INITIAL
      modifies this`unknown, this`broken, this`disk, this`chain, this`head, this`count, this`bytes, this`closed,
               this`holder
      ensures Valid() && View() == Next(w, INITIAL, Open(o))
      ensures chain == [] ==> closed && unknown
    {
      hide Inv, Sound, Encode;
      var ok := Publish(w.opening, o);
      holder := Free;
      if !ok { closed := true; }
      InitialHolds(w);
      NextKeeps(w, INITIAL, Open(o));
    }

    /** A confirmed record moves the head and the counters. */
    method Advance(raw: Bytes)
      modifies this`disk, this`chain, this`head, this`count, this`bytes
      ensures View() == old(View()).(head := Some(LinkOf(w.cat.h, raw)), count := old(count) + 1,
                                     bytes := old(bytes) + |raw|, chain := old(chain) + [raw], disk := old(disk) + [raw])
    {
      hide LinkOf;
      disk, chain := disk + [raw], chain + [raw];
      head, count, bytes := Some(LinkOf(w.cat.h, raw)), count + 1, bytes + |raw|;
    }

    /** Any other answer breaks the ledger, with or without the record left on disk. */
    method Break(left: seq<Bytes>)
      modifies this`unknown, this`broken, this`disk
      ensures View() == old(View()).(unknown := true, broken := true, disk := old(disk) + left)
    {
      unknown, broken, disk := true, true, disk + left;
    }

    /** `_publish`. */
    method Publish(p: Payload, o: Publication) returns (ok: bool)
      modifies this`unknown, this`broken, this`disk, this`chain, this`head, this`count, this`bytes
      ensures (View(), ok) == Ledger.Publish(w, old(View()), p, o)
      ensures (ok && unknown == old(unknown) && broken == old(broken)) || (!ok && unknown && broken)
    {
      hide Encode, LinkOf;
      ghost var s := View();
      var raw := Encode(w.cat, Record(count, head, w.instance, p));
      ok := raw.Some? && count < w.limits.maxCatalogRecords && bytes + |raw.value| <= w.cat.maxTotalBytes && o == Confirmed;
      if ok {
        Advance(raw.value);
      } else if raw == None || count >= w.limits.maxCatalogRecords || bytes + |raw.value| > w.cat.maxTotalBytes
                || o == Lost {
        assert s.disk + [] == s.disk;
        Break([]);
      } else {
        Break([raw.value]);
      }
    }

    /** The admission decision, in the order of the source. */
    method Judgement(key: Key) returns (reason: Reason)
      ensures reason == Judge(w, View(), key)
    {
      var l, k := w.limits, w.cat.h.keyBytes(key);
      if k in seen { return Duplicate; }
      if active >= l.maxActive { return ActiveLimit; }
      if seenBytes + |k| > l.maxSeenKeyBytes { return SeenLimit; }
      if reserve + l.request.maxTotalBytes + CatalogReserve(l) + PendingReserve(l) > l.maxTotalArchiveBytes {
        return ByteLimit;
      }
      return NoReason;
    }

    method Change(n: nat, a: Attempt)
      requires Owned(View(), n)
      modifies this`attempts
      ensures View() == Set(old(View()), n, a)
    {
      attempts := attempts[n - 1 := a];
    }

    /** The holder of the catalog lock moves on. */
    method Pass(h: Holder)
      modifies this`holder
      ensures View() == old(View()).(holder := h)
    {
      holder := h;
    }

    method CountAccepted()
      modifies this`accepted
      ensures View() == old(View()).(accepted := old(accepted) + 1)
    {
      accepted := accepted + 1;
    }

    method CountRejected()
      modifies this`rejected
      ensures View() == old(View()).(rejected := old(rejected) + 1)
    {
      rejected := rejected + 1;
    }

    method Poison()
      modifies this`unknown
      ensures View() == old(View()).(unknown := true)
    {
      unknown := true;
    }

    method MarkClosed()
      modifies this`closed
      ensures View() == old(View()).(closed := true)
    {
      closed := true;
    }

    // ----- The regions of begin -----

    method DecideRegion(key: Key, tool: string, arguments: string)
      modifies this`holder
      ensures View() == Next(w, old(View()), Decide(key, tool, arguments))
      ensures holder == old(holder) || (holder.Decided? && holder.begin.AttemptBegin?)
      ensures old(holder) == Free ==> (holder != Free <==> Takes(w, old(View()), key, tool, arguments))
    {
      hide Encode, Judge;
      var reason := Judgement(key);
      var p := AttemptBegin(|attempts| + 1, key, tool, arguments, if reason == NoReason then New else Rejected, reason);
      if holder == Free && key.instance == w.instance && |w.cat.h.keyBytes(key)| <= w.limits.maxKeyBytes
         && !closed && !closing && !unknown && |attempts| < w.limits.maxAttempts
         && Encode(w.cat, Record(count, head, w.instance, p)).Some? {
        holder := Decided(p);
      }
    }

    /** The key is remembered whether it is admitted or not. */
    method Remember(k: Bytes)
      modifies this`seen, this`seenBytes
      ensures View() == old(View()).(seen := old(seen) + {k},
                                     seenBytes := if k in old(seen) then old(seenBytes) else old(seenBytes) + |k|)
    {
      if k !in seen { seenBytes := seenBytes + |k|; }
      seen := seen + {k};
    }

    /** An admitted attempt holds an active place and its whole byte reserve. */
    method Hold(admitted: bool)
      modifies this`active, this`reserve
      ensures View() == old(View()).(active := if admitted then old(active) + 1 else old(active),
                                     reserve := if admitted then old(reserve) + w.limits.request.maxTotalBytes
                                                else old(reserve))
    {
      if admitted { active, reserve := active + 1, reserve + w.limits.request.maxTotalBytes; }
    }

    method ReserveRegion()
      modifies this`attempts, this`seen, this`seenBytes, this`active, this`reserve, this`holder
      ensures View() == Next(w, old(View()), Reserve)
      ensures old(holder).Decided? && old(holder).begin.AttemptBegin? ==>
                holder.Reserved? && |attempts| == |old(attempts)| + 1
      ensures !old(holder).Decided? ==> holder == old(holder) && attempts == old(attempts)
    {
      if holder.Decided? && holder.begin.AttemptBegin? {
        var p := holder.begin;
        Remember(w.cat.h.keyBytes(p.key));
        Hold(p.decision == New);
        attempts := attempts + [Attempt(p.key, p.tool, p.arguments, p.decision, Begun, p.decision == New, false, false,
                                         false)];
        holder := Reserved(p);
      }
    }

    method DropRegion()
      requires attempts != []
      modifies this`attempts, this`active
      ensures View() == Drop(old(View())) && |attempts| == |old(attempts)|
    {
      var n := |attempts|;
      if attempts[n - 1].active {
        Change(n, attempts[n - 1].(active := false));
        active := active - 1;
      }
    }

    method ConfirmBegin(refused: bool)
      requires attempts != []
      modifies this`attempts, this`holder
      ensures View() == Set(old(View()), |old(attempts)|, At(old(View()), |old(attempts)|).(begun := true)).(
                          holder := if refused then Rejecting else Free)
    {
      Change(|attempts|, attempts[|attempts| - 1].(begun := true));
      Pass(if refused then Rejecting else Free);
    }

    method AbandonBegin()
      requires attempts != []
      modifies this`attempts, this`active, this`holder
      ensures View() == Drop(old(View()).(holder := Free)) && |attempts| == |old(attempts)| && holder == Free
    {
      Pass(Free);
      DropRegion();
    }

    method PublishBeginRegion(o: Publication)
      modifies this`unknown, this`broken, this`disk, this`chain, this`head, this`count, this`bytes, this`attempts,
               this`active, this`holder
      ensures View() == Next(w, old(View()), PublishBegin(o))
      ensures old(holder).Reserved? && old(attempts) != [] ==> (holder == Free || holder == Rejecting) && attempts != []
      ensures !old(holder).Reserved? ==> holder == old(holder)
      ensures |attempts| == |old(attempts)|
      ensures (unknown == old(unknown) && broken == old(broken)) || (unknown && broken)
    {
      hide Next;
      PublishBeginIs(w, View(), o);
      hide Ledger.Publish, Draft, EndPayload, BeginPayload, AllEnded, InFinish, MayFailAccept, Issued, Drop;
      if holder.Reserved? && attempts != [] {
        var p := holder.begin;
        var ok := Publish(p, o);
        if ok { ConfirmBegin(p.AttemptBegin? && p.decision == Rejected); } else { AbandonBegin(); }
      }
    }

    method PublishRejectionRegion(o: Publication)
      modifies this`unknown, this`broken, this`disk, this`chain, this`head, this`count, this`bytes, this`attempts,
               this`active, this`rejected, this`holder
      ensures View() == Next(w, old(View()), PublishRejection(o))
      ensures old(holder) == Free || (old(holder) == Rejecting && old(attempts) != []) ==> holder == Free
      ensures |attempts| == |old(attempts)|
      ensures (unknown == old(unknown) && broken == old(broken)) || (unknown && broken)
    {
      hide Ledger.Publish, Draft, EndPayload, BeginPayload, AllEnded, InFinish, MayFailAccept, Issued, Drop;
      if holder == Rejecting && attempts != [] {
        var n := |attempts|;
        var ok := Publish(RejectionOf(n), o);
        Pass(Free);
        if ok {
          Change(n, attempts[n - 1].(phase := Ended, ended := true));
          CountRejected();
        } else {
          DropRegion();
        }
      }
    }

    // ----- The regions of accept -----

    method StartAcceptRegion(n: nat)
      modifies this`attempts
      ensures View() == Next(w, old(View()), StartAccept(n))
    {
      if !closed && !closing && !unknown && 1 <= n <= |attempts|
         && !((holder.Reserved? || holder.Rejecting?) && n == |attempts|)
         && attempts[n - 1].decision == New && attempts[n - 1].phase == Begun {
        Change(n, attempts[n - 1].(phase := Accepting));
      }
    }

    method FailAcceptRegion(n: nat)
      modifies this`attempts, this`unknown
      ensures View() == Next(w, old(View()), FailAccept(n))
    {
      if 1 <= n <= |attempts| && attempts[n - 1].phase == Accepting && !attempts[n - 1].acked
         && !(holder.Acking? && holder.n == n) {
        Change(n, attempts[n - 1].(phase := Unknown));
        Poison();
      }
    }

    method LockAckRegion(n: nat, accept: Link)
      modifies this`attempts, this`unknown, this`holder
      ensures View() == Next(w, old(View()), LockAck(n, accept))
      ensures holder == old(holder) || (holder.Acking? && 1 <= holder.n <= |attempts|)
    {
      hide Directory, RecordPath;
      if holder == Free && 1 <= n <= |attempts| && attempts[n - 1].phase == Accepting && !attempts[n - 1].acked {
        if !closed && !closing && !unknown {
          holder := Acking(n, Ref(RecordPath(Directory(w.cat.h, n, attempts[n - 1].key), 0), accept.size, accept.sha));
        } else {
          FailAcceptRegion(n);
        }
      }
    }

    method PublishAckRegion(o: Publication)
      modifies this`unknown, this`broken, this`disk, this`chain, this`head, this`count, this`bytes, this`attempts,
               this`accepted, this`holder
      ensures View() == Next(w, old(View()), PublishAck(o))
      ensures old(holder) == Free || (old(holder).Acking? && 1 <= old(holder).n <= |old(attempts)|) ==> holder == Free
    {
      hide Ledger.Publish, Draft, EndPayload, BeginPayload, AllEnded, InFinish, MayFailAccept, Issued, Drop;
      if holder.Acking? && 1 <= holder.n <= |attempts| {
        var n, p := holder.n, AcceptAck(holder.n, holder.accept);
        var ok := Publish(p, o);
        Pass(Free);
        Change(n, if ok then attempts[n - 1].(acked := true) else attempts[n - 1].(phase := Unknown));
        if ok { CountAccepted(); }
      }
    }

    method CompleteAcceptRegion(n: nat)
      modifies this`attempts
      ensures View() == Next(w, old(View()), CompleteAccept(n))
    {
      if 1 <= n <= |attempts| && attempts[n - 1].phase == Accepting && attempts[n - 1].acked {
        Change(n, attempts[n - 1].(phase := Accepted));
      }
    }

    // ----- The regions of finish -----

    method StartFinishRegion(n: nat)
      modifies this`attempts
      ensures View() == Next(w, old(View()), StartFinish(n))
    {
      if !closed && !closing && 1 <= n <= |attempts| && attempts[n - 1].decision == New
         && attempts[n - 1].phase == Accepted {
        Change(n, attempts[n - 1].(phase := Finishing));
      }
    }

    /** The originals have been read back as `raws`; the END record is derived from them. */
    method LockEndRegion(n: nat, outcome: Outcome, raws: seq<Bytes>)
      modifies this`attempts, this`unknown, this`holder
      ensures View() == Next(w, old(View()), LockEnd(n, outcome, raws))
      ensures holder == old(holder) || (holder.Ending? && 1 <= holder.n <= |attempts|)
    {
      hide Next;
      LockEndIs(w, View(), n, outcome, raws);
      hide EndPayload;
      if holder == Free && 1 <= n <= |attempts| && attempts[n - 1].phase == Finishing && !attempts[n - 1].ended {
        var p := EndPayload(w, n, attempts[n - 1], outcome, raws);
        if !closed && !closing && !unknown && p.Some? {
          Pass(Ending(n, p.value));
        } else {
          Change(n, attempts[n - 1].(phase := Unknown));
          Poison();
        }
      }
    }

    method PublishEndRegion(o: Publication)
      modifies this`unknown, this`broken, this`disk, this`chain, this`head, this`count, this`bytes, this`attempts,
               this`holder
      ensures View() == Next(w, old(View()), PublishEnd(o))
      ensures old(holder) == Free || (old(holder).Ending? && 1 <= old(holder).n <= |old(attempts)|) ==> holder == Free
    {
      hide Ledger.Publish, Draft, EndPayload, BeginPayload, AllEnded, InFinish, MayFailAccept, Issued, Drop;
      if holder.Ending? && 1 <= holder.n <= |attempts| {
        var n, p := holder.n, holder.end;
        var ok := Publish(p, o);
        Pass(Free);
        Change(n, if ok then attempts[n - 1].(ended := true) else attempts[n - 1].(phase := Unknown));
      }
    }

    method CompleteFinishRegion(n: nat)
      modifies this`attempts
      ensures View() == Next(w, old(View()), CompleteFinish(n))
    {
      if 1 <= n <= |attempts| && attempts[n - 1].phase == Finishing && attempts[n - 1].ended {
        Change(n, attempts[n - 1].(phase := Ended));
      }
    }

    method RetireRegion(n: nat)
      modifies this`attempts, this`active
      ensures View() == Next(w, old(View()), Retire(n))
    {
      if 1 <= n <= |attempts| && attempts[n - 1].active && attempts[n - 1].phase in {Ended, Unknown} {
        Change(n, attempts[n - 1].(active := false));
        active := active - 1;
      }
    }

    // ----- The regions of close -----

    /** Every attempt has reached ENDED; a scan over the table. */
    method Quiet() returns (ok: bool)
      ensures ok == AllEnded(View())
    {
      ok := true;
      for i := 0 to |attempts|
        invariant ok <==> forall j | 0 <= j < i :: attempts[j].phase == Ended
      {
        if attempts[i].phase != Ended { ok := false; }
      }
    }

    method StartCloseRegion()
      modifies this`closing, this`holder
      ensures View() == Next(w, old(View()), StartClose)
      ensures holder == old(holder) || (holder == Closing && !closed)
    {
      if holder == Free && !closed && active == 0 { closing, holder := true, Closing; }
    }

    method CheckCloseRegion()
      modifies this`unknown, this`closed, this`holder
      ensures View() == Next(w, old(View()), CheckClose)
      ensures old(holder) != Closing ==> holder == old(holder) && closed == old(closed)
      ensures old(holder) == Closing ==> holder == Sealing || (holder == Cleaning(false) && unknown)
    {
      if holder == Closing {
        var quiet := Quiet();
        if !unknown && quiet {
          Pass(Sealing);
        } else {
          Poison();
          MarkClosed();
          Pass(Cleaning(false));
        }
      }
    }

    method PublishCloseRegion(o: Publication)
      modifies this`unknown, this`broken, this`disk, this`chain, this`head, this`count, this`bytes, this`closed,
               this`holder
      ensures View() == Next(w, old(View()), PublishClose(o))
      ensures old(holder) != Sealing ==> holder == old(holder) && closed == old(closed) && unknown == old(unknown)
      ensures old(holder) == Sealing ==> holder.Cleaning? && (!holder.known ==> unknown)
    {
      hide Next;
      PublishCloseIs(w, View(), o);
      hide Ledger.Publish, Draft, EndPayload, BeginPayload, AllEnded, InFinish, MayFailAccept, Issued, Drop;
      if holder == Sealing {
        var ok := Publish(InstanceEnd(|attempts|, accepted, rejected), o);
        MarkClosed();
        Pass(Cleaning(ok));
      }
    }

    method CleanupRegion(ok: bool)
      modifies this`unknown, this`holder, this`returned
      ensures View() == Next(w, old(View()), Cleanup(ok))
      ensures old(holder).Cleaning? || old(holder) == Free ==> holder == Free
      ensures old(holder).Cleaning? && (!old(holder).known ==> old(unknown)) && !unknown ==> returned
    {
      if holder.Cleaning? {
        returned := returned || (holder.known && ok);
        if !ok { unknown := true; }
        Pass(Free);
      }
    }

    // ----- The calls -----

    /** `begin`: the lease of a new attempt, or none where the call refused or failed. */
    method Begin(key: Key, tool: string, arguments: string, o: Publication, r: Publication) returns (lease: Option<nat>)
      requires Valid()
      modifies this
      ensures Valid()
      ensures View() == Four(w, old(View()), Decide(key, tool, arguments), Reserve, PublishBegin(o), PublishRejection(r))
      ensures |attempts| == |old(attempts)| + (if Takes(w, old(View()), key, tool, arguments) then 1 else 0)
      ensures lease.Some? <==> Takes(w, old(View()), key, tool, arguments) && !broken
      ensures lease.Some? ==> lease.value == |attempts|
    {
      hide Inv, Sound, Next;
      hide Takes;
      ghost var s := View();
      BrokenIsUnknown(w, s);
      TakesAvailable(w, s, key, tool, arguments);
      DecideRegion(key, tool, arguments);
      var refused := holder == Free;
      ReserveRegion();
      PublishBeginRegion(o);
      PublishRejectionRegion(r);
      FourKeep(w, s, Decide(key, tool, arguments), Reserve, PublishBegin(o), PublishRejection(r));
      BrokenIsUnknown(w, View());
      lease := if refused || unknown then None else Some(|attempts|);
    }

    /** `accept` where the directory and the journal gave the link of the accept record. */
    method Accept(n: nat, accept: Link, o: Publication)
      requires Valid()
      modifies this
      ensures Valid()
      ensures View() == Next(w, Four(w, old(View()), StartAccept(n), LockAck(n, accept), PublishAck(o),
                                     CompleteAccept(n)), Retire(n))
    {
      hide Inv, Sound, Next;
      ghost var s := View();
      StartAcceptRegion(n);
      LockAckRegion(n, accept);
      PublishAckRegion(o);
      CompleteAcceptRegion(n);
      FourKeep(w, s, StartAccept(n), LockAck(n, accept), PublishAck(o), CompleteAccept(n));
      NextKeeps(w, View(), Retire(n));
      RetireRegion(n);
    }

    /** `accept` where the directory or the journal failed. */
    method AcceptFails(n: nat)
      requires Valid()
      modifies this
      ensures Valid()
      ensures View() == Next(w, Two(w, old(View()), StartAccept(n), FailAccept(n)), Retire(n))
    {
      hide Inv, Sound, Next;
      ghost var s := View();
      StartAcceptRegion(n);
      FailAcceptRegion(n);
      TwoKeep(w, s, StartAccept(n), FailAccept(n));
      NextKeeps(w, View(), Retire(n));
      RetireRegion(n);
    }

    /** `finish` of a closed journal whose originals read back as `raws`. */
    method Finish(n: nat, outcome: Outcome, raws: seq<Bytes>, o: Publication)
      requires Valid()
      modifies this
      ensures Valid()
      ensures View() == Next(w, Four(w, old(View()), StartFinish(n), LockEnd(n, outcome, raws), PublishEnd(o),
                                     CompleteFinish(n)), Retire(n))
    {
      hide Inv, Sound, Next;
      ghost var s := View();
      StartFinishRegion(n);
      LockEndRegion(n, outcome, raws);
      PublishEndRegion(o);
      CompleteFinishRegion(n);
      FourKeep(w, s, StartFinish(n), LockEnd(n, outcome, raws), PublishEnd(o), CompleteFinish(n));
      NextKeeps(w, View(), Retire(n));
      RetireRegion(n);
    }

    /** `close`: it returns normally only over a catalog the verifier calls CLOSED_KNOWN. */
    method Close(o: Publication, cleaned: bool) returns (ok: bool)
      requires Valid()
      modifies this
      ensures Valid()
      ensures View() == Four(w, old(View()), StartClose, CheckClose, PublishClose(o), Cleanup(cleaned))
      ensures ok <==> closed && !unknown
      ensures ok ==> Scan(w.cat, chain).Some? && Scan(w.cat, chain).value.ended
    {
      hide Inv, Sound, Next, Scan;
      ghost var s := View();
      StartCloseRegion();
      CheckCloseRegion();
      PublishCloseRegion(o);
      CleanupRegion(cleaned);
      FourKeep(w, s, StartClose, CheckClose, PublishClose(o), Cleanup(cleaned));
      ClosedIsKnown(w, View());
      ok := closed && !unknown;
    }
  }

  lemma PublishCloseIs(w: World, s: Book, o: Publication)
    ensures Next(w, s, PublishClose(o)) == DoPublishClose(w, s, o)
  {
    hide DoPublishClose;
  }

  lemma PublishBeginIs(w: World, s: Book, o: Publication)
    ensures Next(w, s, PublishBegin(o)) == DoPublishBegin(w, s, o)
  {
    hide DoPublishBegin;
  }

  lemma LockEndIs(w: World, s: Book, n: nat, outcome: Outcome, raws: seq<Bytes>)
    ensures Next(w, s, LockEnd(n, outcome, raws)) == DoLockEnd(w, s, n, outcome, raws)
  {
    hide DoLockEnd;
  }

  /** `begin` reserves an attempt: the call is well formed and the ledger has a number left. */
  predicate Takes(w: World, s: Book, key: Key, tool: string, arguments: string) {
    && key.instance == w.instance && |w.cat.h.keyBytes(key)| <= w.limits.maxKeyBytes
    && Available(s) && |s.attempts| < w.limits.maxAttempts
    && Draft(w, s, BeginPayload(w, s, key, tool, arguments)).Some?
  }

  lemma TakesAvailable(w: World, s: Book, key: Key, tool: string, arguments: string)
    ensures Takes(w, s, key, tool, arguments) ==> !s.unknown
  {
  }

  /** Two events, and four, one after the other: the regions of one uninterrupted call. */
  function Two(w: World, s: Book, a: Event, b: Event): Book {
    Next(w, Next(w, s, a), b)
  }

  function Four(w: World, s: Book, a: Event, b: Event, c: Event, d: Event): Book {
    Two(w, Two(w, s, a, b), c, d)
  }

  lemma TwoKeep(w: World, s: Book, a: Event, b: Event)
    requires Sound(w) && Inv(w, s)
    ensures Inv(w, Two(w, s, a, b))
  {
    hide Inv, Sound, Next;
    NextKeeps(w, s, a);
    NextKeeps(w, Next(w, s, a), b);
  }

  lemma FourKeep(w: World, s: Book, a: Event, b: Event, c: Event, d: Event)
    requires Sound(w) && Inv(w, s)
    ensures Inv(w, Four(w, s, a, b, c, d))
  {
    hide Inv, Sound, Next;
    TwoKeep(w, s, a, b);
    TwoKeep(w, Two(w, s, a, b), c, d);
  }
}
