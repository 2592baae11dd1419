/**
 * The attempt ledger as a transition system. An event is one region executed under a lock, so a
 * list of events is one interleaving of any number of begin, accept, finish and close calls. The
 * native publisher is nondeterministic: it confirms, fails with the record stored, or fails without.
 */
module Ledger {

  import opened Base
  import opened Names
  import opened Budgets
  import opened Catalog
  import Archive

  datatype World = World(instance: string, limits: Limits, cat: Codec, arc: Archive.Codec, opening: Payload)

  ghost predicate Sound(w: World) {
    Lossless(w.cat) && w.opening.InstanceBegin? && Built(w.limits, w.cat, w.arc) && w.arc.h == w.cat.h
  }

  datatype Phase = Begun | Accepting | Accepted | Finishing | Ended | Unknown

  /** `begun`, `acked` and `ended` are history: the BEGIN, ACK and END of this attempt were confirmed. */
  datatype Attempt = Attempt(key: Key, tool: string, arguments: string, decision: Decision, phase: Phase,
                             active: bool, begun: bool, acked: bool, ended: bool)

  /** The call that holds the catalog lock, and how far it has come. */
  datatype Holder =
    | Opening
    | Free
    | Decided(begin: Payload)
    | Reserved(begin: Payload)
    | Rejecting
    | Acking(n: nat, accept: Ref)
    | Ending(n: nat, end: Payload)
    | Closing
    | Sealing
    | Cleaning(known: bool)

  /**
   * `chain` and `disk` are the confirmed and the stored catalog records. `broken` records that some
   * catalog publication failed, `returned` that a close call returned normally.
   */
  datatype Book = Book(
    attempts: seq<Attempt>,
    seen: set<Bytes>,
    seenBytes: nat,
    active: int,
    reserve: nat,
    accepted: nat,
    rejected: nat,
    count: nat,
    bytes: nat,
    head: Option<Link>,
    unknown: bool,
    closed: bool,
    closing: bool,
    holder: Holder,
    chain: seq<Bytes>,
    disk: seq<Bytes>,
    broken: bool,
    returned: bool)

  const INITIAL := Book([], {}, 0, 0, 0, 0, 0, 0, 0, None, false, false, false, Opening, [], [], false, false)

  datatype Event =
    | Open(o: Publication)
    | Decide(key: Key, tool: string, arguments: string)
    | Reserve
    | PublishBegin(o: Publication)
    | PublishRejection(o: Publication)
    | StartAccept(n: nat)
    | FailAccept(n: nat)
    | LockAck(n: nat, accept: Link)
    | PublishAck(o: Publication)
    | CompleteAccept(n: nat)
    | StartFinish(n: nat)
    | ReturnFinish(n: nat, poisoned: bool)
    | FailFinish(n: nat)
    | LockEnd(n: nat, outcome: Outcome, raws: seq<Bytes>)
    | PublishEnd(o: Publication)
    | CompleteFinish(n: nat)
    | Retire(n: nat)
    | Poison
    | StartClose
    | CheckClose
    | PublishClose(o: Publication)
    | Cleanup(ok: bool)

  predicate Available(s: Book) {
    !s.closed && !s.closing && !s.unknown
  }

  predicate Owned(s: Book, n: nat) {
    1 <= n <= |s.attempts|
  }

  function At(s: Book, n: nat): Attempt
    requires Owned(s, n)
  {
    s.attempts[n - 1]
  }

  function Set(s: Book, n: nat, a: Attempt): Book
    requires Owned(s, n)
  {
    s.(attempts := s.attempts[n - 1 := a])
  }

  /** `_raw`: the record the ledger would append next. */
  function Draft(w: World, s: Book, p: Payload): Option<Bytes> {
    Encode(w.cat, Record(s.count, s.head, w.instance, p))
  }

  /** The `catalog_budget` condition of `_publish`. */
  predicate Room(w: World, s: Book, raw: Bytes) {
    s.count < w.limits.maxCatalogRecords && s.bytes + |raw| <= w.cat.maxTotalBytes
  }

  /** `_publish` as every caller sees it: the new state, and whether it returned. */
  function Publish(w: World, s: Book, p: Payload, o: Publication): (Book, bool) {
    var raw := Draft(w, s, p);
    if raw == None || !Room(w, s, raw.value) || o == Lost then
      (s.(unknown := true, broken := true), false)
    else if o == Stored then
      (s.(unknown := true, broken := true, disk := s.disk + [raw.value]), false)
    else
      (s.(head := Some(LinkOf(w.cat.h, raw.value)), count := s.count + 1, bytes := s.bytes + |raw.value|,
          chain := s.chain + [raw.value], disk := s.disk + [raw.value]), true)
  }

  /** The admission decision of `begin`, in the order the source tests the reasons. */
  function Judge(w: World, s: Book, key: Key): Reason {
    var l, k := w.limits, w.cat.h.keyBytes(key);
    if k in s.seen then Duplicate
    else if s.active >= l.maxActive then ActiveLimit
    else if s.seenBytes + |k| > l.maxSeenKeyBytes then SeenLimit
    else if s.reserve + l.request.maxTotalBytes + CatalogReserve(l) + PendingReserve(l) > l.maxTotalArchiveBytes then
      ByteLimit
    else NoReason
  }

  function BeginPayload(w: World, s: Book, key: Key, tool: string, arguments: string): Payload {
    var reason := Judge(w, s, key);
    AttemptBegin(|s.attempts| + 1, key, tool, arguments, if reason == NoReason then New else Rejected, reason)
  }

  function RejectionOf(n: nat): Payload {
    AttemptEnd(n, Refused, None, None, 0, 0, 0)
  }

  /** The END payload for a request whose originals read back as `raws`, or `None` where they differ. */
  function EndPayload(w: World, n: nat, a: Attempt, outcome: Outcome, raws: seq<Bytes>): Option<Payload> {
    match Archive.Scan(w.arc, raws)
    case None => None
    case Some(s) =>
      if raws != [] && s.seal.Some? && s.seal.value.Seal? && s.seal.value.outcome == outcome
         && s.parent == Some(Archive.Parent(a.key, a.tool, a.arguments, n)) && s.head.Some? then
        Some(AttemptEnd(n, if s.seal.value.status == Archive.Complete then Complete else Catalog.Failed, Some(outcome),
                        Some(Ref(RecordPath(Directory(w.cat.h, n, a.key), |raws| - 1),
                                 s.head.value.size, s.head.value.sha)),
                        |raws|, s.events, s.total))
      else None
  }

  // ----- begin -----

  function DoDecide(w: World, s: Book, key: Key, tool: string, arguments: string): Book {
    var p := BeginPayload(w, s, key, tool, arguments);
    if s.holder == Free && key.instance == w.instance && |w.cat.h.keyBytes(key)| <= w.limits.maxKeyBytes
       && Available(s) && |s.attempts| < w.limits.maxAttempts && Draft(w, s, p).Some? then
      s.(holder := Decided(p))
    else s
  }

  function DoReserve(w: World, s: Book): Book {
    if s.holder.Decided? && s.holder.begin.AttemptBegin? then
      var p, k := s.holder.begin, w.cat.h.keyBytes(s.holder.begin.key);
      var admitted := p.decision == New;
      s.(attempts := s.attempts + [Attempt(p.key, p.tool, p.arguments, p.decision, Begun, admitted, false, false, false)],
         seen := s.seen + {k},
         seenBytes := if k in s.seen then s.seenBytes else s.seenBytes + |k|,
         active := if admitted then s.active + 1 else s.active,
         reserve := if admitted then s.reserve + w.limits.request.maxTotalBytes else s.reserve,
         holder := Reserved(p))
    else s
  }

  function Drop(s: Book): Book
    requires s.attempts != []
  {
    var n := |s.attempts|;
    if At(s, n).active then
      Set(s, n, At(s, n).(active := false)).(active := s.active - 1)
    else s
  }

  function DoPublishBegin(w: World, s: Book, o: Publication): Book {
    if s.holder.Reserved? && s.attempts != [] then
      var (t, ok) := Publish(w, s, s.holder.begin, o);
      var n := |s.attempts|;
      if !ok then Drop(t.(holder := Free))
      else Set(t, n, At(t, n).(begun := true)).(
        holder := if s.holder.begin.AttemptBegin? && s.holder.begin.decision == Rejected then Rejecting else Free)
    else s
  }

  function DoPublishRejection(w: World, s: Book, o: Publication): Book {
    if s.holder == Rejecting && s.attempts != [] then
      var n := |s.attempts|;
      var (t, ok) := Publish(w, s, RejectionOf(n), o);
      if !ok then Drop(t.(holder := Free))
      else Set(t, n, At(t, n).(phase := Ended, ended := true)).(rejected := t.rejected + 1, holder := Free)
    else s
  }

  // ----- accept -----

  /** `begin` has returned the lease of attempt `n`. */
  predicate Issued(s: Book, n: nat) {
    Owned(s, n) && !((s.holder.Reserved? || s.holder.Rejecting?) && n == |s.attempts|)
  }

  function DoStartAccept(s: Book, n: nat): Book {
    if Available(s) && Issued(s, n) && At(s, n).decision == New && At(s, n).phase == Begun then
      Set(s, n, At(s, n).(phase := Accepting))
    else s
  }

  predicate MayFailAccept(s: Book, n: nat) {
    && Owned(s, n) && At(s, n).phase == Accepting && !At(s, n).acked
    && !(s.holder.Acking? && s.holder.n == n)
  }

  function DoFailAccept(s: Book, n: nat): Book {
    if MayFailAccept(s, n) then Set(s, n, At(s, n).(phase := Unknown)).(unknown := true) else s
  }

  function DoLockAck(w: World, s: Book, n: nat, accept: Link): Book {
    if s.holder == Free && MayFailAccept(s, n) then
      if Available(s) then
        var path := RecordPath(Directory(w.cat.h, n, At(s, n).key), 0);
        s.(holder := Acking(n, Ref(path, accept.size, accept.sha)))
      else DoFailAccept(s, n)
    else s
  }

  function DoPublishAck(w: World, s: Book, o: Publication): Book {
    if s.holder.Acking? && Owned(s, s.holder.n) then
      var n := s.holder.n;
      var (t, ok) := Publish(w, s, AcceptAck(n, s.holder.accept), o);
      if ok then Set(t, n, At(t, n).(acked := true)).(accepted := t.accepted + 1, holder := Free)
      else Set(t, n, At(t, n).(phase := Unknown)).(holder := Free)
    else s
  }

  function DoCompleteAccept(s: Book, n: nat): Book {
    if Owned(s, n) && At(s, n).phase == Accepting && At(s, n).acked then
      Set(s, n, At(s, n).(phase := Accepted))
    else s
  }

  // ----- finish -----

  function DoStartFinish(s: Book, n: nat): Book {
    if !s.closed && !s.closing && Owned(s, n) && At(s, n).decision == New && At(s, n).phase == Accepted then
      Set(s, n, At(s, n).(phase := Finishing))
    else s
  }

  predicate InFinish(s: Book, n: nat) {
    && Owned(s, n) && At(s, n).phase == Finishing && !At(s, n).ended
    && !(s.holder.Ending? && s.holder.n == n)
  }

  function DoReturnFinish(s: Book, n: nat, poisoned: bool): Book {
    if InFinish(s, n) then Set(s, n, At(s, n).(phase := Accepted)).(unknown := s.unknown || poisoned) else s
  }

  function DoFailFinish(s: Book, n: nat): Book {
    if InFinish(s, n) then Set(s, n, At(s, n).(phase := Unknown)).(unknown := true) else s
  }

  function DoLockEnd(w: World, s: Book, n: nat, outcome: Outcome, raws: seq<Bytes>): Book {
    if s.holder == Free && InFinish(s, n) then
      var p := EndPayload(w, n, At(s, n), outcome, raws);
      if Available(s) && p.Some? then s.(holder := Ending(n, p.value)) else DoFailFinish(s, n)
    else s
  }

  function DoPublishEnd(w: World, s: Book, o: Publication): Book {
    if s.holder.Ending? && Owned(s, s.holder.n) then
      var n := s.holder.n;
      var (t, ok) := Publish(w, s, s.holder.end, o);
      if ok then Set(t, n, At(t, n).(ended := true)).(holder := Free)
      else Set(t, n, At(t, n).(phase := Unknown)).(holder := Free)
    else s
  }

  function DoCompleteFinish(s: Book, n: nat): Book {
    if Owned(s, n) && At(s, n).phase == Finishing && At(s, n).ended then
      Set(s, n, At(s, n).(phase := Ended))
    else s
  }

  function DoRetire(s: Book, n: nat): Book {
    if Owned(s, n) && At(s, n).active && At(s, n).phase in {Ended, Unknown} then
      Set(s, n, At(s, n).(active := false)).(active := s.active - 1)
    else s
  }

  // ----- close -----

  function DoStartClose(s: Book): Book {
    if s.holder == Free && !s.closed && s.active == 0 then s.(closing := true, holder := Closing) else s
  }

  predicate AllEnded(s: Book) {
    forall i | 0 <= i < |s.attempts| :: s.attempts[i].phase == Ended
  }

  function DoCheckClose(s: Book): Book {
    if s.holder == Closing then
      if !s.unknown && AllEnded(s) then s.(holder := Sealing)
      else s.(unknown := true, closed := true, holder := Cleaning(false))
    else s
  }

  function DoPublishClose(w: World, s: Book, o: Publication): Book {
    if s.holder == Sealing then
      var (t, ok) := Publish(w, s, InstanceEnd(|s.attempts|, s.accepted, s.rejected), o);
      t.(closed := true, holder := Cleaning(ok))
    else s
  }

  /** The publication is known and every resource closed: only then does `close` return. */
  function DoCleanup(s: Book, ok: bool): Book {
    if s.holder.Cleaning? then
      s.(unknown := s.unknown || !ok, holder := Free, returned := s.returned || (s.holder.known && ok))
    else s
  }

  function DoOpen(w: World, s: Book, o: Publication): Book {
    if s.holder == Opening then
      var (t, ok) := Publish(w, s, w.opening, o);
      if ok then t.(holder := Free) else t.(closed := true, holder := Free)
    else s
  }

  /** One region; an event whose guard does not hold leaves the state as it is. */
  function Next(w: World, s: Book, e: Event): Book {
    match e
    case Open(o) => DoOpen(w, s, o)
    case Decide(key, tool, arguments) => DoDecide(w, s, key, tool, arguments)
    case Reserve => DoReserve(w, s)
    case PublishBegin(o) => DoPublishBegin(w, s, o)
    case PublishRejection(o) => DoPublishRejection(w, s, o)
    case StartAccept(n) => DoStartAccept(s, n)
    case FailAccept(n) => DoFailAccept(s, n)
    case LockAck(n, accept) => DoLockAck(w, s, n, accept)
    case PublishAck(o) => DoPublishAck(w, s, o)
    case CompleteAccept(n) => DoCompleteAccept(s, n)
    case StartFinish(n) => DoStartFinish(s, n)
    case ReturnFinish(n, poisoned) => DoReturnFinish(s, n, poisoned)
    case FailFinish(n) => DoFailFinish(s, n)
    case LockEnd(n, outcome, raws) => DoLockEnd(w, s, n, outcome, raws)
    case PublishEnd(o) => DoPublishEnd(w, s, o)
    case CompleteFinish(n) => DoCompleteFinish(s, n)
    case Retire(n) => DoRetire(s, n)
    case Poison => if s.holder == Opening then s else s.(unknown := true)
    case StartClose => DoStartClose(s)
    case CheckClose => DoCheckClose(s)
    case PublishClose(o) => DoPublishClose(w, s, o)
    case Cleanup(ok) => DoCleanup(s, ok)
  }

  /** Any finite interleaving, from any state. */
  function Run(w: World, s: Book, events: seq<Event>): Book {
    if events == [] then s else Next(w, Run(w, s, events[..|events| - 1]), events[|events| - 1])
  }
}
