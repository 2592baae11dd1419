/** The attempt catalog: its records, and the independent verifier of its chain. */
module Catalog {

  import opened Base
  import opened Names

  datatype Decision = New | Rejected

  datatype Reason = NoReason | Duplicate | ActiveLimit | SeenLimit | ByteLimit

  datatype Disposition = Refused | Complete | Failed

  /** `platform volume_serial file_id owner_sid principal_sid acl_sha256`, syntax apart. */
  datatype Identity = Identity(volume: string, file: string, owner: string, principal: string, acl: string)

  datatype Payload =
    | InstanceBegin(config: Ref, freeze: Ref, root: Identity)
    | AttemptBegin(attempt: nat, key: Key, tool: string, arguments: string, decision: Decision, reason: Reason)
    | AcceptAck(attempt: nat, accept: Ref)
    | AttemptEnd(attempt: nat, disposition: Disposition, outcome: Option<Outcome>, head: Option<Ref>,
                 records: nat, events: nat, bytes: nat)
    | InstanceEnd(attempts: nat, accepted: nat, rejected: nat)

  datatype Record = Record(sequence: nat, previous: Option<Link>, instance: string, payload: Payload)

  /** A catalog codec: its budgets, the JSON printer and reader, and the depth gate. */
  datatype Codec = Codec(
    h: Hashing,
    print_: Record -> Bytes,
    loads: Bytes -> Option<Record>,
    shallow: Bytes -> bool,
    maxRecords: nat,
    maxRecordBytes: nat,
    maxTotalBytes: nat)

  /** `json.loads` inverts `json.dumps`. */
  ghost predicate Lossless(c: Codec) {
    forall r :: c.loads(c.print_(r)) == Some(r)
  }

  predicate RefShape(r: Ref) {
    r.path != "" && IsSha(r.sha)
  }

  predicate PayloadShape(p: Payload, instance: string) {
    match p
    case InstanceBegin(config, freeze, root) => RefShape(config) && RefShape(freeze) && IsSha(root.acl)
    case AttemptBegin(attempt, key, tool, arguments, decision, reason) =>
      && 1 <= attempt <= 999999999999
      && key.instance == instance && key.instance != "" && key.session != ""
      && tool != "" && IsSha(arguments)
      && (decision == New <==> reason == NoReason)
    case AcceptAck(attempt, accept) => 1 <= attempt && RefShape(accept)
    case AttemptEnd(attempt, disposition, outcome, head, records, events, bytes) =>
      && 1 <= attempt
      && (if disposition == Refused then
            outcome == None && head == None && records == events == bytes == 0
          else
            && outcome.Some? && head.Some? && RefShape(head.value)
            && records <= 100000000 && records == events + 2 && bytes >= head.value.size > 0)
    case InstanceEnd(attempts, accepted, rejected) => attempts == accepted + rejected
  }

  /** The local check of one record: position, previous link and payload. */
  predicate WellFormed(r: Record) {
    && r.sequence <= 99999999
    && (r.sequence == 0 <==> r.payload.InstanceBegin?)
    && (r.sequence == 0 ==> r.previous == None)
    && (r.sequence > 0 ==> r.previous.Some? && IsSha(r.previous.value.sha))
    && PayloadShape(r.payload, r.instance)
  }

  function Parse(c: Codec, raw: Bytes): Option<Record> {
    if |raw| <= c.maxRecordBytes && |raw| <= c.maxTotalBytes && c.shallow(raw) then
      match c.loads(raw)
      case Some(r) => if WellFormed(r) && c.print_(r) == raw then Some(r) else None
      case None => None
    else None
  }

  function Encode(c: Codec, r: Record): Option<Bytes> {
    var raw := c.print_(r);
    if WellFormed(r) && Parse(c, raw).Some? then Some(raw) else None
  }

  lemma EncodeParses(c: Codec, r: Record)
    requires Lossless(c) && Encode(c, r).Some?
    ensures Parse(c, Encode(c, r).value) == Some(r)
  {
    assert c.loads(c.print_(r)) == Some(r);
  }

  /** A parsed record's bytes are its own canonical text, within every limit. */
  lemma ParseIsCanonical(c: Codec, raw: Bytes)
    requires Parse(c, raw).Some?
    ensures raw == c.print_(Parse(c, raw).value) && c.shallow(raw) && WellFormed(Parse(c, raw).value)
    ensures |raw| <= c.maxRecordBytes && |raw| <= c.maxTotalBytes
  {
  }

  // ----- The verifier's loop state and its step -----

  datatype Entry = Entry(decision: Decision, directory: string, acked: bool, ended: bool)

  datatype State = State(
    head: Option<Link>,
    instance: Option<string>,
    total: nat,
    count: nat,
    accepted: nat,
    rejected: nat,
    attempts: seq<Entry>,
    seen: set<Bytes>,
    ended: bool)

  const START := State(None, None, 0, 0, 0, 0, [], {}, false)

  // The verifier keeps a dictionary from attempt number to entry. Since a begin is accepted
  // only with the next number, its keys are always 1, 2, ..., and attempt `n` is `attempts[n - 1]`.
  predicate Has(s: State, n: nat) {
    1 <= n <= |s.attempts|
  }

  function StepPayload(c: Codec, s: State, p: Payload): Option<State> {
    match p
    case InstanceBegin(_, _, _) => Some(s)
    case AttemptBegin(n, key, _, _, decision, reason) =>
      var k := c.h.keyBytes(key);
      if n == |s.attempts| + 1 && (reason == Duplicate <==> k in s.seen)
         && (k in s.seen ==> decision == Rejected) then
        Some(s.(attempts := s.attempts + [Entry(decision, Directory(c.h, n, key), false, false)],
                seen := s.seen + {k},
                rejected := if decision == Rejected then s.rejected + 1 else s.rejected))
      else None
    case AcceptAck(n, accept) =>
      if Has(s, n) && AckFits(s.attempts[n - 1], accept) then
        Some(s.(attempts := s.attempts[n - 1 := s.attempts[n - 1].(acked := true)], accepted := s.accepted + 1))
      else None
    case AttemptEnd(n, disposition, _, head, records, _, _) =>
      if Has(s, n) && EndFits(s.attempts[n - 1], disposition, head, records) then
        Some(s.(attempts := s.attempts[n - 1 := s.attempts[n - 1].(ended := true)]))
      else None
    case InstanceEnd(attempts, accepted, rejected) =>
      if (forall i | 0 <= i < |s.attempts| :: s.attempts[i].ended)
         && attempts == |s.attempts| && accepted == s.accepted && rejected == s.rejected then
        Some(s.(ended := true))
      else None
  }

  predicate AckFits(e: Entry, accept: Ref) {
    !e.ended && e.decision == New && !e.acked && accept.path == RecordPath(e.directory, 0)
  }

  predicate EndFits(e: Entry, disposition: Disposition, head: Option<Ref>, records: nat) {
    && !e.ended
    && (disposition == Refused <==> e.decision == Rejected)
    && (e.decision == New ==>
          e.acked && head.Some? && records > 0 && head.value.path == RecordPath(e.directory, records - 1))
  }

  function Step(c: Codec, s: State, raw: Bytes): Option<State> {
    if s.count + 1 <= c.maxRecords && !s.ended then
      match Parse(c, raw)
      case None => None
      case Some(row) =>
        if s.total + |raw| <= c.maxTotalBytes && row.sequence == s.count && row.previous == s.head
           && (s.instance == None || s.instance == Some(row.instance)) then
          match StepPayload(c, s, row.payload)
          case None => None
          case Some(t) => Some(t.(head := Some(LinkOf(c.h, raw)), instance := Some(row.instance),
                                  total := s.total + |raw|, count := s.count + 1))
        else None
    else None
  }

  /** The state after the loop has read `raws`, or `None` where it refused. */
  function Scan(c: Codec, raws: seq<Bytes>): Option<State> {
    if raws == [] then Some(START)
    else
      match Scan(c, raws[..|raws| - 1])
      case None => None
      case Some(s) => Step(c, s, raws[|raws| - 1])
  }

  lemma ScanSnoc(c: Codec, raws: seq<Bytes>, s: State, raw: Bytes)
    requires Scan(c, raws) == Some(s)
    ensures Scan(c, raws + [raw]) == Step(c, s, raw)
  {
    assert (raws + [raw])[..|raws|] == raws;
  }

  datatype Status = Incomplete | ClosedKnown

  datatype Summary = Summary(status: Status, instance: Option<string>, head: Option<Link>, count: nat, total: nat,
                             attempts: nat, accepted: nat, rejected: nat)

  function Summarize(s: State): Summary {
    Summary(if s.ended then ClosedKnown else Incomplete, s.instance, s.head, s.count, s.total,
            |s.attempts|, s.accepted, s.rejected)
  }

  /** `CatalogCodec.verify`: one pass over the records, refusing at the first bad one. */
  method Verify(c: Codec, raws: seq<Bytes>) returns (r: Option<Summary>)
    ensures r == if raws == [] || Scan(c, raws) == None then None else Some(Summarize(Scan(c, raws).value))
  {
    var s := START;
    var i := 0;
    while i < |raws|
      invariant 0 <= i <= |raws|
      invariant Scan(c, raws[..i]) == Some(s)
    {
      assert raws[..i + 1][..i] == raws[..i];
      var t := Step(c, s, raws[i]);
      if t == None {
        ScanPrefix(c, raws, i + 1);
        return None;
      }
      s := t.value;
      i := i + 1;
    }
    assert raws[..i] == raws;
    r := if raws == [] then None else Some(Summarize(s));
  }

  // ----- Prefixes and heads -----

  /** A refused prefix refuses the chain; an accepted chain has only open, accepted proper prefixes. */
  lemma {:induction false} ScanPrefix(c: Codec, raws: seq<Bytes>, k: nat)
    requires k <= |raws|
    ensures Scan(c, raws[..k]) == None ==> Scan(c, raws) == None
    ensures k < |raws| && Scan(c, raws).Some? ==> Scan(c, raws[..k]).Some? && !Scan(c, raws[..k]).value.ended
  {
    if k == |raws| {
      assert raws[..k] == raws;
    } else {
      var p := raws[..|raws| - 1];
      ScanPrefix(c, p, k);
      assert p[..k] == raws[..k];
    }
  }

  /** The last record is well linked: it names its own number and the head of the chain before it. */
  lemma LastRecord(c: Codec, raws: seq<Bytes>)
    requires Scan(c, raws).Some?
    ensures Scan(c, raws).value.count == |raws|
    ensures raws == [] ==> Scan(c, raws).value.head == None
    ensures raws != [] ==>
              var n := |raws| - 1;
              && Scan(c, raws[..n]).Some? && Parse(c, raws[n]).Some?
              && Scan(c, raws).value.head == Some(LinkOf(c.h, raws[n]))
              && Parse(c, raws[n]).value.sequence == n
              && Parse(c, raws[n]).value.previous == Scan(c, raws[..n]).value.head
  {
  }

  // ----- What an accepted catalog says -----

  /** One attempt as the records tell it: its begin, and its acknowledgement and end if they are there. */
  datatype Life = Life(begin: Payload, ack: Option<Payload>, end: Option<Payload>)

  /** The `begins`, `acks` and `ends` tables every reader collects, attempt `n` at index `n - 1`. */
  function Lives(c: Codec, raws: seq<Bytes>): seq<Life> {
    if raws == [] then []
    else
      var lives := Lives(c, raws[..|raws| - 1]);
      match Parse(c, raws[|raws| - 1])
      case None => lives
      case Some(row) => Told(lives, row.payload)
  }

  function Told(lives: seq<Life>, p: Payload): seq<Life> {
    if p.AttemptBegin? then lives + [Life(p, None, None)]
    else if p.AcceptAck? && 1 <= p.attempt <= |lives| then
      lives[p.attempt - 1 := lives[p.attempt - 1].(ack := Some(p))]
    else if p.AttemptEnd? && 1 <= p.attempt <= |lives| then
      lives[p.attempt - 1 := lives[p.attempt - 1].(end := Some(p))]
    else lives
  }

  predicate IsAcked(l: Life) { l.ack.Some? }

  predicate IsEnded(l: Life) { l.end.Some? }

  predicate IsRefused(l: Life) { l.begin.AttemptBegin? && l.begin.decision == Rejected }

  function Count<T>(xs: seq<T>, p: T -> bool): nat {
    if xs == [] then 0 else Count(xs[..|xs| - 1], p) + (if p(xs[|xs| - 1]) then 1 else 0)
  }

  lemma {:induction false} CountUpdate<T>(xs: seq<T>, p: T -> bool, i: nat, x: T)
    requires i < |xs|
    ensures Count(xs[i := x], p) == Count(xs, p) - (if p(xs[i]) then 1 else 0) + (if p(x) then 1 else 0)
  {
    var n := |xs| - 1;
    if i == n {
      assert xs[i := x][..n] == xs[..n];
    } else {
      CountUpdate(xs[..n], p, i, x);
      assert xs[i := x][..n] == xs[..n][i := x];
    }
  }

  lemma {:induction false} CountAppend<T>(xs: seq<T>, p: T -> bool, x: T)
    ensures Count(xs + [x], p) == Count(xs, p) + (if p(x) then 1 else 0)
  {
    assert (xs + [x])[..|xs|] == xs;
  }

  lemma {:induction false} CountBound<T>(xs: seq<T>, p: T -> bool)
    ensures Count(xs, p) <= |xs|
    ensures Count(xs, p) == |xs| <==> forall i | 0 <= i < |xs| :: p(xs[i])
  {
    if xs != [] {
      CountBound(xs[..|xs| - 1], p);
      assert forall i | 0 <= i < |xs| - 1 :: xs[..|xs| - 1][i] == xs[i];
    }
  }

  /** What the verifier has checked of attempt `n` by the time its records are read. */
  ghost predicate LifeFits(h: Hashing, n: nat, l: Life, e: Entry) {
    && l.begin.AttemptBegin? && l.begin.attempt == n
    && e == Entry(l.begin.decision, Directory(h, n, l.begin.key), l.ack.Some?, l.end.Some?)
    && (l.ack.Some? ==>
          var a := l.ack.value;
          a.AcceptAck? && a.attempt == n && e.decision == New && a.accept.path == RecordPath(e.directory, 0))
    && (l.end.Some? ==>
          var z := l.end.value;
          && z.AttemptEnd? && z.attempt == n && PayloadShape(z, "")
          && (z.disposition == Refused <==> e.decision == Rejected)
          && (e.decision == New ==> e.acked && z.head.value.path == RecordPath(e.directory, z.records - 1)))
  }

  /** The verifier's tables and counters are exactly what the `n` accepted records say. */
  ghost predicate Reflects(h: Hashing, s: State, n: nat, lives: seq<Life>) {
    && |lives| == |s.attempts|
    && (forall i | 0 <= i < |lives| :: LifeFits(h, i + 1, lives[i], s.attempts[i]))
    && s.accepted == Count(lives, IsAcked) && s.rejected == Count(lives, IsRefused) && s.count == n
    && n == (if n == 0 then 0 else 1) + |lives| + Count(lives, IsAcked) + Count(lives, IsEnded)
            + (if s.ended then 1 else 0)
    && (s.ended ==> forall i | 0 <= i < |lives| :: IsEnded(lives[i]))
  }

  lemma {:induction false} ScanReflects(c: Codec, raws: seq<Bytes>)
    requires Scan(c, raws).Some?
    ensures Reflects(c.h, Scan(c, raws).value, |raws|, Lives(c, raws))
  {
    if raws != [] {
      var p, raw := raws[..|raws| - 1], raws[|raws| - 1];
      ScanReflects(c, p);
      var s, row := Scan(c, p).value, Parse(c, raw).value;
      if |p| > 0 { PayloadReflects(c, s, |p|, Lives(c, p), row.payload, row.instance); }
    }
  }

  /** The verifier's entry of an attempt fits what the records tell of it. */
  lemma EntryReflects(c: Codec, raws: seq<Bytes>, n: nat)
    requires Scan(c, raws).Some? && 1 <= n <= |Lives(c, raws)|
    ensures |Scan(c, raws).value.attempts| == |Lives(c, raws)|
    ensures LifeFits(c.h, n, Lives(c, raws)[n - 1], Scan(c, raws).value.attempts[n - 1])
  {
    hide Scan, Lives, LifeFits, Count;
    ScanReflects(c, raws);
    assert LifeFits(c.h, (n - 1) + 1, Lives(c, raws)[n - 1], Scan(c, raws).value.attempts[n - 1]);
  }

  lemma PayloadReflects(c: Codec, s: State, n: nat, lives: seq<Life>, p: Payload, instance: string)
    requires Reflects(c.h, s, n, lives) && n > 0 && !s.ended && !p.InstanceBegin?
    requires StepPayload(c, s, p).Some? && PayloadShape(p, instance)
    ensures Reflects(c.h, StepPayload(c, s, p).value.(count := n + 1), n + 1, Told(lives, p))
  {
    hide Directory, RecordPath;
    if p.AttemptBegin? {
      BeginReflects(c, s, n, lives, p, instance);
    } else if p.AcceptAck? {
      UpdateReflects(c.h, s, n, lives, p.attempt - 1, lives[p.attempt - 1].(ack := Some(p)),
                     StepPayload(c, s, p).value.(count := n + 1));
    } else if p.AttemptEnd? {
      UpdateReflects(c.h, s, n, lives, p.attempt - 1, lives[p.attempt - 1].(end := Some(p)),
                     StepPayload(c, s, p).value.(count := n + 1));
    } else {
      assert forall i | 0 <= i < |lives| :: LifeFits(c.h, i + 1, lives[i], s.attempts[i]) && IsEnded(lives[i]);
    }
  }

  lemma BeginReflects(c: Codec, s: State, n: nat, lives: seq<Life>, p: Payload, instance: string)
    requires Reflects(c.h, s, n, lives) && n > 0 && !s.ended && p.AttemptBegin?
    requires StepPayload(c, s, p).Some? && PayloadShape(p, instance)
    ensures Reflects(c.h, StepPayload(c, s, p).value.(count := n + 1), n + 1, Told(lives, p))
  {
    hide Directory;
    CountAppend(lives, IsAcked, Life(p, None, None));
    CountAppend(lives, IsEnded, Life(p, None, None));
    CountAppend(lives, IsRefused, Life(p, None, None));
  }

  lemma UpdateReflects(h: Hashing, s: State, n: nat, lives: seq<Life>, i: nat, l: Life, t: State)
    requires Reflects(h, s, n, lives) && n > 0 && !s.ended
    requires i < |lives| && |t.attempts| == |s.attempts| && t.attempts == s.attempts[i := t.attempts[i]]
    requires LifeFits(h, i + 1, l, t.attempts[i]) && l.begin == lives[i].begin
    requires IsAcked(lives[i]) ==> IsAcked(l)
    requires IsEnded(lives[i]) ==> IsEnded(l)
    requires t.count == n + 1 && !t.ended && t.rejected == s.rejected
    requires t.accepted == s.accepted + (if IsAcked(l) && !IsAcked(lives[i]) then 1 else 0)
    requires (IsAcked(l) && !IsAcked(lives[i])) != (IsEnded(l) && !IsEnded(lives[i]))
    ensures Reflects(h, t, n + 1, lives[i := l])
  {
    CountUpdate(lives, IsAcked, i, l);
    CountUpdate(lives, IsEnded, i, l);
    CountUpdate(lives, IsRefused, i, l);
  }

  /** An accepted catalog of `a` attempts has at most `3a + 2` records. */
  lemma CatalogSize(c: Codec, raws: seq<Bytes>)
    requires Scan(c, raws).Some?
    ensures var s := Scan(c, raws).value;
            |raws| <= 3 * |s.attempts| + 2 && (!s.ended ==> |raws| <= 3 * |s.attempts| + 1)
  {
    ScanReflects(c, raws);
    CountBound(Lives(c, raws), IsAcked);
    CountBound(Lives(c, raws), IsEnded);
  }

  lemma {:induction false} CountSplit<T>(xs: seq<T>, p: T -> bool, q: T -> bool)
    requires forall i | 0 <= i < |xs| :: p(xs[i]) <==> !q(xs[i])
    ensures Count(xs, p) + Count(xs, q) == |xs|
  {
    if xs != [] { CountSplit(xs[..|xs| - 1], p, q); }
  }

  /** Every attempt of a CLOSED_KNOWN catalog ended, and was either refused or acknowledged. */
  lemma ClosedBalances(c: Codec, raws: seq<Bytes>)
    requires Scan(c, raws).Some? && Scan(c, raws).value.ended
    ensures var s := Scan(c, raws).value;
            && s.accepted + s.rejected == |s.attempts|
            && forall i | 0 <= i < |s.attempts| :: s.attempts[i].ended
  {
    ScanReflects(c, raws);
    var s, lives := Scan(c, raws).value, Lives(c, raws);
    forall i | 0 <= i < |lives| ensures s.attempts[i].ended && (IsAcked(lives[i]) <==> !IsRefused(lives[i])) {
      assert LifeFits(c.h, i + 1, lives[i], s.attempts[i]) && IsEnded(lives[i]);
    }
    CountSplit(lives, IsAcked, IsRefused);
  }
}
