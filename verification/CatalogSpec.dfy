/**
 * What a legal catalog is, said record by record over all earlier records and without any table; the
 * one-pass verifier with its tables and counters accepts exactly the legal catalogs.
 */
module CatalogSpec {

  import opened Base
  import opened Names
  import opened Catalog
  import Archive

  const NOTHING := InstanceEnd(0, 0, 0)

  /** The payloads of the records; a record that does not parse has none to tell. */
  function Payloads(c: Codec, raws: seq<Bytes>): (ps: seq<Payload>)
    ensures |ps| == |raws|
  {
    seq(|raws|, i requires 0 <= i < |raws| =>
      match Parse(c, raws[i])
      case None => NOTHING
      case Some(r) => r.payload)
  }

  predicate Begins(p: Payload, n: nat) { p.AttemptBegin? && p.attempt == n }

  predicate Acks(p: Payload, n: nat) { p.AcceptAck? && p.attempt == n }

  predicate Ends(p: Payload, n: nat) { p.AttemptEnd? && p.attempt == n }

  predicate IsBegin(p: Payload) { p.AttemptBegin? }

  predicate IsAck(p: Payload) { p.AcceptAck? }

  predicate IsRejection(p: Payload) { p.AttemptBegin? && p.decision == Rejected }

  ghost predicate HasBegin(ps: seq<Payload>, n: nat) { exists i | 0 <= i < |ps| :: Begins(ps[i], n) }

  ghost predicate HasAck(ps: seq<Payload>, n: nat) { exists i | 0 <= i < |ps| :: Acks(ps[i], n) }

  ghost predicate HasEnd(ps: seq<Payload>, n: nat) { exists i | 0 <= i < |ps| :: Ends(ps[i], n) }

  ghost predicate HasKey(h: Hashing, ps: seq<Payload>, key: Key) {
    exists i | 0 <= i < |ps| :: ps[i].AttemptBegin? && h.keyBytes(ps[i].key) == h.keyBytes(key)
  }

  /** The begin of `n` that an ACK may follow: NEW, neither acknowledged nor ended. */
  ghost predicate MayAck(h: Hashing, ps: seq<Payload>, n: nat, accept: Ref) {
    && !HasAck(ps, n) && !HasEnd(ps, n)
    && exists i | 0 <= i < |ps| ::
         Begins(ps[i], n) && ps[i].decision == New && accept.path == RecordPath(Directory(h, n, ps[i].key), 0)
  }

  ghost predicate MayEnd(h: Hashing, ps: seq<Payload>, p: Payload)
    requires p.AttemptEnd?
  {
    var n := p.attempt;
    && !HasEnd(ps, n)
    && exists i | 0 <= i < |ps| ::
         && Begins(ps[i], n)
         && (p.disposition == Refused <==> ps[i].decision == Rejected)
         && (ps[i].decision == New ==>
               && HasAck(ps, n) && p.head.Some? && p.records > 0
               && p.head.value.path == RecordPath(Directory(h, n, ps[i].key), p.records - 1))
  }

  /** `p` may follow the payloads `ps`. */
  ghost predicate Follows(h: Hashing, ps: seq<Payload>, p: Payload) {
    match p
    case InstanceBegin(_, _, _) => true
    case AttemptBegin(n, key, _, _, _, reason) => n == Count(ps, IsBegin) + 1 && (reason == Duplicate <==> HasKey(h, ps, key))
    case AcceptAck(n, accept) => MayAck(h, ps, n, accept)
    case AttemptEnd(_, _, _, _, _, _, _) => MayEnd(h, ps, p)
    case InstanceEnd(attempts, accepted, rejected) =>
      && (forall n | HasBegin(ps, n) :: HasEnd(ps, n))
      && attempts == Count(ps, IsBegin) && accepted == Count(ps, IsAck) && rejected == Count(ps, IsRejection)
  }

  /** Record `i` parses, has its number, names the bytes before it, and keeps the first record's instance. */
  ghost predicate Linked(c: Codec, raws: seq<Bytes>, i: nat)
    requires i < |raws|
  {
    Parse(c, raws[i]).Some? && Parse(c, raws[0]).Some? &&
    var r := Parse(c, raws[i]).value;
    && r.sequence == i && r.previous == (if i == 0 then None else Some(LinkOf(c.h, raws[i - 1])))
    && r.instance == Parse(c, raws[0]).value.instance
  }

  ghost predicate Lawful(c: Codec, raws: seq<Bytes>, i: nat)
    requires i < |raws|
  {
    && Linked(c, raws, i)
    && Follows(c.h, Payloads(c, raws)[..i], Payloads(c, raws)[i])
    && (Payloads(c, raws)[i].InstanceEnd? ==> i == |raws| - 1)
  }

  ghost predicate Legal(c: Codec, raws: seq<Bytes>) {
    && |raws| <= c.maxRecords && Archive.TotalBytes(raws) <= c.maxTotalBytes
    && forall i | 0 <= i < |raws| :: Lawful(c, raws, i)
  }

  // ----- The tables tell the same -----

  ghost predicate EntryTells(h: Hashing, ps: seq<Payload>, n: nat, e: Entry) {
    && (exists i | 0 <= i < |ps| :: Begins(ps[i], n) && e.decision == ps[i].decision && e.directory == Directory(h, n, ps[i].key))
    && (forall i | 0 <= i < |ps| && Begins(ps[i], n) :: e.decision == ps[i].decision && e.directory == Directory(h, n, ps[i].key))
    && (e.acked <==> HasAck(ps, n)) && (e.ended <==> HasEnd(ps, n))
  }

  ghost predicate Tells(h: Hashing, ps: seq<Payload>, s: State) {
    && |s.attempts| == Count(ps, IsBegin) && s.accepted == Count(ps, IsAck) && s.rejected == Count(ps, IsRejection)
    && (forall i | 0 <= i < |s.attempts| :: EntryTells(h, ps, i + 1, s.attempts[i]))
    && (forall i | 0 <= i < |ps| && ps[i].AttemptBegin? :: 1 <= ps[i].attempt <= |s.attempts| && h.keyBytes(ps[i].key) in s.seen)
    && (forall i | 0 <= i < |ps| && (ps[i].AcceptAck? || ps[i].AttemptEnd?) :: 1 <= ps[i].attempt <= |s.attempts|)
    && (forall k | k in s.seen :: exists i | 0 <= i < |ps| :: ps[i].AttemptBegin? && h.keyBytes(ps[i].key) == k)
  }

  lemma KeySeen(h: Hashing, ps: seq<Payload>, s: State, key: Key)
    requires Tells(h, ps, s)
    ensures HasKey(h, ps, key) <==> h.keyBytes(key) in s.seen
  {
  }

  lemma KnownAttempt(h: Hashing, ps: seq<Payload>, s: State, n: nat)
    requires Tells(h, ps, s)
    ensures HasBegin(ps, n) <==> 1 <= n <= |s.attempts|
    ensures 1 <= n <= |s.attempts| ==> EntryTells(h, ps, n, s.attempts[n - 1])
  {
    if 1 <= n <= |s.attempts| { assert EntryTells(h, ps, (n - 1) + 1, s.attempts[n - 1]); }
  }

  /** One record: the tables admit it exactly when it may follow. */
  lemma AckAgrees(h: Hashing, ps: seq<Payload>, s: State, n: nat, accept: Ref)
    requires Tells(h, ps, s)
    ensures MayAck(h, ps, n, accept) <==> Has(s, n) && AckFits(s.attempts[n - 1], accept)
  {
    hide Directory, RecordPath;
    KnownAttempt(h, ps, s, n);
    if MayAck(h, ps, n, accept) { assert HasBegin(ps, n); }
  }

  lemma EndAgrees(h: Hashing, ps: seq<Payload>, s: State, p: Payload)
    requires Tells(h, ps, s) && p.AttemptEnd?
    ensures MayEnd(h, ps, p) <==> Has(s, p.attempt) && EndFits(s.attempts[p.attempt - 1], p.disposition, p.head, p.records)
  {
    hide Directory, RecordPath;
    KnownAttempt(h, ps, s, p.attempt);
    if MayEnd(h, ps, p) { assert HasBegin(ps, p.attempt); }
  }

  lemma CloseAgrees(h: Hashing, ps: seq<Payload>, s: State)
    requires Tells(h, ps, s)
    ensures (forall n | HasBegin(ps, n) :: HasEnd(ps, n)) <==> forall i | 0 <= i < |s.attempts| :: s.attempts[i].ended
  {
    if forall n | HasBegin(ps, n) :: HasEnd(ps, n) {
      forall i | 0 <= i < |s.attempts| ensures s.attempts[i].ended {
        KnownAttempt(h, ps, s, i + 1);
      }
    }
    if forall i | 0 <= i < |s.attempts| :: s.attempts[i].ended {
      forall n | HasBegin(ps, n) ensures HasEnd(ps, n) {
        KnownAttempt(h, ps, s, n);
        assert s.attempts[n - 1].ended;
      }
    }
  }

  lemma PayloadAgrees(c: Codec, ps: seq<Payload>, s: State, p: Payload, instance: string)
    requires Tells(c.h, ps, s) && PayloadShape(p, instance)
    ensures StepPayload(c, s, p).Some? <==> Follows(c.h, ps, p)
  {
    hide Tells, MayAck, MayEnd, AckFits, EndFits, Count, HasKey, HasBegin, HasEnd;
    match p
    case InstanceBegin(_, _, _) =>
    case AttemptBegin(n, key, _, _, _, _) =>
      KeySeen(c.h, ps, s, key);
      Counted(c.h, ps, s);
    case AcceptAck(n, accept) => AckAgrees(c.h, ps, s, n, accept);
    case AttemptEnd(_, _, _, _, _, _, _) => EndAgrees(c.h, ps, s, p);
    case InstanceEnd(_, _, _) =>
      CloseAgrees(c.h, ps, s);
      Counted(c.h, ps, s);
  }

  lemma Counted(h: Hashing, ps: seq<Payload>, s: State)
    requires Tells(h, ps, s)
    ensures |s.attempts| == Count(ps, IsBegin) && s.accepted == Count(ps, IsAck) && s.rejected == Count(ps, IsRejection)
  {
  }

  // ----- The tables keep telling -----

  lemma HasGrows(ps: seq<Payload>, p: Payload, n: nat)
    ensures HasBegin(ps + [p], n) <==> HasBegin(ps, n) || Begins(p, n)
    ensures HasAck(ps + [p], n) <==> HasAck(ps, n) || Acks(p, n)
    ensures HasEnd(ps + [p], n) <==> HasEnd(ps, n) || Ends(p, n)
  {
    var all := ps + [p];
    assert all[|ps|] == p;
    assert forall i | 0 <= i < |ps| :: all[i] == ps[i];
    if HasBegin(ps, n) { var i :| 0 <= i < |ps| && Begins(ps[i], n); assert Begins(all[i], n); }
    if HasAck(ps, n) { var i :| 0 <= i < |ps| && Acks(ps[i], n); assert Acks(all[i], n); }
    if HasEnd(ps, n) { var i :| 0 <= i < |ps| && Ends(ps[i], n); assert Ends(all[i], n); }
  }

  /** A record of another kind or number leaves an entry as it was, but for the mark it sets. */
  lemma EntryGrows(h: Hashing, ps: seq<Payload>, p: Payload, n: nat, e: Entry, f: Entry)
    requires EntryTells(h, ps, n, e) && !Begins(p, n)
    requires f == e.(acked := e.acked || Acks(p, n), ended := e.ended || Ends(p, n))
    ensures EntryTells(h, ps + [p], n, f)
  {
    hide Directory;
    HasGrows(ps, p, n);
    var all := ps + [p];
    var i :| 0 <= i < |ps| && Begins(ps[i], n) && e.decision == ps[i].decision && e.directory == Directory(h, n, ps[i].key);
    assert all[i] == ps[i];
  }

  lemma EntryStarts(h: Hashing, ps: seq<Payload>, p: Payload, n: nat)
    requires Begins(p, n) && !HasBegin(ps, n) && !HasAck(ps, n) && !HasEnd(ps, n)
    ensures EntryTells(h, ps + [p], n, Entry(p.decision, Directory(h, n, p.key), false, false))
  {
    hide Directory;
    HasGrows(ps, p, n);
    assert (ps + [p])[|ps|] == p;
  }

  lemma SeenGrows(h: Hashing, ps: seq<Payload>, p: Payload, seen: set<Bytes>)
    requires forall k | k in seen :: exists i | 0 <= i < |ps| :: ps[i].AttemptBegin? && h.keyBytes(ps[i].key) == k
    ensures var all := if p.AttemptBegin? then seen + {h.keyBytes(p.key)} else seen;
            forall k | k in all :: exists i | 0 <= i < |ps + [p]| :: (ps + [p])[i].AttemptBegin? && h.keyBytes((ps + [p])[i].key) == k
  {
    var more := ps + [p];
    var all := if p.AttemptBegin? then seen + {h.keyBytes(p.key)} else seen;
    forall k | k in all ensures exists i | 0 <= i < |more| :: more[i].AttemptBegin? && h.keyBytes(more[i].key) == k {
      if k in seen {
        var i :| 0 <= i < |ps| && ps[i].AttemptBegin? && h.keyBytes(ps[i].key) == k;
        assert more[i] == ps[i];
      } else {
        assert more[|ps|] == p;
      }
    }
  }

  lemma TellsGrows(c: Codec, ps: seq<Payload>, s: State, p: Payload)
    requires Tells(c.h, ps, s) && StepPayload(c, s, p).Some?
    ensures Tells(c.h, ps + [p], StepPayload(c, s, p).value)
  {
    hide Directory, RecordPath, EntryTells, HasBegin, HasAck, HasEnd, Count, AckFits, EndFits;
    var h, t := c.h, StepPayload(c, s, p).value;
    CountAppend(ps, IsBegin, p);
    CountAppend(ps, IsAck, p);
    CountAppend(ps, IsRejection, p);
    SeenGrows(h, ps, p, s.seen);
    forall i | 0 <= i < |t.attempts| ensures EntryTells(h, ps + [p], i + 1, t.attempts[i]) {
      if i < |s.attempts| {
        assert EntryTells(h, ps, i + 1, s.attempts[i]);
        EntryGrows(h, ps, p, i + 1, s.attempts[i], t.attempts[i]);
      } else {
        NotYet(h, ps, s, i + 1);
        EntryStarts(h, ps, p, i + 1);
      }
    }
  }

  lemma NotYet(h: Hashing, ps: seq<Payload>, s: State, n: nat)
    requires Tells(h, ps, s) && n > |s.attempts|
    ensures !HasBegin(ps, n) && !HasAck(ps, n) && !HasEnd(ps, n)
  {
  }

  // ----- The theorem -----

  lemma PayloadsSnoc(c: Codec, raws: seq<Bytes>, raw: Bytes)
    requires Parse(c, raw).Some?
    ensures Payloads(c, raws + [raw]) == Payloads(c, raws) + [Parse(c, raw).value.payload]
  {
    hide Parse;
  }

  /** A longer catalog is legal when the shorter one is, has not ended, and the last record is lawful. */
  lemma LegalSnoc(c: Codec, raws: seq<Bytes>, raw: Bytes)
    ensures var all := raws + [raw];
            Legal(c, all) <==>
              && Legal(c, raws) && (forall i | 0 <= i < |raws| :: !Payloads(c, raws)[i].InstanceEnd?)
              && |all| <= c.maxRecords && Archive.TotalBytes(all) <= c.maxTotalBytes && Lawful(c, all, |raws|)
  {
    hide Parse, Follows, Linked;
    var all := raws + [raw];
    assert all[..|raws|] == raws;
    var ps, qs := Payloads(c, raws), Payloads(c, all);
    assert forall i | 0 <= i < |raws| :: qs[i] == ps[i] && qs[..i] == ps[..i];
    forall i | 0 <= i < |raws| ensures Linked(c, all, i) <==> Linked(c, raws, i) { LinkedStays(c, raws, raw, i); }
    forall i | 0 <= i < |raws| ensures Lawful(c, all, i) <==> Lawful(c, raws, i) && !ps[i].InstanceEnd? {
    }
  }

  lemma LinkedStays(c: Codec, raws: seq<Bytes>, raw: Bytes, i: nat)
    requires i < |raws|
    ensures Linked(c, raws + [raw], i) <==> Linked(c, raws, i)
  {
    hide Parse;
  }

  /** The verifier's own state besides the tables. */
  ghost predicate Tracks(c: Codec, raws: seq<Bytes>, s: State) {
    && s.count == |raws| && s.total == Archive.TotalBytes(raws)
    && s.head == (if raws == [] then None else Some(LinkOf(c.h, raws[|raws| - 1])))
    && (raws != [] ==> Parse(c, raws[0]).Some? && s.instance == Some(Parse(c, raws[0]).value.instance))
    && (raws == [] ==> s.instance == None)
    && (s.ended <==> exists i | 0 <= i < |raws| :: Payloads(c, raws)[i].InstanceEnd?)
    && Tells(c.h, Payloads(c, raws), s)
  }

  lemma StepAgrees(c: Codec, raws: seq<Bytes>, s: State, raw: Bytes)
    requires Tracks(c, raws, s)
    ensures Step(c, s, raw).Some? <==>
              && |raws| + 1 <= c.maxRecords && Archive.TotalBytes(raws) + |raw| <= c.maxTotalBytes && !s.ended
              && Linked(c, raws + [raw], |raws|)
              && Follows(c.h, Payloads(c, raws), Parse(c, raw).value.payload)
  {
    hide Follows, StepPayload, Tells, PayloadShape;
    var all := raws + [raw];
    assert all[|raws|] == raw && (raws != [] ==> all[0] == raws[0] && all[|raws| - 1] == raws[|raws| - 1]);
    if Parse(c, raw).Some? {
      var r := Parse(c, raw).value;
      PayloadAgrees(c, Payloads(c, raws), s, r.payload, r.instance);
    }
  }

  lemma StepTracks(c: Codec, raws: seq<Bytes>, s: State, raw: Bytes)
    requires Tracks(c, raws, s) && Step(c, s, raw).Some?
    ensures Tracks(c, raws + [raw], Step(c, s, raw).value)
  {
    hide Tells, Parse;
    var all, t, p := raws + [raw], Step(c, s, raw).value, Parse(c, raw).value.payload;
    assert all[..|raws|] == raws && all[|raws|] == raw && (raws != [] ==> all[0] == raws[0]);
    PayloadsSnoc(c, raws, raw);
    TellsGrows(c, Payloads(c, raws), s, p);
    TellsIgnores(c.h, Payloads(c, all), StepPayload(c, s, p).value, t);
    EndedGrows(c, raws, raw, p);
  }

  lemma TellsIgnores(h: Hashing, ps: seq<Payload>, s: State, t: State)
    requires Tells(h, ps, s) && t.attempts == s.attempts && t.seen == s.seen && t.accepted == s.accepted && t.rejected == s.rejected
    ensures Tells(h, ps, t)
  {
    hide EntryTells;
  }

  lemma EndedGrows(c: Codec, raws: seq<Bytes>, raw: Bytes, p: Payload)
    requires Payloads(c, raws + [raw]) == Payloads(c, raws) + [p]
    ensures (exists i | 0 <= i < |raws + [raw]| :: Payloads(c, raws + [raw])[i].InstanceEnd?)
            <==> (exists i | 0 <= i < |raws| :: Payloads(c, raws)[i].InstanceEnd?) || p.InstanceEnd?
  {
    var ps, qs := Payloads(c, raws), Payloads(c, raws + [raw]);
    assert qs[|ps|] == p;
    if i :| 0 <= i < |ps| && ps[i].InstanceEnd? { assert qs[i].InstanceEnd?; }
  }

  /** The one-pass verifier accepts exactly the legal catalogs. */
  lemma {:induction false} ScanIsLegal(c: Codec, raws: seq<Bytes>)
    ensures Scan(c, raws).Some? <==> Legal(c, raws)
    ensures Scan(c, raws).Some? ==> Tracks(c, raws, Scan(c, raws).value)
  {
    hide Step, Lawful, Tracks;
    if raws == [] {
      EmptyTracks(c);
    } else {
      var before, raw := raws[..|raws| - 1], raws[|raws| - 1];
      assert raws == before + [raw];
      ScanIsLegal(c, before);
      LegalSnoc(c, before, raw);
      if Scan(c, before).Some? { StepIsLawful(c, before, Scan(c, before).value, raw); }
    }
  }

  lemma EmptyTracks(c: Codec)
    ensures Tracks(c, [], START) && Legal(c, [])
  {
  }

  lemma StepIsLawful(c: Codec, raws: seq<Bytes>, s: State, raw: Bytes)
    requires Tracks(c, raws, s)
    ensures var all := raws + [raw];
            Step(c, s, raw).Some? <==>
              && (forall i | 0 <= i < |raws| :: !Payloads(c, raws)[i].InstanceEnd?)
              && |all| <= c.maxRecords && Archive.TotalBytes(all) <= c.maxTotalBytes && Lawful(c, all, |raws|)
    ensures Step(c, s, raw).Some? ==> Tracks(c, raws + [raw], Step(c, s, raw).value)
  {
    hide Step, Follows, Tells, Parse;
    var all := raws + [raw];
    assert all[..|raws|] == raws && all[|raws|] == raw;
    StepAgrees(c, raws, s, raw);
    if Parse(c, raw).Some? {
      PayloadsSnoc(c, raws, raw);
      assert Payloads(c, all)[..|raws|] == Payloads(c, raws);
    }
    if Step(c, s, raw).Some? { StepTracks(c, raws, s, raw); }
  }

  // ----- Tamper evidence -----

  function PreviousOf(c: Codec, raw: Bytes): Option<Link> {
    match Parse(c, raw)
    case None => None
    case Some(r) => r.previous
  }

  lemma LegalIsChained(c: Codec, raws: seq<Bytes>)
    requires Legal(c, raws)
    ensures HashChained(c.h, raw => PreviousOf(c, raw), raws)
  {
    hide Parse, Follows;
    var previous := raw => PreviousOf(c, raw);
    forall i | 0 <= i < |raws| ensures LinksBack(c.h, previous, raws, i) { assert Lawful(c, raws, i); }
  }

  /** Equal heads mean equal catalogs, record by record, short of a hash collision. */
  lemma EqualHeadsEqualCatalogs(c: Codec, xs: seq<Bytes>, ys: seq<Bytes>)
    requires Scan(c, xs).Some? && Scan(c, ys).Some?
    requires Scan(c, xs).value.head == Scan(c, ys).value.head
    ensures xs == ys || Collide(c.h, xs, ys)
  {
    hide Scan, Parse, Legal, Tells;
    ScanIsLegal(c, xs);
    ScanIsLegal(c, ys);
    LegalIsChained(c, xs);
    LegalIsChained(c, ys);
    if xs != [] { EqualHeads(c.h, raw => PreviousOf(c, raw), xs, ys); }
  }
}
