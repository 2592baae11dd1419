/** The per-request record chain: accept, event*, seal; its verifier and its journal. */
module Archive {

  import opened Base

  datatype SealStatus = Complete | Failed

  /** `facts` stands for an event's kind and body, which the codec's whitelist judges. */
  datatype Payload =
    | Accept(key: Key, tool: string, arguments: string, acceptance: nat)
    | Event(number: nat, facts: string)
    | Seal(outcome: Outcome, status: SealStatus, events: nat)

  datatype Record = Record(sequence: nat, previous: Option<Link>, payload: Payload)

  datatype Codec = Codec(
    h: Hashing,
    print_: Record -> Bytes,
    loads: Bytes -> Option<Record>,
    shallow: Bytes -> bool,
    listed: string -> bool,
    maxRecords: nat,
    maxRecordBytes: nat,
    maxTotalBytes: nat)

  ghost predicate Lossless(c: Codec) {
    forall r :: c.loads(c.print_(r)) == Some(r)
  }

  predicate WellFormed(c: Codec, r: Record) {
    && (r.previous.Some? ==> r.previous.value.size > 0 && IsSha(r.previous.value.sha))
    && match r.payload
       case Accept(key, tool, arguments, acceptance) =>
         && r.sequence == 0 && r.previous == None
         && key.instance != "" && key.session != "" && tool != "" && IsSha(arguments) && acceptance >= 1
       case Event(number, facts) => r.previous.Some? && r.sequence > 0 && c.listed(facts) && number == r.sequence
       case Seal(_, _, events) => r.previous.Some? && r.sequence == events + 1
  }

  function Parse(c: Codec, raw: Bytes): Option<Record> {
    if |raw| <= c.maxRecordBytes && |raw| <= c.maxTotalBytes && c.shallow(raw) then
      match c.loads(raw)
      case Some(r) => if c.print_(r) == raw && WellFormed(c, r) then Some(r) else None
      case None => None
    else None
  }

  function Encode(c: Codec, r: Record): Option<Bytes> {
    var raw := c.print_(r);
    if WellFormed(c, r) && Parse(c, raw) == Some(r) then Some(raw) else None
  }

  /** A parsed record's bytes are its own canonical text, within every limit. */
  lemma ParseIsCanonical(c: Codec, raw: Bytes)
    requires Parse(c, raw).Some?
    ensures raw == c.print_(Parse(c, raw).value) && c.shallow(raw) && WellFormed(c, Parse(c, raw).value)
    ensures |raw| <= c.maxRecordBytes && |raw| <= c.maxTotalBytes
  {
  }

  // ----- The verifier -----

  datatype Parent = Parent(key: Key, tool: string, arguments: string, acceptance: nat)

  datatype State = State(count: nat, total: nat, events: nat, parent: Option<Parent>, head: Option<Link>,
                         seal: Option<Payload>)

  const START := State(0, 0, 0, None, None, None)

  function Step(c: Codec, s: State, raw: Bytes): Option<State> {
    if s.count + 1 <= c.maxRecords && s.total + |raw| <= c.maxTotalBytes && s.seal == None then
      match Parse(c, raw)
      case None => None
      case Some(r) =>
        if r.sequence == s.count && r.previous == s.head then
          var t := s.(count := s.count + 1, total := s.total + |raw|, head := Some(LinkOf(c.h, raw)));
          match r.payload
          case Accept(key, tool, arguments, acceptance) =>
            if s.count == 0 then Some(t.(parent := Some(Parent(key, tool, arguments, acceptance)))) else None
          case Event(_, _) => if s.count == 0 then None else Some(t.(events := s.events + 1))
          case Seal(_, _, events) =>
            if s.count == 0 || events != s.events then None else Some(t.(seal := Some(r.payload)))
        else None
    else None
  }

  function Scan(c: Codec, raws: seq<Bytes>): Option<State> {
    if raws == [] then Some(START)
    else
      match Scan(c, raws[..|raws| - 1])
      case None => None
      case Some(s) => Step(c, s, raws[|raws| - 1])
  }

  /** `ArchiveCodec.verify`. */
  method Verify(c: Codec, raws: seq<Bytes>) returns (r: Option<State>)
    ensures r == if raws == [] then None else Scan(c, raws)
  {
    var s := START;
    var i := 0;
    while i < |raws|
      invariant 0 <= i <= |raws|
      invariant Scan(c, raws[..i]) == Some(s)
    {
      assert raws[..i + 1][..i] == raws[..i];
      var t := Step(c, s, raws[i]);
      if t == None {
        ScanPrefix(c, raws, i + 1);
        return None;
      }
      s := t.value;
      i := i + 1;
    }
    assert raws[..i] == raws;
    r := if raws == [] then None else Some(s);
  }

  lemma {:induction false} ScanPrefix(c: Codec, raws: seq<Bytes>, k: nat)
    requires k <= |raws|
    ensures Scan(c, raws[..k]) == None ==> Scan(c, raws) == None
    ensures k < |raws| && Scan(c, raws).Some? ==> Scan(c, raws[..k]).Some? && Scan(c, raws[..k]).value.seal == None
  {
    if k == |raws| {
      assert raws[..k] == raws;
    } else {
      var p := raws[..|raws| - 1];
      ScanPrefix(c, p, k);
      assert p[..k] == raws[..k];
    }
  }

  function TotalBytes(raws: seq<Bytes>): nat {
    if raws == [] then 0 else TotalBytes(raws[..|raws| - 1]) + |raws[|raws| - 1]|
  }

  /** What an accepted request chain is: one accept, then events, then at most one seal. */
  lemma {:induction false} ScanMeans(c: Codec, raws: seq<Bytes>)
    requires Scan(c, raws).Some?
    ensures var s := Scan(c, raws).value;
            && s.count == |raws| <= c.maxRecords
            && s.total == TotalBytes(raws) <= c.maxTotalBytes
            && (raws != [] ==>
                  && s.head == Some(LinkOf(c.h, raws[|raws| - 1])) && s.parent.Some?
                  && |raws[|raws| - 1]| <= s.total
                  && Parse(c, raws[0]).Some?
                  && Parse(c, raws[0]).value.payload
                     == Accept(s.parent.value.key, s.parent.value.tool, s.parent.value.arguments,
                               s.parent.value.acceptance))
            && (s.seal == None && raws != [] ==> |raws| == s.events + 1)
            && (s.seal.Some? ==>
                  && |raws| == s.events + 2 && s.seal.value.Seal?
                  && Parse(c, raws[|raws| - 1]).Some?
                  && Parse(c, raws[|raws| - 1]).value.payload == s.seal.value
                  && s.seal.value.events == s.events)
  {
    if raws != [] { ScanMeans(c, raws[..|raws| - 1]); }
  }

  // ----- What a legal chain is, record by record -----

  /** Record `i` parses, has its number, names the bytes before it; an accept only opens, a seal only closes. */
  ghost predicate Lawful(c: Codec, raws: seq<Bytes>, i: nat)
    requires i < |raws|
  {
    Parse(c, raws[i]).Some? &&
    var r := Parse(c, raws[i]).value;
    && r.sequence == i && r.previous == (if i == 0 then None else Some(LinkOf(c.h, raws[i - 1])))
    && (r.payload.Accept? <==> i == 0)
    && (r.payload.Seal? ==> i == |raws| - 1)
  }

  ghost predicate IsSeal(c: Codec, raw: Bytes) {
    Parse(c, raw).Some? && Parse(c, raw).value.payload.Seal?
  }

  ghost predicate Legal(c: Codec, raws: seq<Bytes>) {
    && |raws| <= c.maxRecords && TotalBytes(raws) <= c.maxTotalBytes
    && forall i | 0 <= i < |raws| :: Lawful(c, raws, i)
  }

  /** The one-pass verifier with its counters accepts exactly the legal chains. */
  lemma {:induction false} ScanIsLegal(c: Codec, raws: seq<Bytes>)
    ensures Scan(c, raws).Some? <==> Legal(c, raws)
  {
    if raws != [] {
      var n := |raws| - 1;
      var before, raw := raws[..n], raws[n];
      assert raws == before + [raw];
      ScanIsLegal(c, before);
      LegalSnoc(c, before, raw);
      if Scan(c, before).Some? { StepIsLawful(c, before, raw); }
    }
  }

  lemma LegalSnoc(c: Codec, raws: seq<Bytes>, raw: Bytes)
    ensures var all := raws + [raw];
            Legal(c, all) <==>
              && Legal(c, raws) && (raws != [] ==> !IsSeal(c, raws[|raws| - 1]))
              && |all| <= c.maxRecords && TotalBytes(all) <= c.maxTotalBytes && Lawful(c, all, |raws|)
  {
    hide Parse;
    var all := raws + [raw];
    assert all[..|raws|] == raws;
    forall i | 0 <= i < |raws|
      ensures Lawful(c, all, i) <==> Lawful(c, raws, i) && !IsSeal(c, raws[i]) {
      assert all[i] == raws[i] && (i > 0 ==> all[i - 1] == raws[i - 1]);
    }
    if Legal(c, all) {
      forall i | 0 <= i < |raws| ensures Lawful(c, raws, i) && !IsSeal(c, raws[i]) { assert Lawful(c, all, i); }
    }
    if Legal(c, raws) && (raws != [] ==> !IsSeal(c, raws[|raws| - 1])) && Lawful(c, all, |raws|) {
      forall i | 0 <= i < |all| ensures Lawful(c, all, i) { if i < |raws| { assert Lawful(c, raws, i); } }
    }
  }

  lemma StepIsLawful(c: Codec, raws: seq<Bytes>, raw: Bytes)
    requires Scan(c, raws).Some?
    ensures var all := raws + [raw];
            Step(c, Scan(c, raws).value, raw).Some? <==>
              && (raws != [] ==> !IsSeal(c, raws[|raws| - 1]))
              && |all| <= c.maxRecords && TotalBytes(all) <= c.maxTotalBytes && Lawful(c, all, |raws|)
  {
    hide Scan;
    var all := raws + [raw];
    assert all[|raws|] == raw && (raws != [] ==> all[|raws| - 1] == raws[|raws| - 1]);
    LastRecord(c, raws);
    ScanMeans(c, raws);
    if raws != [] { SealIsLast(c, raws); }
    assert (raws + [raw])[..|raws|] == raws;
  }

  lemma SealIsLast(c: Codec, raws: seq<Bytes>)
    requires Scan(c, raws).Some? && raws != []
    ensures Scan(c, raws).value.seal.Some? <==> IsSeal(c, raws[|raws| - 1])
  {
  }

  /** The last record is well linked: it names its own number and the head of the chain before it. */
  lemma LastRecord(c: Codec, raws: seq<Bytes>)
    requires Scan(c, raws).Some?
    ensures Scan(c, raws).value.count == |raws|
    ensures raws == [] ==> Scan(c, raws).value.head == None
    ensures raws != [] ==>
              var n := |raws| - 1;
              && Scan(c, raws[..n]).Some? && Parse(c, raws[n]).Some?
              && Scan(c, raws).value.head == Some(LinkOf(c.h, raws[n]))
              && Parse(c, raws[n]).value.sequence == n
              && Parse(c, raws[n]).value.previous == Scan(c, raws[..n]).value.head
  {
  }

  function PreviousOf(c: Codec, raw: Bytes): Option<Link> {
    match Parse(c, raw)
    case None => None
    case Some(r) => r.previous
  }

  /** Tamper evidence: equal heads mean equal request chains, record by record, short of a hash collision. */
  lemma EqualHeadsEqualChains(c: Codec, xs: seq<Bytes>, ys: seq<Bytes>)
    requires Scan(c, xs).Some? && Scan(c, ys).Some?
    requires Scan(c, xs).value.head == Scan(c, ys).value.head
    ensures xs == ys || Collide(c.h, xs, ys)
  {
    hide Scan, Parse;
    LastRecord(c, xs);
    LastRecord(c, ys);
    LegalIsChained(c, xs);
    LegalIsChained(c, ys);
    if xs != [] { EqualHeads(c.h, raw => PreviousOf(c, raw), xs, ys); }
  }

  lemma LegalIsChained(c: Codec, raws: seq<Bytes>)
    requires Scan(c, raws).Some?
    ensures HashChained(c.h, raw => PreviousOf(c, raw), raws)
  {
    hide Scan, Parse;
    ScanIsLegal(c, raws);
    var previous := raw => PreviousOf(c, raw);
    forall i | 0 <= i < |raws| ensures LinksBack(c.h, previous, raws, i) { assert Lawful(c, raws, i); }
  }

  // ----- The writer -----

  /**
   * `RequestJournal`: publishes accept, events and one seal, each linked to the record before it.
   * `chain` is the list of acknowledged records, `disk` what the publisher really stored.
   */
  class RequestJournal {
    const c: Codec
    var head: Option<Link>
    var count: nat
    var bytes: nat
    var events: nat
    var failed: bool
    var poisoned: bool
    var sealed: bool
    ghost var chain: seq<Bytes>
    ghost var disk: seq<Bytes>

    /**
     * The acknowledged records are an accepted chain with these counters, and until the seal is
     * written one more record of the largest size still fits every budget.
     */
    ghost predicate Valid()
      reads this
    {
      && Lossless(c)
      && Scan(c, chain).Some?
      && var s := Scan(c, chain).value;
      && s.count == count == |chain| && s.total == bytes && s.head == head
      && (!poisoned ==> s.events == events)
      && (chain != [] && !poisoned ==> (sealed <==> s.seal.Some?))
      && (chain != [] && !sealed ==> s.seal == None && count + 1 <= c.maxRecords
                                     && bytes + c.maxRecordBytes <= c.maxTotalBytes)
      && (disk == chain || (poisoned && exists raw :: disk == chain + [raw]))
    }

    constructor (c: Codec)
      requires Lossless(c)
      ensures Valid() && this.c == c && chain == [] && disk == [] && !poisoned && !sealed
    {
      this.c, head, count, bytes, events := c, None, 0, 0, 0;
      failed, poisoned, sealed, chain, disk := false, false, false, [], [];
    }

    /** `_publish`: the counters advance only on an exact acknowledgement; anything else poisons. */
    method Publish(raw: Bytes, o: Publication) returns (ok: bool)
      modifies this
      ensures ok <==> o == Confirmed
      ensures ok ==> head == Some(LinkOf(c.h, raw)) && count == old(count) + 1 && bytes == old(bytes) + |raw|
                     && chain == old(chain) + [raw] && disk == old(disk) + [raw]
                     && failed == old(failed) && poisoned == old(poisoned)
      ensures !ok ==> poisoned && failed && head == old(head) && count == old(count) && bytes == old(bytes)
                      && chain == old(chain) && disk == if o == Stored then old(disk) + [raw] else old(disk)
      ensures events == old(events) && sealed == old(sealed)
    {
      ok := o == Confirmed;
      if o != Lost { disk := disk + [raw]; }
      if ok {
        head, count, bytes := Some(LinkOf(c.h, raw)), count + 1, bytes + |raw|;
        chain := chain + [raw];
      } else {
        failed, poisoned := true, true;
      }
    }

    /** The encoded accept record of a parent. */
    function AcceptRecord(parent: Parent): Option<Bytes> {
      Encode(c, Record(0, None, Accept(parent.key, parent.tool, parent.arguments, parent.acceptance)))
    }

    /** A record of this size leaves one place and one full record's bytes for the seal. */
    predicate LeavesSeal(raw: Bytes)
      reads this
    {
      count + 2 <= c.maxRecords && bytes + |raw| + c.maxRecordBytes <= c.maxTotalBytes
    }

    /**
     * The accept record; the seal's place is reserved before anything is written. Under the approved
     * request budgets an encodable accept is refused by nothing but the publisher.
     */
    method Open(parent: Parent, o: Publication) returns (ok: bool)
      requires Valid() && chain == [] && disk == [] && !poisoned && !sealed
      modifies this
      ensures ok <==> && AcceptRecord(parent).Some? && old(LeavesSeal(AcceptRecord(parent).value)) && o == Confirmed
      ensures 2 <= c.maxRecords && 2 * c.maxRecordBytes <= c.maxTotalBytes ==>
                (ok <==> AcceptRecord(parent).Some? && o == Confirmed)
      ensures Valid() && (ok ==> !poisoned && !sealed && |chain| == 1 && Scan(c, chain).value.parent == Some(parent))
    {
      var raw := AcceptRecord(parent);
      if raw == None || !LeavesSeal(raw.value) {
        failed := true;
        return false;
      }
      ok := Publish(raw.value, o);
      assert [raw.value][..0] == [];
    }

    /** The encoded record of the next event, once there is one to link to. */
    function EventRecord(number: nat, facts: string): Option<Bytes>
      reads this
    {
      if head == None then None else Encode(c, Record(events + 1, head, Event(number, facts)))
    }

    /** One event, taken exactly under its conditions; a refusal that publishes nothing only marks the journal failed. */
    method Append(number: nat, facts: string, o: Publication) returns (ok: bool)
      requires Valid() && chain != []
      modifies this
      ensures Valid()
      ensures ok <==> && !old(poisoned) && !old(sealed) && !old(failed) && number == old(events) + 1
                      && old(events) + 2 <= 99999999 && old(EventRecord(number, facts)).Some?
                      && old(LeavesSeal(EventRecord(number, facts).value)) && o == Confirmed
      ensures ok ==> !old(failed) && |chain| == |old(chain)| + 1 && old(chain) == chain[..|old(chain)|]
                     && events == old(events) + 1 && number == events
      ensures !ok ==> chain == old(chain)
      ensures old(sealed) || old(poisoned) ==> !ok && disk == old(disk)
      ensures sealed == old(sealed)
    {
      if poisoned || sealed { return false; }
      if failed || number != events + 1 || events + 2 > 99999999 || head == None {
        failed := true;
        return false;
      }
      var raw := EventRecord(number, facts);
      if raw == None || !LeavesSeal(raw.value) {
        failed := true;
        return false;
      }
      ghost var before := chain;
      ScanMeans(c, chain);
      ok := Publish(raw.value, o);
      if !ok { failed := true; return; }
      assert chain[..|before|] == before;
      events := events + 1;
    }

    /**
     * The seal. Its budget was reserved by every record before it, so an encodable seal of an
     * open journal is refused only where the caller asks COMPLETE of a failed journal.
     */
    method SealChain(outcome: Outcome, asFailed: bool, o: Publication) returns (ok: bool)
      requires Valid() && chain != []
      modifies this
      ensures Valid()
      ensures ok ==> |chain| == |old(chain)| + 1 && old(chain) == chain[..|old(chain)|] && sealed
                     && Scan(c, chain).value.seal
                        == Some(Seal(outcome, if asFailed then Failed else Complete, old(events)))
      ensures !ok ==> chain == old(chain) && (old(sealed) || poisoned)
      ensures ok <==> && !old(sealed) && !old(poisoned) && o == Confirmed && (old(failed) ==> asFailed)
                      && Encode(c, Record(old(events) + 1, old(head),
                                          Seal(outcome, if asFailed then Failed else Complete, old(events)))).Some?
    {
      if poisoned || sealed { return false; }
      ScanMeans(c, chain);
      var raw := Encode(c, Record(events + 1, head, Seal(outcome, if asFailed then Failed else Complete, events)));
      if (failed && !asFailed) || raw == None || count + 1 > c.maxRecords
         || bytes + |raw.value| > c.maxTotalBytes {
        failed, poisoned := true, true;
        return false;
      }
      ghost var before := chain;
      ok := Publish(raw.value, o);
      if ok {
        assert chain[..|before|] == before;
        sealed := true;
      }
    }
  }
}
