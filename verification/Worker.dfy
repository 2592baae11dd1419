/** The worker's streaming line splitter, and the reader that decodes a prefix of the same stream. */
module Worker {

  import opened Base
  import opened Probe

  const NEWLINE: Byte := 10
  const RETURN: Byte := 13
  const PENDING_BOUND: nat := 1048576
  const RAW_BOUND: nat := 16777216
  const EVENT_BOUND: nat := 50000
  const DESCENDANT_LIMIT: nat := 128

  /** A decoded line; `None` where `decode` raises. */
  datatype Line = Ready(ns: nat) | End | Fact(event: Event)

  type Decoder = Bytes -> Option<Line>

  /** `not line.strip()`. */
  predicate IsBlank(line: Bytes) {
    forall i | 0 <= i < |line| :: line[i] == 32 || (9 <= line[i] <= 13)
  }

  // ----- Splitting the whole stream -----

  datatype Pieces = Pieces(lines: seq<Bytes>, tail: Bytes)

  /** The complete lines of a stream, and what follows the last newline. */
  function Split(raw: Bytes): Pieces {
    if raw == [] then Pieces([], [])
    else
      Grown(Split(raw[..|raw| - 1]), raw[|raw| - 1])
  }

  function Unlines(lines: seq<Bytes>): Bytes {
    if lines == [] then [] else Unlines(lines[..|lines| - 1]) + lines[|lines| - 1] + [NEWLINE]
  }

  lemma SplitUnfolds(raw: Bytes)
    ensures raw == [] ==> Split(raw) == Pieces([], [])
    ensures raw != [] ==> Split(raw) == Grown(Split(raw[..|raw| - 1]), raw[|raw| - 1])
  {
  }

  /** Splitting loses nothing, and no piece holds a newline. */
  lemma {:induction false} SplitIsExact(raw: Bytes)
    ensures Unlines(Split(raw).lines) + Split(raw).tail == raw
    ensures NEWLINE !in Split(raw).tail && forall i | 0 <= i < |Split(raw).lines| :: NEWLINE !in Split(raw).lines[i]
  {
    hide Split;
    SplitUnfolds(raw);
    if raw != [] {
      var before, b := raw[..|raw| - 1], raw[|raw| - 1];
      SplitIsExact(before);
      PiecesGrow(Split(before), before, b);
      assert raw == before + [b];
    }
  }

  /** One more byte ends the tail or lengthens it. */
  function Grown(p: Pieces, b: Byte): Pieces {
    if b == NEWLINE then Pieces(p.lines + [p.tail], []) else p.(tail := p.tail + [b])
  }

  lemma PiecesGrow(p: Pieces, raw: Bytes, b: Byte)
    requires Unlines(p.lines) + p.tail == raw && NEWLINE !in p.tail
    requires forall i | 0 <= i < |p.lines| :: NEWLINE !in p.lines[i]
    ensures Unlines(Grown(p, b).lines) + Grown(p, b).tail == raw + [b]
    ensures NEWLINE !in Grown(p, b).tail && forall i | 0 <= i < |Grown(p, b).lines| :: NEWLINE !in Grown(p, b).lines[i]
  {
    if b == NEWLINE {
      assert (p.lines + [p.tail])[..|p.lines|] == p.lines;
      assert Unlines(p.lines) + p.tail + [NEWLINE] == raw + [b];
    } else {
      assert Unlines(p.lines) + (p.tail + [b]) == raw + [b];
    }
  }

  /** Splitting more bytes goes on from the tail. */
  lemma {:induction false} SplitContinues(a: Bytes, b: Bytes)
    ensures Split(a + b).lines == Split(a).lines + Split(Split(a).tail + b).lines
    ensures Split(a + b).tail == Split(Split(a).tail + b).tail
  {
    hide Split;
    if b == [] {
      assert a + b == a && Split(a).tail + b == Split(a).tail;
      SplitIsExact(a);
      SplitUnbroken(Split(a).tail);
    } else {
      var m := |b| - 1;
      SplitContinues(a, b[..m]);
      assert (a + b)[..|a + b| - 1] == a + b[..m];
      var t := Split(a).tail;
      assert (t + b)[..|t + b| - 1] == t + b[..m];
      SplitUnfolds(a + b);
      SplitUnfolds(t + b);
    }
  }

  lemma {:induction false} SplitUnbroken(raw: Bytes)
    requires NEWLINE !in raw
    ensures Split(raw) == Pieces([], raw)
  {
    hide Split;
    SplitUnfolds(raw);
    if raw != [] {
      SplitUnbroken(raw[..|raw| - 1]);
      assert raw == raw[..|raw| - 1] + [raw[|raw| - 1]];
    }
  }

  lemma SplitFirst(line: Bytes, rest: Bytes)
    requires NEWLINE !in line
    ensures Split(line + [NEWLINE] + rest).lines == [line] + Split(rest).lines
    ensures Split(line + [NEWLINE] + rest).tail == Split(rest).tail
  {
    SplitContinues(line + [NEWLINE], rest);
    hide Split;
    SplitUnbroken(line);
    SplitUnfolds(line + [NEWLINE]);
    assert (line + [NEWLINE])[..|line|] == line;
    assert Split(line + [NEWLINE]) == Pieces([line], []);
    assert [] + rest == rest;
  }

  /** The lines of a beginning of the stream are the first lines of the stream. */
  lemma SplitPrefix(raw: Bytes, k: nat)
    requires k <= |raw|
    ensures Split(raw[..k]).lines <= Split(raw).lines
  {
    hide Split;
    SplitContinues(raw[..k], raw[k..]);
    assert raw[..k] + raw[k..] == raw;
  }

  // ----- What the lines tell -----

  /** What one generation has learned; event `i` carries the number `first + i`. */
  datatype Tally = Tally(ready: Option<nat>, done: bool, fault: bool, events: seq<Event>, known: map<Proc, Proc>)

  function Known(known: map<Proc, Proc>, e: Event): map<Proc, Proc> {
    match e.act
    case Fork(child) => known[child := e.root]
    case Exit(_) => known - {e.actor}
    case _ => known
  }

  /** One line; `None` where a bound refuses. `first` numbers the generation's first event. */
  function Absorb(decode: Decoder, first: nat, t: Tally, line: Bytes): Option<Tally> {
    if IsBlank(line) then Some(t)
    else
      match decode(line)
      case None => Some(t.(fault := true))
      case Some(Ready(ns)) => Some(t.(ready := Some(ns)))
      case Some(End) => Some(t.(done := true))
      case Some(Fact(e)) =>
        if first + |t.events| > EVENT_BOUND || (e.act.Fork? && |Known(t.known, e)| > DESCENDANT_LIMIT) then None
        else Some(t.(events := t.events + [e], known := Known(t.known, e)))
  }

  function AbsorbAll(decode: Decoder, first: nat, t: Tally, lines: seq<Bytes>): Option<Tally> {
    if lines == [] then Some(t)
    else
      match AbsorbAll(decode, first, t, lines[..|lines| - 1])
      case None => None
      case Some(u) => Absorb(decode, first, u, lines[|lines| - 1])
  }

  lemma {:induction false} AbsorbConcat(decode: Decoder, first: nat, t: Tally, a: seq<Bytes>, b: seq<Bytes>)
    ensures AbsorbAll(decode, first, t, a + b)
            == match AbsorbAll(decode, first, t, a)
               case None => None
               case Some(u) => AbsorbAll(decode, first, u, b)
  {
    if b == [] {
      assert a + b == a;
    } else {
      var m := |b| - 1;
      assert (a + b)[..|a + b| - 1] == a + b[..m];
      AbsorbConcat(decode, first, t, a, b[..m]);
    }
  }

  // ----- What the tally means -----

  /** The line is neither blank nor decodable. */
  predicate IsBroken(decode: Decoder, line: Bytes) {
    !IsBlank(line) && decode(line) == None
  }

  /** The fault flag is set exactly when some line did not decode. */
  lemma {:induction false} FaultMeans(decode: Decoder, first: nat, t: Tally, lines: seq<Bytes>)
    requires AbsorbAll(decode, first, t, lines).Some?
    ensures AbsorbAll(decode, first, t, lines).value.fault <==> t.fault || exists i | 0 <= i < |lines| :: IsBroken(decode, lines[i])
  {
    if lines != [] {
      var m := |lines| - 1;
      FaultMeans(decode, first, t, lines[..m]);
      var u := AbsorbAll(decode, first, t, lines[..m]).value;
      assert AbsorbAll(decode, first, t, lines).value.fault <==> u.fault || IsBroken(decode, lines[m]);
      if i :| 0 <= i < m && IsBroken(decode, lines[..m][i]) { assert IsBroken(decode, lines[i]); }
      if i :| 0 <= i < |lines| && IsBroken(decode, lines[i]) && i < m { assert IsBroken(decode, lines[..m][i]); }
    }
  }

  predicate IsEnd(decode: Decoder, line: Bytes) {
    !IsBlank(line) && decode(line) == Some(End)
  }

  /** The probe is done exactly when it printed its end. */
  lemma {:induction false} DoneMeans(decode: Decoder, first: nat, t: Tally, lines: seq<Bytes>)
    requires AbsorbAll(decode, first, t, lines).Some?
    ensures AbsorbAll(decode, first, t, lines).value.done <==> t.done || exists i | 0 <= i < |lines| :: IsEnd(decode, lines[i])
  {
    if lines != [] {
      var m := |lines| - 1;
      DoneMeans(decode, first, t, lines[..m]);
      var u := AbsorbAll(decode, first, t, lines[..m]).value;
      assert AbsorbAll(decode, first, t, lines).value.done <==> u.done || IsEnd(decode, lines[m]);
      if i :| 0 <= i < m && IsEnd(decode, lines[..m][i]) { assert IsEnd(decode, lines[i]); }
      if i :| 0 <= i < |lines| && IsEnd(decode, lines[i]) && i < m { assert IsEnd(decode, lines[..m][i]); }
    }
  }

  predicate IsReady(decode: Decoder, line: Bytes) {
    !IsBlank(line) && decode(line).Some? && decode(line).value.Ready?
  }

  /** The ready time is that of the last ready line. */
  lemma {:induction false} ReadyMeans(decode: Decoder, first: nat, t: Tally, lines: seq<Bytes>)
    requires AbsorbAll(decode, first, t, lines).Some?
    ensures var u := AbsorbAll(decode, first, t, lines).value;
            || (u.ready == t.ready && forall i | 0 <= i < |lines| :: !IsReady(decode, lines[i]))
            || exists i | 0 <= i < |lines| ::
                 && IsReady(decode, lines[i]) && u.ready == Some(decode(lines[i]).value.ns)
                 && forall j | i < j < |lines| :: !IsReady(decode, lines[j])
  {
    if lines != [] {
      var m := |lines| - 1;
      ReadyMeans(decode, first, t, lines[..m]);
      var u := AbsorbAll(decode, first, t, lines[..m]).value;
      if !IsReady(decode, lines[m]) && !(u.ready == t.ready && forall i | 0 <= i < m :: !IsReady(decode, lines[..m][i])) {
        var i :| 0 <= i < m && IsReady(decode, lines[..m][i]) && u.ready == Some(decode(lines[..m][i]).value.ns)
                 && forall j | i < j < m :: !IsReady(decode, lines[..m][j]);
        assert IsReady(decode, lines[i]) && forall j | i < j < |lines| :: !IsReady(decode, lines[j]) by {
          forall j | i < j < |lines| ensures !IsReady(decode, lines[j]) { if j < m { assert lines[j] == lines[..m][j]; } }
        }
      } else if !IsReady(decode, lines[m]) {
        forall i | 0 <= i < |lines| ensures !IsReady(decode, lines[i]) { if i < m { assert lines[i] == lines[..m][i]; } }
      }
    }
  }

  /** Event numbers and descendants stay within their bounds. */
  lemma {:induction false} BoundsHold(decode: Decoder, first: nat, t: Tally, lines: seq<Bytes>)
    requires AbsorbAll(decode, first, t, lines).Some? && t.events == [] && |t.known| <= DESCENDANT_LIMIT
    ensures var u := AbsorbAll(decode, first, t, lines).value;
            (u.events != [] ==> first + |u.events| - 1 <= EVENT_BOUND) && |u.known| <= DESCENDANT_LIMIT
  {
    if lines != [] {
      var m := |lines| - 1;
      BoundsHold(decode, first, t, lines[..m]);
      var u := AbsorbAll(decode, first, t, lines[..m]).value;
      if !IsBlank(lines[m]) && decode(lines[m]).Some? && decode(lines[m]).value.Fact? {
        KnownShrinks(u.known, decode(lines[m]).value.event);
      }
    }
  }

  lemma KnownShrinks(known: map<Proc, Proc>, e: Event)
    ensures !e.act.Fork? ==> |Known(known, e)| <= |known|
  {
    if e.act.Exit? {
      assert (known - {e.actor}).Keys == known.Keys - {e.actor};
      SetBound(known.Keys - {e.actor}, known.Keys);
    }
  }

  /** The event makes `p` known, or ends it. */
  predicate Forks(e: Event, p: Proc) { e.act == Fork(p) }

  predicate Exits(e: Event, p: Proc) { e.act.Exit? && e.actor == p }

  /** `p` was known before or forked by one of the events, and did not exit since. */
  ghost predicate StillKnown(before: map<Proc, Proc>, events: seq<Event>, p: Proc) {
    || (p in before && forall i | 0 <= i < |events| :: !Exits(events[i], p))
    || exists i | 0 <= i < |events| :: Forks(events[i], p) && forall j | i < j < |events| :: !Exits(events[j], p)
  }

  lemma StillKnownSnoc(before: map<Proc, Proc>, events: seq<Event>, e: Event, p: Proc)
    ensures StillKnown(before, events + [e], p) <==> Forks(e, p) || (StillKnown(before, events, p) && !Exits(e, p))
  {
    var all := events + [e];
    assert all[|events|] == e && forall i | 0 <= i < |events| :: all[i] == events[i];
    if Forks(e, p) { assert Forks(all[|events|], p); }
    if StillKnown(before, events, p) && !Exits(e, p) {
      if p in before && forall i | 0 <= i < |events| :: !Exits(events[i], p) {
        assert forall i | 0 <= i < |all| :: !Exits(all[i], p);
      } else {
        var i :| 0 <= i < |events| && Forks(events[i], p) && forall j | i < j < |events| :: !Exits(events[j], p);
        assert Forks(all[i], p) && forall j | i < j < |all| :: !Exits(all[j], p);
      }
    }
    if StillKnown(before, all, p) && !Forks(e, p) {
      if p in before && forall i | 0 <= i < |all| :: !Exits(all[i], p) {
        assert !Exits(all[|events|], p) && forall i | 0 <= i < |events| :: !Exits(events[i], p) by {
          forall i | 0 <= i < |events| ensures !Exits(events[i], p) { assert !Exits(all[i], p); }
        }
      } else {
        var i :| 0 <= i < |all| && Forks(all[i], p) && forall j | i < j < |all| :: !Exits(all[j], p);
        assert i < |events| && !Exits(all[|events|], p);
        forall j | i < j < |events| ensures !Exits(events[j], p) { assert !Exits(all[j], p); }
      }
    }
  }

  /** The known map holds exactly the processes known before or forked since that have not exited. */
  lemma {:induction false} KnownMeans(decode: Decoder, first: nat, t: Tally, lines: seq<Bytes>, p: Proc)
    requires AbsorbAll(decode, first, t, lines).Some? && t.events == []
    ensures var u := AbsorbAll(decode, first, t, lines).value;
            p in u.known <==> StillKnown(t.known, u.events, p)
  {
    hide StillKnown;
    if lines == [] {
      KnownAtStart(t.known, p);
    } else {
      var m := |lines| - 1;
      KnownMeans(decode, first, t, lines[..m], p);
      var u := AbsorbAll(decode, first, t, lines[..m]).value;
      if !IsBlank(lines[m]) && decode(lines[m]).Some? && decode(lines[m]).value.Fact? {
        StillKnownSnoc(t.known, u.events, decode(lines[m]).value.event, p);
      }
    }
  }

  lemma KnownAtStart(known: map<Proc, Proc>, p: Proc)
    ensures StillKnown(known, [], p) <==> p in known
  {
  }

  /** After `done` lines, the next line decides whether any longer stream can be absorbed. */
  lemma AbsorbNext(decode: Decoder, first: nat, t: Tally, done: seq<Bytes>, u: Tally, line: Bytes, rest: seq<Bytes>)
    requires AbsorbAll(decode, first, t, done) == Some(u)
    ensures AbsorbAll(decode, first, t, done + [line]) == Absorb(decode, first, u, line)
    ensures Absorb(decode, first, u, line) == None ==> AbsorbAll(decode, first, t, done + [line] + rest) == None
  {
    hide Absorb;
    assert (done + [line])[..|done|] == done;
    AbsorbConcat(decode, first, t, done + [line], rest);
  }

  method FindNewline(raw: Bytes) returns (k: nat)
    ensures k <= |raw| && NEWLINE !in raw[..k]
    ensures k < |raw| ==> raw[k] == NEWLINE
  {
    k := 0;
    while k < |raw| && raw[k] != NEWLINE
      invariant k <= |raw| && NEWLINE !in raw[..k]
    {
      k := k + 1;
    }
  }

  // ----- The worker -----

  class Worker {
    const decode: Decoder
    /** The number the next event of this generation starts from. */
    const first: nat
    const before: map<Proc, Proc>
    var raw: Bytes
    var pending: Bytes
    var tally: Tally
    /** A bound has refused: the worker's loop has ended. */
    var stopped: bool

    function Start(): Tally
    {
      Tally(None, false, false, [], before)
    }

    /** What the worker knows is what splitting all it was given on newlines tells. */
    ghost predicate Valid()
      reads this
    {
      !stopped ==>
        && pending == Split(raw).tail
        && AbsorbAll(decode, first, Start(), Split(raw).lines) == Some(tally)
    }

    constructor (decode: Decoder, first: nat, before: map<Proc, Proc>)
      ensures Valid() && !stopped && raw == [] && this.decode == decode && this.first == first && this.before == before
    {
      this.decode, this.first, this.before := decode, first, before;
      raw, pending, tally, stopped := [], [], Tally(None, false, false, [], before), false;
    }

    /** `drain` with one chunk read from the pipe. */
    method Drain(data: Bytes) returns (ok: bool)
      requires Valid() && !stopped
      modifies this
      ensures Valid() && ok == !stopped && raw == old(raw) + data
      ensures ok <==> && |old(pending) + data| < PENDING_BOUND && |raw| < RAW_BOUND
                      && AbsorbAll(decode, first, Start(), Split(old(raw) + data).lines).Some?
    {
      hide Absorb, AbsorbAll, Split;
      ghost var lines := Split(raw).lines;
      SplitContinues(raw, data);
      raw := raw + data;
      pending := pending + data;
      ghost var all := Split(raw).lines;
      if |pending| >= PENDING_BOUND || |raw| >= RAW_BOUND {
        stopped := true;
        return false;
      }
      var k: nat := FindNewline(pending);
      while k < |pending|
        invariant raw == old(raw) + data && !stopped && Split(raw).lines == all
        invariant k <= |pending| && NEWLINE !in pending[..k] && (k < |pending| ==> pending[k] == NEWLINE)
        invariant all == lines + Split(pending).lines && Split(raw).tail == Split(pending).tail
        invariant AbsorbAll(decode, first, Start(), lines) == Some(tally)
        decreases |pending|
      {
        var line, rest := pending[..k], pending[k + 1..];
        assert pending == line + [NEWLINE] + rest;
        SplitFirst(line, rest);
        assert lines + ([line] + Split(rest).lines) == lines + [line] + Split(rest).lines;
        AbsorbNext(decode, first, Start(), lines, tally, line, Split(rest).lines);
        var next := Absorb(decode, first, tally, line);
        lines := lines + [line];
        pending := rest;
        if next == None {
          stopped := true;
          return false;
        }
        tally := next.value;
        k := FindNewline(pending);
      }
      assert pending[..k] == pending;
      SplitUnbroken(pending);
      assert lines + [] == lines;
      ok := true;
    }

    /**
     * Any chunking: fed the whole stream in pieces, the worker that was not stopped has decoded and
     * numbered exactly the newline-separated lines of their concatenation; it is stopped exactly when a
     * chunk exceeds a byte bound or one of those lines a count bound.
     */
    method Feed(chunks: seq<Bytes>) returns (ok: bool)
      requires Valid() && !stopped && raw == []
      modifies this
      ensures Valid() && ok == !stopped
      ensures ok ==> raw == Joined(chunks)
                     && AbsorbAll(decode, first, Start(), Split(Joined(chunks)).lines) == Some(tally)
      ensures ok <==> && (forall i | 0 <= i < |chunks| :: FitsBuffers(chunks, i))
                      && AbsorbAll(decode, first, Start(), Split(Joined(chunks)).lines).Some?
    {
      hide AbsorbAll, Split;
      for i := 0 to |chunks|
        invariant Valid() && !stopped && raw == Joined(chunks[..i])
        invariant forall j | 0 <= j < i :: FitsBuffers(chunks, j)
      {
        ok := Drain(chunks[i]);
        assert chunks[..i + 1][..i] == chunks[..i];
        if !ok {
          if FitsBuffers(chunks, i) { RefusedPrefix(decode, first, Start(), chunks, i + 1); }
          return;
        }
      }
      assert chunks[..|chunks|] == chunks;
      ok := true;
    }
  }

  function Joined(chunks: seq<Bytes>): Bytes {
    if chunks == [] then [] else Joined(chunks[..|chunks| - 1]) + chunks[|chunks| - 1]
  }

  /** Chunk `i` leaves both buffers below their bounds. */
  ghost predicate FitsBuffers(chunks: seq<Bytes>, i: nat)
    requires i < |chunks|
  {
    && |Split(Joined(chunks[..i])).tail + chunks[i]| < PENDING_BOUND
    && |Joined(chunks[..i]) + chunks[i]| < RAW_BOUND
  }

  lemma {:induction false} JoinedPrefix(chunks: seq<Bytes>, k: nat)
    requires k <= |chunks|
    ensures Joined(chunks[..k]) <= Joined(chunks)
  {
    var m := |chunks| - 1;
    if k == |chunks| {
      assert chunks[..k] == chunks;
    } else {
      JoinedPrefix(chunks[..m], k);
      assert chunks[..m][..k] == chunks[..k];
    }
  }

  /** A count bound met in the first chunks refuses the whole stream. */
  lemma RefusedPrefix(decode: Decoder, first: nat, t: Tally, chunks: seq<Bytes>, k: nat)
    requires k <= |chunks| && AbsorbAll(decode, first, t, Split(Joined(chunks[..k])).lines) == None
    ensures AbsorbAll(decode, first, t, Split(Joined(chunks)).lines) == None
  {
    hide Split, AbsorbAll, Joined;
    JoinedPrefix(chunks, k);
    var part, whole := Joined(chunks[..k]), Joined(chunks);
    SplitPrefix(whole, |part|);
    assert whole[..|part|] == part;
    var a, b := Split(part).lines, Split(whole).lines;
    AbsorbConcat(decode, first, t, a, b[|a|..]);
    assert a + b[|a|..] == b;
  }

  // ----- Reading a prefix -----

  /** `raw[:raw.rfind(b'\n') + 1]`. */
  function Complete(raw: Bytes): Bytes {
    if raw == [] || raw[|raw| - 1] == NEWLINE then raw else Complete(raw[..|raw| - 1])
  }

  /** `splitlines` on the way: `crossed` says the last byte was a carriage return. */
  datatype Breaking = Breaking(lines: seq<Bytes>, tail: Bytes, crossed: bool)

  function Break(raw: Bytes): Breaking {
    if raw == [] then Breaking([], [], false)
    else
      var p, b := Break(raw[..|raw| - 1]), raw[|raw| - 1];
      if b == RETURN then Breaking(p.lines + [p.tail], [], true)
      else if b == NEWLINE && p.crossed then Breaking(p.lines, [], false)
      else if b == NEWLINE then Breaking(p.lines + [p.tail], [], false)
      else Breaking(p.lines, p.tail + [b], false)
  }

  function SplitLines(raw: Bytes): seq<Bytes> {
    var p := Break(raw);
    if p.tail == [] then p.lines else p.lines + [p.tail]
  }

  /** The facts of the lines, or `None` where one does not decode. */
  function FactsOf(decode: Decoder, lines: seq<Bytes>): Option<seq<Event>> {
    if lines == [] then Some([])
    else
      match FactsOf(decode, lines[..|lines| - 1])
      case None => None
      case Some(events) =>
        var line := lines[|lines| - 1];
        if IsBlank(line) then Some(events)
        else
          match decode(line)
          case None => None
          case Some(Fact(e)) => Some(events + [e])
          case Some(_) => Some(events)
  }

  predicate InOrder(events: seq<Event>) {
    forall i, j | 0 <= i < j < |events| :: events[i].ns <= events[j].ns
  }

  function PrefixOf(decode: Decoder, raw: Bytes): Option<seq<Event>> {
    if |raw| > RAW_BOUND then None
    else
      match FactsOf(decode, SplitLines(Complete(raw)))
      case None => None
      case Some(events) => if events != [] && InOrder(events) then Some(events) else None
  }

  /** `kernel_prefix`. */
  method KernelPrefix(decode: Decoder, raw: Bytes) returns (r: Option<seq<Event>>)
    ensures r == PrefixOf(decode, raw)
  {
    if |raw| > RAW_BOUND { return None; }
    var lines, events := SplitLines(Complete(raw)), [];
    for i := 0 to |lines|
      invariant FactsOf(decode, lines[..i]) == Some(events)
    {
      assert lines[..i + 1][..i] == lines[..i];
      if !IsBlank(lines[i]) {
        var d := decode(lines[i]);
        if d == None {
          FactsPrefix(decode, lines, i + 1);
          return None;
        }
        if d.value.Fact? { events := events + [d.value.event]; }
      }
    }
    assert lines[..|lines|] == lines;
    r := if events != [] && InOrder(events) then Some(events) else None;
  }

  lemma {:induction false} FactsPrefix(decode: Decoder, lines: seq<Bytes>, k: nat)
    requires k <= |lines|
    ensures FactsOf(decode, lines[..k]) == None ==> FactsOf(decode, lines) == None
    ensures FactsOf(decode, lines).Some? ==>
              FactsOf(decode, lines[..k]).Some? && FactsOf(decode, lines[..k]).value <= FactsOf(decode, lines).value
  {
    if k == |lines| {
      assert lines[..k] == lines;
    } else {
      var before := lines[..|lines| - 1];
      FactsPrefix(decode, before, k);
      assert before[..k] == lines[..k];
    }
  }

  lemma {:induction false} BreakIsSplit(raw: Bytes)
    requires RETURN !in raw
    ensures Break(raw) == Breaking(Split(raw).lines, Split(raw).tail, false)
  {
    hide Split;
    SplitUnfolds(raw);
    if raw != [] { BreakIsSplit(raw[..|raw| - 1]); }
  }

  /** The complete part of a stream holds its lines and no tail. */
  lemma {:induction false} CompleteLines(raw: Bytes)
    ensures Split(Complete(raw)) == Pieces(Split(raw).lines, [])
    ensures RETURN !in raw ==> RETURN !in Complete(raw)
  {
    hide Split;
    SplitUnfolds(raw);
    if raw != [] && raw[|raw| - 1] != NEWLINE { CompleteLines(raw[..|raw| - 1]); }
  }

  /** Where every line decodes, absorbing them keeps exactly their facts, in order. */
  lemma {:induction false} AbsorbedFacts(decode: Decoder, first: nat, t: Tally, lines: seq<Bytes>)
    requires AbsorbAll(decode, first, t, lines).Some? && FactsOf(decode, lines).Some?
    ensures AbsorbAll(decode, first, t, lines).value.events == t.events + FactsOf(decode, lines).value
  {
    if lines != [] { AbsorbedFacts(decode, first, t, lines[..|lines| - 1]); }
  }

  lemma {:induction false} AbsorbedGrow(decode: Decoder, first: nat, t: Tally, lines: seq<Bytes>, k: nat)
    requires k <= |lines| && AbsorbAll(decode, first, t, lines).Some?
    ensures AbsorbAll(decode, first, t, lines[..k]).Some?
    ensures AbsorbAll(decode, first, t, lines[..k]).value.events <= AbsorbAll(decode, first, t, lines).value.events
  {
    if k == |lines| {
      assert lines[..k] == lines;
    } else {
      var before := lines[..|lines| - 1];
      AbsorbedGrow(decode, first, t, before, k);
      assert before[..k] == lines[..k];
    }
  }

  /**
   * Read at any moment, from any beginning `raw[..k]` of the stream without carriage returns, the
   * prefix reader gives a prefix of the events the worker numbers.
   */
  lemma PrefixReaderAgrees(decode: Decoder, first: nat, known: map<Proc, Proc>, raw: Bytes, k: nat)
    requires k <= |raw| && RETURN !in raw[..k] && PrefixOf(decode, raw[..k]).Some?
    requires AbsorbAll(decode, first, Tally(None, false, false, [], known), Split(raw).lines).Some?
    ensures PrefixOf(decode, raw[..k]).value
            <= AbsorbAll(decode, first, Tally(None, false, false, [], known), Split(raw).lines).value.events
  {
    hide AbsorbAll, FactsOf, Split, Break, Complete;
    var part, start := raw[..k], Tally(None, false, false, [], known);
    var lines, all := Split(part).lines, Split(raw).lines;
    CompleteLines(part);
    BreakIsSplit(Complete(part));
    assert SplitLines(Complete(part)) == lines;
    SplitPrefix(raw, k);
    assert all[..|lines|] == lines;
    AbsorbedGrow(decode, first, start, all, |lines|);
    AbsorbedFacts(decode, first, start, lines);
    assert [] + FactsOf(decode, lines).value == FactsOf(decode, lines).value;
  }

  /** What the reader returns is not empty, in time order, and from a file within its bound. */
  lemma PrefixMeans(decode: Decoder, raw: Bytes)
    requires PrefixOf(decode, raw).Some?
    ensures |raw| <= RAW_BOUND && PrefixOf(decode, raw).value != []
    ensures forall i | 0 <= i < |PrefixOf(decode, raw).value| - 1 ::
              PrefixOf(decode, raw).value[i].ns <= PrefixOf(decode, raw).value[i + 1].ns
  {
    hide FactsOf, SplitLines, Complete;
  }
}
