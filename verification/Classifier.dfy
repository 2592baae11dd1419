/** The failure classifier: attributing captured requests to ledger attempts, at most one row per attempt. */
module Classifier {

  import opened Base
  import Catalog

  // ----- What was captured -----

  /** A JSON-RPC id: one the ledger also types, or anything else. */
  datatype Id = Typed(id: RequestId) | Untyped(text: string)

  /** A request body: not a dictionary, or one with its method, id, tool name and argument digest. */
  datatype Message = Opaque | Message(verb: string, id: Id, name: Option<string>, digest: string)

  datatype Code = NoCode | Word(text: string) | Number(number: int)

  /** The `error` member of a reply; `Odd` when it is no dictionary. */
  datatype Fault = Odd | Fault(code: Code, message: string)

  datatype Reply = Bare | Reply(error: Option<Fault>, result: bool)

  datatype Exchange = Exchange(sequence: nat, verb: string, session: Option<string>, status: int, eof: bool,
                               failed: bool, bodied: bool, messages: seq<Message>, replies: seq<Reply>)

  datatype Location = Frame(exchange: nat, frame: nat) | ReportCall(sequence: nat)

  /** One request frame and the exchange it came in. */
  datatype Request = Request(exchange: Exchange, message: Message, location: Location)

  datatype Who = Who(session: Option<string>, id: Id)

  /** A body that did not parse still counts as one request. */
  function RequestsOf(x: Exchange): seq<Request> {
    if x.messages == [] && x.bodied then [Request(x, Opaque, Frame(x.sequence, 1))]
    else seq(|x.messages|, i requires 0 <= i < |x.messages| => Request(x, x.messages[i], Frame(x.sequence, i + 1)))
  }

  function AllRequests(xs: seq<Exchange>): seq<Request> {
    if xs == [] then [] else AllRequests(xs[..|xs| - 1]) + RequestsOf(xs[|xs| - 1])
  }

  /** The replies recorded under an exchange number, the last recording winning. */
  function RepliesTo(xs: seq<Exchange>, sequence: nat): seq<Reply> {
    if xs == [] then []
    else if xs[|xs| - 1].sequence == sequence then xs[|xs| - 1].replies
    else RepliesTo(xs[..|xs| - 1], sequence)
  }

  function WhoOf(r: Request): Who {
    Who(r.exchange.session, if r.message.Message? then r.message.id else Untyped(""))
  }

  // ----- Verdicts -----

  datatype Verdict =
    | Unclassified
    | PreObserverReject
    | DuplicateReject
    | AcceptUnknown
    | AcceptedFailed
    | AcceptedCompleteWithWireError
    | NotInvoked

  datatype Row = Row(location: Location, verdict: Verdict, reason: string, attempts: seq<nat>)

  function Gate(status: int, code: Code): Option<string> {
    if !code.Word? then None
    else
      match (status, code.text)
      case (401, "unauthorized") => Some("AUTH")
      case (421, "bad_host") => Some("HOST")
      case (403, "origin_denied") => Some("ORIGIN")
      case (413, "body_budget") => Some("BODY")
      case (413, "body_too_large") => Some("BODY")
      case (400, "protocol") => Some("PROTOCOL")
      case (400, "unsupported_protocol") => Some("PROTOCOL")
      case (400, "invalid_protocol") => Some("PROTOCOL")
      case (400, "invalid_frame") => Some("INVALID_REQUEST")
      case (400, "session_required") => Some("SESSION")
      case (404, "session_not_found") => Some("SESSION")
      case (409, "closing") => Some("CLOSING")
      case (503, "draining") => Some("DRAINING")
      case _ => None
  }

  function ErrorOf(replies: seq<Reply>): Option<Fault> {
    if |replies| == 1 && replies[0].Reply? then replies[0].error else None
  }

  function CodeOf(e: Option<Fault>): Code {
    if e.Some? && e.value.Fault? then e.value.code else NoCode
  }

  function ReasonText(r: Catalog.Reason): string {
    match r
    case NoReason => ""
    case Duplicate => "DUPLICATE"
    case ActiveLimit => "ACTIVE_LIMIT"
    case SeenLimit => "SEEN_LIMIT"
    case ByteLimit => "BYTE_LIMIT"
  }

  /** The reply is one of the ledger's own refusals. */
  predicate IsRefusal(e: Option<Fault>) {
    e.Some? && e.value.Fault? && e.value.message in {"DUPLICATE", "ACTIVE_LIMIT", "SEEN_LIMIT", "BYTE_LIMIT"}
  }

  predicate HasResult(replies: seq<Reply>) {
    exists i | 0 <= i < |replies| :: replies[i].Reply? && replies[i].result
  }

  // ----- Candidates -----

  /** The evidence: the catalog's attempts, the exchanges, and the server instance of the report. */
  datatype Evidence = Evidence(lives: seq<Catalog.Life>, exchanges: seq<Exchange>, instance: Option<string>)

  /** Attempt `n` began with this request's session, typed id, tool and arguments. */
  predicate Matches(v: Evidence, r: Request, n: nat) {
    1 <= n <= |v.lives| && r.message.Message? && v.lives[n - 1].begin.AttemptBegin? &&
    var b := v.lives[n - 1].begin;
    && WhoOf(r) == Who(Some(b.key.session), Typed(b.key.id)) && v.instance == Some(b.key.instance)
    && r.message.name == Some(b.tool) && r.message.digest == b.arguments
  }

  function MatchesUpto(v: Evidence, r: Request, top: nat): seq<nat> {
    if top == 0 then [] else MatchesUpto(v, r, top - 1) + (if Matches(v, r, top) then [top] else [])
  }

  function CountOf(rs: seq<Request>, who: Who): nat {
    if rs == [] then 0 else CountOf(rs[..|rs| - 1], who) + (if WhoOf(rs[|rs| - 1]) == who then 1 else 0)
  }

  /** The attempt is of the kind this request's reply shows. */
  predicate Shown(v: Evidence, replies: seq<Reply>, n: nat) {
    1 <= n <= |v.lives| && v.lives[n - 1].begin.AttemptBegin? &&
    var b, e := v.lives[n - 1].begin, ErrorOf(replies);
    if IsRefusal(e) then b.decision == Catalog.Rejected && ReasonText(b.reason) == e.value.message
    else HasResult(replies) && b.decision == Catalog.New
  }

  function KeepShown(v: Evidence, replies: seq<Reply>, ns: seq<nat>): seq<nat> {
    if ns == [] then []
    else KeepShown(v, replies, ns[..|ns| - 1]) + (if Shown(v, replies, ns[|ns| - 1]) then [ns[|ns| - 1]] else [])
  }

  /** The other request's reply is of the same kind: the same refusal, or also a result. */
  predicate Alike(replies: seq<Reply>, others: seq<Reply>) {
    var e, f := ErrorOf(replies), ErrorOf(others);
    if IsRefusal(e) then f.Some? && f.value.Fault? && f.value.message == e.value.message else HasResult(others)
  }

  function RelevantCount(v: Evidence, rs: seq<Request>, who: Who, replies: seq<Reply>): nat {
    if rs == [] then 0
    else
      var r := rs[|rs| - 1];
      RelevantCount(v, rs[..|rs| - 1], who, replies)
      + (if WhoOf(r) == who && Alike(replies, RepliesTo(v.exchanges, r.exchange.sequence)) then 1 else 0)
  }

  /** A repeated id is told apart only by a unique refusal or a unique result. */
  function Candidates(v: Evidence, rs: seq<Request>, r: Request): seq<nat> {
    var all, replies := MatchesUpto(v, r, |v.lives|), RepliesTo(v.exchanges, r.exchange.sequence);
    if CountOf(rs, WhoOf(r)) <= 1 then all
    else if RelevantCount(v, rs, WhoOf(r), replies) != 1 then []
    else KeepShown(v, replies, all)
  }

  function Attributed(v: Evidence, r: Request, n: nat): Row
    requires 1 <= n <= |v.lives| && v.lives[n - 1].begin.AttemptBegin?
  {
    var l, x, e := v.lives[n - 1], r.exchange, ErrorOf(RepliesTo(v.exchanges, r.exchange.sequence));
    var b := l.begin;
    if b.decision == Catalog.Rejected && l.end.Some? && l.end.value.AttemptEnd?
       && l.end.value.disposition == Catalog.Refused then
      Row(r.location, if b.reason == Catalog.Duplicate then DuplicateReject else PreObserverReject, ReasonText(b.reason), [n])
    else if l.ack == None then Row(r.location, AcceptUnknown, "ACK_UNKNOWN", [n])
    else if l.end == None then Row(r.location, AcceptUnknown, "JOURNAL_UNKNOWN", [n])
    else if l.end.value.AttemptEnd?
            && (l.end.value.disposition == Catalog.Failed || l.end.value.outcome in {Some(Raised), Some(Cancelled)}) then
      Row(r.location, AcceptedFailed,
          if CodeOf(e) == Number(-32600) || CodeOf(e) == Number(-32602) then "INVALID_REQUEST" else "UNCLASSIFIED", [n])
    else if l.end.value.AttemptEnd? && l.end.value.disposition == Catalog.Complete
            && (x.failed || !x.eof || x.status != 200 || e.Some?) then
      Row(r.location, AcceptedCompleteWithWireError, "WIRE_ERROR", [n])
    else Row(r.location, Unclassified, "UNCLASSIFIED", [])
  }

  function RowOf(v: Evidence, rs: seq<Request>, r: Request): Row {
    var x, e := r.exchange, ErrorOf(RepliesTo(v.exchanges, r.exchange.sequence));
    if Gate(x.status, CodeOf(e)).Some? then Row(r.location, PreObserverReject, Gate(x.status, CodeOf(e)).value, [])
    else if x.verb == "DELETE" && (x.status != 200 || !x.eof) then Row(r.location, AcceptUnknown, "CLOSE_UNKNOWN", [])
    else if r.message.Message? && r.message.verb == "tools/call" && x.session.Some?
            && |Candidates(v, rs, r)| == 1 && Begun(v, Candidates(v, rs, r)[0]) then
      Attributed(v, r, Candidates(v, rs, r)[0])
    else Row(r.location, Unclassified, "UNCLASSIFIED", [])
  }

  predicate Begun(v: Evidence, n: nat) {
    1 <= n <= |v.lives| && v.lives[n - 1].begin.AttemptBegin?
  }

  function NotInvokedRow(call: nat): Row {
    Row(ReportCall(call), NotInvoked, "NOT_INVOKED", [])
  }

  function RequestRows(v: Evidence): seq<Row> {
    var rs := AllRequests(v.exchanges);
    seq(|rs|, i requires 0 <= i < |rs| => RowOf(v, rs, rs[i]))
  }

  function IdleRows(idle: seq<nat>): seq<Row> {
    seq(|idle|, i requires 0 <= i < |idle| => NotInvokedRow(idle[i]))
  }

  predicate Placed(rows: seq<Row>) {
    forall i, j | 0 <= i < j < |rows| :: rows[i].location != rows[j].location
  }

  /** `_classify`: one row per request, then one per call never invoked; refused if a location repeats. */
  method Classify(v: Evidence, idle: seq<nat>) returns (r: Option<seq<Row>>)
    ensures var rows := RequestRows(v) + IdleRows(idle);
            r == if 0 !in idle && Placed(rows) then Some(rows) else None
  {
    hide RowOf, AllRequests;
    var rs := AllRequests(v.exchanges);
    var rows: seq<Row> := [];
    for i := 0 to |rs|
      invariant rows == RequestRows(v)[..i]
    {
      rows := rows + [RowOf(v, rs, rs[i])];
    }
    for i := 0 to |idle|
      invariant 0 !in idle[..i] && rows == RequestRows(v) + IdleRows(idle)[..i]
    {
      if idle[i] == 0 { return None; }
      rows := rows + [NotInvokedRow(idle[i])];
    }
    assert idle[..|idle|] == idle && IdleRows(idle)[..|idle|] == IdleRows(idle);
    r := if Placed(rows) then Some(rows) else None;
  }

  // ----- No attempt twice -----

  lemma {:induction false} MatchesUptoSound(v: Evidence, r: Request, top: nat, n: nat)
    requires n in MatchesUpto(v, r, top)
    ensures Matches(v, r, n)
  {
    if n in MatchesUpto(v, r, top - 1) { MatchesUptoSound(v, r, top - 1, n); }
  }

  lemma {:induction false} KeepShownSound(v: Evidence, replies: seq<Reply>, ns: seq<nat>, n: nat)
    requires n in KeepShown(v, replies, ns)
    ensures n in ns && Shown(v, replies, n)
  {
    if n in KeepShown(v, replies, ns[..|ns| - 1]) { KeepShownSound(v, replies, ns[..|ns| - 1], n); }
  }

  lemma {:induction false} CountsOne(rs: seq<Request>, who: Who, i: nat)
    requires i < |rs| && WhoOf(rs[i]) == who
    ensures CountOf(rs, who) >= 1
  {
    if i < |rs| - 1 { CountsOne(rs[..|rs| - 1], who, i); }
  }

  lemma {:induction false} CountsBoth(rs: seq<Request>, who: Who, i: nat, j: nat)
    requires i < j < |rs| && WhoOf(rs[i]) == who && WhoOf(rs[j]) == who
    ensures CountOf(rs, who) >= 2
  {
    var m := |rs| - 1;
    if j < m { CountsBoth(rs[..m], who, i, j); } else { CountsOne(rs[..m], who, i); }
  }

  predicate IsRelevant(v: Evidence, r: Request, who: Who, replies: seq<Reply>) {
    WhoOf(r) == who && Alike(replies, RepliesTo(v.exchanges, r.exchange.sequence))
  }

  lemma {:induction false} RelevantOne(v: Evidence, rs: seq<Request>, who: Who, replies: seq<Reply>, i: nat)
    requires i < |rs| && IsRelevant(v, rs[i], who, replies)
    ensures RelevantCount(v, rs, who, replies) >= 1
  {
    hide Alike;
    if i < |rs| - 1 { RelevantOne(v, rs[..|rs| - 1], who, replies, i); }
  }

  lemma {:induction false} RelevantBoth(v: Evidence, rs: seq<Request>, who: Who, replies: seq<Reply>, i: nat, j: nat)
    requires i < j < |rs| && IsRelevant(v, rs[i], who, replies) && IsRelevant(v, rs[j], who, replies)
    ensures RelevantCount(v, rs, who, replies) >= 2
  {
    hide Alike;
    var m := |rs| - 1;
    if j < m { RelevantBoth(v, rs[..m], who, replies, i, j); } else { RelevantOne(v, rs[..m], who, replies, i); }
  }

  /** What an attribution rests on. */
  lemma CandidateSound(v: Evidence, rs: seq<Request>, r: Request, n: nat)
    requires n in Candidates(v, rs, r)
    ensures Matches(v, r, n)
    ensures CountOf(rs, WhoOf(r)) > 1 ==>
              var replies := RepliesTo(v.exchanges, r.exchange.sequence);
              Shown(v, replies, n) && RelevantCount(v, rs, WhoOf(r), replies) == 1
  {
    hide Matches, Shown, RelevantCount, MatchesUpto, KeepShown;
    var replies := RepliesTo(v.exchanges, r.exchange.sequence);
    if CountOf(rs, WhoOf(r)) > 1 { KeepShownSound(v, replies, MatchesUpto(v, r, |v.lives|), n); }
    MatchesUptoSound(v, r, |v.lives|, n);
  }

  lemma RowAttempts(v: Evidence, rs: seq<Request>, r: Request)
    ensures RowOf(v, rs, r).attempts != [] ==>
              |Candidates(v, rs, r)| == 1 && RowOf(v, rs, r).attempts == Candidates(v, rs, r)
  {
    hide Candidates, Gate;
  }

  /** Two requests with one candidate between them show the same kind of reply. */
  lemma SharedCandidate(v: Evidence, a: Request, b: Request, n: nat)
    requires Matches(v, a, n) && Matches(v, b, n)
    requires Shown(v, RepliesTo(v.exchanges, a.exchange.sequence), n)
    requires Shown(v, RepliesTo(v.exchanges, b.exchange.sequence), n)
    ensures WhoOf(a) == WhoOf(b)
    ensures IsRelevant(v, a, WhoOf(a), RepliesTo(v.exchanges, a.exchange.sequence))
    ensures IsRelevant(v, b, WhoOf(a), RepliesTo(v.exchanges, a.exchange.sequence))
  {
    hide RepliesTo, ReasonText;
  }

  /** No attempt is attributed to two rows, however often a typed request id repeats. */
  lemma NeverTwice(v: Evidence, rs: seq<Request>, i: nat, j: nat, n: nat)
    requires i < j < |rs|
    requires n in RowOf(v, rs, rs[i]).attempts
    ensures n !in RowOf(v, rs, rs[j]).attempts
  {
    hide RowOf, Candidates, Matches, Shown, RelevantCount, CountOf, IsRelevant, WhoOf;
    RowAttempts(v, rs, rs[i]);
    RowAttempts(v, rs, rs[j]);
    if n in RowOf(v, rs, rs[j]).attempts {
      CandidateSound(v, rs, rs[i], n);
      CandidateSound(v, rs, rs[j], n);
      SameWho(v, rs[i], rs[j], n);
      CountsBoth(rs, WhoOf(rs[i]), i, j);
      SharedCandidate(v, rs[i], rs[j], n);
      RelevantBoth(v, rs, WhoOf(rs[i]), RepliesTo(v.exchanges, rs[i].exchange.sequence), i, j);
    }
  }

  lemma SameWho(v: Evidence, a: Request, b: Request, n: nat)
    requires Matches(v, a, n) && Matches(v, b, n)
    ensures WhoOf(a) == WhoOf(b)
  {
  }

  predicate IsAccepted(x: Verdict) {
    x == AcceptedFailed || x == AcceptedCompleteWithWireError
  }

  /**
   * An ACCEPTED row names one attempt of the catalog, with this request's key, tool and arguments, that
   * has its BEGIN, its ACK and its END; in a verified catalog it was admitted as NEW.
   */
  lemma AcceptedHasRecords(c: Catalog.Codec, raws: seq<Bytes>, exchanges: seq<Exchange>, instance: Option<string>,
                           rs: seq<Request>, r: Request)
    requires IsAccepted(RowOf(Evidence(Catalog.Lives(c, raws), exchanges, instance), rs, r).verdict)
    ensures var lives := Catalog.Lives(c, raws);
            var v := Evidence(lives, exchanges, instance);
            && |RowOf(v, rs, r).attempts| == 1
            && var n := RowOf(v, rs, r).attempts[0];
               && Matches(v, r, n) && lives[n - 1].begin.AttemptBegin?
               && lives[n - 1].ack.Some? && lives[n - 1].end.Some?
               && (Catalog.Scan(c, raws).Some? ==> lives[n - 1].begin.decision == Catalog.New)
  {
    hide Candidates, Gate, Matches, Catalog.Scan, Catalog.Lives, RepliesTo, ErrorOf, CodeOf, ReasonText;
    var lives := Catalog.Lives(c, raws);
    var v := Evidence(lives, exchanges, instance);
    AcceptedRow(v, rs, r);
    var n := RowOf(v, rs, r).attempts[0];
    CandidateSound(v, rs, r, n);
    if Catalog.Scan(c, raws).Some? {
      Catalog.ScanReflects(c, raws);
      assert Catalog.LifeFits(c.h, n, lives[n - 1], Catalog.Scan(c, raws).value.attempts[n - 1]);
    }
  }

  lemma AcceptedRow(v: Evidence, rs: seq<Request>, r: Request)
    requires IsAccepted(RowOf(v, rs, r).verdict)
    ensures var row := RowOf(v, rs, r);
            && |row.attempts| == 1 && row.attempts[0] in Candidates(v, rs, r) && Begun(v, row.attempts[0])
            && v.lives[row.attempts[0] - 1].ack.Some? && v.lives[row.attempts[0] - 1].end.Some?
  {
    hide Candidates, Gate, RepliesTo, ErrorOf, CodeOf, ReasonText;
  }

  // ----- What the verdicts mean -----

  /** The exchange went wrong on the wire. */
  predicate WireFault(v: Evidence, r: Request) {
    r.exchange.failed || !r.exchange.eof || r.exchange.status != 200
    || ErrorOf(RepliesTo(v.exchanges, r.exchange.sequence)).Some?
  }

  /** The catalog's END of an attempt says refused, failed (or the handler raised or was cancelled), or complete. */
  predicate EndsRefused(l: Catalog.Life) {
    l.end.Some? && l.end.value.AttemptEnd? && l.end.value.disposition == Catalog.Refused
  }

  predicate EndsBadly(l: Catalog.Life) {
    l.end.Some? && l.end.value.AttemptEnd?
    && (l.end.value.disposition == Catalog.Failed || l.end.value.outcome == Some(Raised) || l.end.value.outcome == Some(Cancelled))
  }

  predicate EndsWell(l: Catalog.Life) {
    l.end.Some? && l.end.value.AttemptEnd? && l.end.value.disposition == Catalog.Complete && !EndsBadly(l)
  }

  /** What a row that names attempt `n` says of that attempt's records. */
  ghost predicate VerdictHolds(v: Evidence, r: Request, n: nat, row: Row)
    requires Begun(v, n)
  {
    var l := v.lives[n - 1];
    var b := l.begin;
    match row.verdict
    case DuplicateReject => b.decision == Catalog.Rejected && b.reason == Catalog.Duplicate && EndsRefused(l) && row.reason == "DUPLICATE"
    case PreObserverReject =>
      b.decision == Catalog.Rejected && b.reason != Catalog.Duplicate && EndsRefused(l) && row.reason == ReasonText(b.reason)
    case AcceptUnknown =>
      && !(b.decision == Catalog.Rejected && EndsRefused(l))
      && (row.reason == "ACK_UNKNOWN" ==> l.ack == None) && (row.reason == "JOURNAL_UNKNOWN" ==> l.ack.Some? && l.end == None)
      && (row.reason == "ACK_UNKNOWN" || row.reason == "JOURNAL_UNKNOWN")
    case AcceptedFailed => l.ack.Some? && EndsBadly(l)
    case AcceptedCompleteWithWireError => l.ack.Some? && EndsWell(l) && WireFault(v, r)
    case _ => false
  }

  /** An attributed row says what the catalog's records of that attempt say. */
  lemma VerdictMeans(v: Evidence, rs: seq<Request>, r: Request)
    requires RowOf(v, rs, r).attempts != []
    ensures var row := RowOf(v, rs, r);
            |row.attempts| == 1 && Begun(v, row.attempts[0]) && VerdictHolds(v, r, row.attempts[0], row)
  {
    hide Candidates, Gate, RepliesTo;
    RowAttempts(v, rs, r);
    var n := Candidates(v, rs, r)[0];
    assert RowOf(v, rs, r) == Attributed(v, r, n);
  }

  /** An attributed row is a tool call of the attempt's own session, id, server instance, tool and arguments. */
  lemma AttributionMeans(v: Evidence, rs: seq<Request>, r: Request)
    requires RowOf(v, rs, r).attempts != []
    ensures var n := RowOf(v, rs, r).attempts[0];
            && Begun(v, n) && r.message.Message? && r.message.verb == "tools/call"
            && var b := v.lives[n - 1].begin;
               && r.exchange.session == Some(b.key.session) && r.message.id == Typed(b.key.id)
               && v.instance == Some(b.key.instance) && r.message.name == Some(b.tool) && r.message.digest == b.arguments
  {
    hide Candidates, Gate, RepliesTo;
    RowAttempts(v, rs, r);
    CandidateSound(v, rs, r, RowOf(v, rs, r).attempts[0]);
  }

  // ----- When a request is attributed -----

  lemma {:induction false} MatchesUptoComplete(v: Evidence, r: Request, top: nat, n: nat)
    requires 1 <= n <= top && Matches(v, r, n)
    ensures n in MatchesUpto(v, r, top)
  {
    hide Matches;
    if n < top { MatchesUptoComplete(v, r, top - 1, n); }
  }

  lemma {:induction false} KeepShownComplete(v: Evidence, replies: seq<Reply>, ns: seq<nat>, n: nat)
    requires n in ns && Shown(v, replies, n)
    ensures n in KeepShown(v, replies, ns)
  {
    hide Shown;
    var m := |ns| - 1;
    if n != ns[m] {
      assert ns == ns[..m] + [ns[m]];
      KeepShownComplete(v, replies, ns[..m], n);
    }
  }

  /** Attempt `n` can stand behind the request: its own, and under a repeated id the only reply of its kind shows it. */
  ghost predicate CanStand(v: Evidence, rs: seq<Request>, r: Request, n: nat) {
    var replies := RepliesTo(v.exchanges, r.exchange.sequence);
    Matches(v, r, n)
    && (CountOf(rs, WhoOf(r)) > 1 ==> RelevantCount(v, rs, WhoOf(r), replies) == 1 && Shown(v, replies, n))
  }

  /** The candidates are exactly the attempts that can stand behind the request. */
  lemma CandidatesExactly(v: Evidence, rs: seq<Request>, r: Request, n: nat)
    ensures n in Candidates(v, rs, r) <==> CanStand(v, rs, r, n)
  {
    hide Matches, Shown, RelevantCount, MatchesUpto, KeepShown, CountOf;
    var all, replies := MatchesUpto(v, r, |v.lives|), RepliesTo(v.exchanges, r.exchange.sequence);
    if n in Candidates(v, rs, r) { CandidateSound(v, rs, r, n); }
    if CanStand(v, rs, r, n) {
      MatchRange(v, r, n);
      MatchesUptoComplete(v, r, |v.lives|, n);
      if CountOf(rs, WhoOf(r)) > 1 { KeepShownComplete(v, replies, all, n); }
    }
  }

  lemma MatchRange(v: Evidence, r: Request, n: nat)
    requires Matches(v, r, n)
    ensures Begun(v, n)
  {
  }

  ghost predicate Ascends(ns: seq<nat>) {
    forall i, j | 0 <= i < j < |ns| :: ns[i] < ns[j]
  }

  lemma {:induction false} MatchesAscend(v: Evidence, r: Request, top: nat)
    ensures Ascends(MatchesUpto(v, r, top)) && forall i | 0 <= i < |MatchesUpto(v, r, top)| :: MatchesUpto(v, r, top)[i] <= top
  {
    hide Matches;
    if top > 0 { MatchesAscend(v, r, top - 1); }
  }

  lemma {:induction false} ShownAscend(v: Evidence, replies: seq<Reply>, ns: seq<nat>)
    requires Ascends(ns)
    ensures Ascends(KeepShown(v, replies, ns))
  {
    hide Shown;
    if ns != [] {
      var m := |ns| - 1;
      ShownAscend(v, replies, ns[..m]);
      forall i | 0 <= i < |KeepShown(v, replies, ns[..m])| ensures KeepShown(v, replies, ns[..m])[i] < ns[m] {
        KeepShownSound(v, replies, ns[..m], KeepShown(v, replies, ns[..m])[i]);
      }
    }
  }

  /** Passed the gates: no recorded HTTP rejection, no failed DELETE, and a tool call of a known session. */
  predicate IsToolCall(v: Evidence, r: Request) {
    && Gate(r.exchange.status, CodeOf(ErrorOf(RepliesTo(v.exchanges, r.exchange.sequence)))) == None
    && !(r.exchange.verb == "DELETE" && (r.exchange.status != 200 || !r.exchange.eof))
    && r.message.Message? && r.message.verb == "tools/call" && r.exchange.session.Some?
  }

  /** A tool call behind which exactly one attempt can stand is classified by that attempt. */
  lemma SoleCandidateDecides(v: Evidence, rs: seq<Request>, r: Request, n: nat)
    requires IsToolCall(v, r) && CanStand(v, rs, r, n) && forall m | CanStand(v, rs, r, m) :: m == n
    ensures Begun(v, n) && RowOf(v, rs, r) == Attributed(v, r, n)
  {
    hide Matches, CanStand, Gate, RepliesTo, MatchesUpto, KeepShown, RelevantCount, CountOf;
    CandidatesExactly(v, rs, r, n);
    CanStandRange(v, rs, r, n);
    var ns := Candidates(v, rs, r);
    MatchesAscend(v, r, |v.lives|);
    ShownAscend(v, RepliesTo(v.exchanges, r.exchange.sequence), MatchesUpto(v, r, |v.lives|));
    forall i | 0 <= i < |ns| ensures ns[i] == n { CandidatesExactly(v, rs, r, ns[i]); }
    SoleMember(ns, n);
  }

  lemma SoleMember(ns: seq<nat>, n: nat)
    requires Ascends(ns) && n in ns && forall i | 0 <= i < |ns| :: ns[i] == n
    ensures ns == [n]
  {
    var k := if |ns| > 1 then 1 else 0;
    assert ns[0] == n && ns[k] == n;
  }

  lemma CanStandRange(v: Evidence, rs: seq<Request>, r: Request, n: nat)
    requires CanStand(v, rs, r, n)
    ensures Begun(v, n)
  {
  }

  /** And the attempt's records decide the verdict: every case of them has its own. */
  lemma RecordsDecide(v: Evidence, r: Request, n: nat)
    requires Begun(v, n)
    ensures var l, row := v.lives[n - 1], Attributed(v, r, n);
            if l.begin.decision == Catalog.Rejected && EndsRefused(l) then
              row.verdict == (if l.begin.reason == Catalog.Duplicate then DuplicateReject else PreObserverReject)
            else if l.ack == None || l.end == None then row.verdict == AcceptUnknown
            else if EndsBadly(l) then row.verdict == AcceptedFailed
            else if EndsWell(l) && WireFault(v, r) then row.verdict == AcceptedCompleteWithWireError
            else row.verdict == Unclassified && row.attempts == []
  {
    hide RepliesTo;
  }

  // ----- Every request has its row -----

  lemma {:induction false} RequestsKept(xs: seq<Exchange>, k: nat, r: Request)
    requires k < |xs| && r in RequestsOf(xs[k])
    ensures r in AllRequests(xs)
  {
    hide RequestsOf;
    var m := |xs| - 1;
    if k < m { RequestsKept(xs[..m], k, r); }
  }

  /** Each parsed frame of each exchange has a row at its place, and a body that did not parse has one too. */
  lemma EveryFrameHasRow(v: Evidence, k: nat, i: nat)
    requires k < |v.exchanges|
    requires i < |v.exchanges[k].messages| || (i == 0 && v.exchanges[k].messages == [] && v.exchanges[k].bodied)
    ensures exists j | 0 <= j < |RequestRows(v)| :: RequestRows(v)[j].location == Frame(v.exchanges[k].sequence, i + 1)
  {
    hide AllRequests, RowOf;
    var x, rs := v.exchanges[k], AllRequests(v.exchanges);
    var r := Request(x, if i < |x.messages| then x.messages[i] else Opaque, Frame(x.sequence, i + 1));
    assert RequestsOf(x)[i] == r;
    RequestsKept(v.exchanges, k, r);
    var j :| 0 <= j < |rs| && rs[j] == r;
    RowPlace(v, rs, r);
    assert RequestRows(v)[j].location == r.location;
  }

  lemma RowPlace(v: Evidence, rs: seq<Request>, r: Request)
    ensures RowOf(v, rs, r).location == r.location
  {
    hide Candidates, Gate;
  }

  // ----- Rows without an attempt -----

  /**
   * A request is rejected before the observer exactly when its status and error code are a known gate, and
   * a close is in doubt exactly when an ungated DELETE did not complete; either stands before any attempt.
   */
  lemma GatesComeFirst(v: Evidence, rs: seq<Request>, r: Request)
    ensures var row, x := RowOf(v, rs, r), r.exchange;
            var gate := Gate(x.status, CodeOf(ErrorOf(RepliesTo(v.exchanges, x.sequence))));
            && (row.verdict == PreObserverReject && row.attempts == [] <==> gate.Some?)
            && (gate.Some? ==> row.reason == gate.value)
            && (row.verdict == AcceptUnknown && row.attempts == [] <==>
                  gate == None && x.verb == "DELETE" && !(x.status == 200 && x.eof))
            && (row.attempts == [] ==> row.verdict in {PreObserverReject, AcceptUnknown, Unclassified})
  {
    hide Candidates, Gate, RepliesTo, ReasonText;
  }

  /** The replies to an exchange are those of the last one recorded under its number. */
  lemma {:induction false} RepliesAreLatest(xs: seq<Exchange>, k: nat)
    requires k < |xs| && forall j | k < j < |xs| :: xs[j].sequence != xs[k].sequence
    ensures RepliesTo(xs, xs[k].sequence) == xs[k].replies
  {
    if k < |xs| - 1 { RepliesAreLatest(xs[..|xs| - 1], k); }
  }
}
