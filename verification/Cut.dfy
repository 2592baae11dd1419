/** The closed file set of one session, and the verifier that re-derives it from its own contents. */
module Cut {

  import opened Base
  import opened Names
  import Archive
  import Catalog

  datatype CloseReason = Delete | ServiceStop | Idle

  /** One copied original: where it came from, where it went, and its security descriptor. */
  datatype SourceRow = SourceRow(source: Ref, copy: Ref, identity: Catalog.Identity, sd: Ref)

  datatype RequestRow = RequestRow(attempt: nat, records: seq<Ref>)

  /** The five documents; `evidence` stands for the worker and cleanup facts of a lifecycle record. */
  datatype Doc =
    | Projection(instance: string, session: string, prefix: seq<Ref>, attempts: seq<nat>, requests: seq<RequestRow>,
                 lifecycle: Ref)
    | Lifecycle(instance: string, session: string, reason: CloseReason, attempts: seq<nat>, evidence: string)
    | Source(instance: string, session: string, config: Ref, head: Ref, files: seq<SourceRow>)
    | CutDoc(instance: string, session: string, opening: Ref, config: Ref, head: Ref, projection: Ref,
             members: seq<Ref>, reason: CloseReason)
    | Export(instance: string, session: string, cut: Ref, identity: Catalog.Identity, members: seq<Ref>)

  datatype Codec = Codec(
    h: Hashing,
    print_: Doc -> Bytes,
    loads: Bytes -> Option<Doc>,
    shallow: Bytes -> bool,
    proven: string -> bool,
    maxCutBytes: nat,
    maxProofBytes: nat,
    maxSourceBytes: nat)

  type Files = map<string, Bytes>

  /** What the verifier is given besides the files: the codecs and the lifecycle configuration. */
  datatype Setting = Setting(k: Codec, cat: Catalog.Codec, arc: Archive.Codec, configPath: string, configRaw: Bytes,
                             archiveRef: Ref, freezeRef: Ref)

  function Limit(k: Codec, d: Doc): nat {
    if d.Lifecycle? then k.maxProofBytes else if d.Source? then k.maxSourceBytes else k.maxCutBytes
  }

  // ----- Document shapes -----

  predicate RefShape(r: Ref) {
    r.size >= 1 && r.path != "" && IsSha(r.sha)
  }

  predicate RefShapes(refs: seq<Ref>) {
    forall i | 0 <= i < |refs| :: RefShape(refs[i])
  }

  predicate Increasing(ns: seq<nat>) {
    (forall i | 0 <= i < |ns| :: ns[i] >= 1) && forall i, j | 0 <= i < j < |ns| :: ns[i] < ns[j]
  }

  function CatalogPath(n: nat): string {
    RecordPath("c", n)
  }

  function CopyOf(path: string): string {
    "originals/" + path
  }

  function SdPath(acl: string): string {
    "sd/" + acl + ".bin"
  }

  /** `r` and twelve digits, a dash, and sixty-four hex digits. */
  predicate IsDirectory(d: string) {
    |d| == 78 && d[0] == 'r' && IsDigits(d[1..13]) && d[13] == '-' && IsSha(d[14..])
  }

  predicate IsRequestCopy(path: string, n: nat) {
    |path| >= 88 && IsDirectory(path[10..88]) && path == CopyOf(RecordPath(path[10..88], n))
  }

  predicate IsCatalogPath(path: string) {
    |path| == 15 && path[..2] == "c/" && IsDigits(path[2..10]) && path[10..] == ".json"
  }

  predicate RequestRowShape(row: RequestRow) {
    && row.attempt >= 1 && |row.records| >= 2 && RefShapes(row.records) && DistinctPaths(row.records)
    && forall i | 0 <= i < |row.records| :: IsRequestCopy(row.records[i].path, i)
  }

  predicate SourceRowShape(row: SourceRow) {
    && RefShape(row.source) && RefShape(row.copy) && row.copy.path == CopyOf(row.source.path)
    && LinkOfRef(row.source) == LinkOfRef(row.copy)
    && IsSha(row.identity.acl) && RefShape(row.sd) && row.sd.path == SdPath(row.identity.acl)
    && row.sd.sha == row.identity.acl
  }

  function RequestAttempts(rows: seq<RequestRow>): seq<nat> {
    seq(|rows|, i requires 0 <= i < |rows| => rows[i].attempt)
  }

  /** Sorted by path and without repetition. */
  predicate Ordered(refs: seq<Ref>) {
    forall i, j | 0 <= i < j < |refs| :: Less(refs[i].path, refs[j].path)
  }

  /** `CutCodec.validate`. */
  predicate Shape(k: Codec, d: Doc) {
    d.session != "" &&
    match d
    case Projection(_, _, prefix, attempts, requests, lifecycle) =>
      && prefix != [] && RefShapes(prefix) && DistinctPaths(prefix)
      && (forall i | 0 <= i < |prefix| :: prefix[i].path == CopyOf(CatalogPath(i)))
      && Increasing(attempts)
      && RefShape(lifecycle) && lifecycle.path == "lifecycle.json"
      && (forall i | 0 <= i < |requests| :: RequestRowShape(requests[i]))
      && Increasing(RequestAttempts(requests))
      && (forall i | 0 <= i < |requests| :: requests[i].attempt in attempts)
    case Lifecycle(_, _, _, attempts, evidence) => k.proven(evidence) && Increasing(attempts)
    case Source(_, _, config, head, files) =>
      && RefShape(config) && RefShape(head) && IsCatalogPath(head.path)
      && (forall i | 0 <= i < |files| :: SourceRowShape(files[i]))
      && (forall i, j | 0 <= i < j < |files| :: files[i].source.path != files[j].source.path)
    case CutDoc(_, _, opening, config, head, projection, members, _) =>
      && RefShape(config) && RefShape(head) && IsCatalogPath(head.path)
      && RefShape(opening) && opening.path == CatalogPath(0)
      && RefShape(projection) && projection.path == "attempts.json"
      && RefShapes(members) && Ordered(members)
    case Export(_, _, cut, identity, members) =>
      RefShape(cut) && cut.path == "cut.json" && IsSha(identity.acl) && RefShapes(members) && Ordered(members)
  }

  function Parse(k: Codec, raw: Bytes): Option<Doc> {
    match k.loads(raw)
    case None => None
    case Some(d) =>
      if |raw| <= Limit(k, d) && k.shallow(raw) && Shape(k, d) && k.print_(d) == raw then Some(d) else None
  }

  function Load(k: Codec, files: Files, name: string): Option<Doc> {
    if name in files then Parse(k, files[name]) else None
  }

  // ----- Re-derivation -----

  /** The attempts of one session, in ascending order. */
  function Own(lives: seq<Catalog.Life>, session: string): seq<nat> {
    if lives == [] then []
    else
      var before := Own(lives[..|lives| - 1], session);
      if BelongsTo(lives[|lives| - 1], session) then before + [|lives|] else before
  }

  predicate BelongsTo(l: Catalog.Life, session: string) {
    l.begin.AttemptBegin? && l.begin.key.session == session
  }

  /** Exactly the attempts whose BEGIN has the session in its key. */
  lemma {:induction false} OwnIsSession(lives: seq<Catalog.Life>, session: string, n: nat)
    ensures n in Own(lives, session) <==>
              1 <= n <= |lives| && lives[n - 1].begin.AttemptBegin? && lives[n - 1].begin.key.session == session
  {
    if lives != [] { OwnIsSession(lives[..|lives| - 1], session, n); }
  }

  predicate Holds(h: Hashing, files: Files, r: Ref) {
    r.path in files && RefOf(h, r.path, files[r.path]) == r
  }

  predicate HoldsAll(h: Hashing, files: Files, refs: seq<Ref>) {
    forall i | 0 <= i < |refs| :: Holds(h, files, refs[i])
  }

  /** The stored bytes of refs the files hold. */
  function Contents(files: Files, refs: seq<Ref>): seq<Bytes>
    requires forall i | 0 <= i < |refs| :: refs[i].path in files
  {
    seq(|refs|, i requires 0 <= i < |refs| => files[refs[i].path])
  }

  /** The request records `raws` are the ones the catalog's ACK and END of attempt `n` describe. */
  predicate RequestFits(arc: Archive.Codec, n: nat, l: Catalog.Life, raws: seq<Bytes>) {
    l.begin.AttemptBegin? && l.ack.Some? && l.ack.value.AcceptAck? && l.end.Some? && l.end.value.AttemptEnd? &&
    raws != [] &&
    match Archive.Scan(arc, raws)
    case None => false
    case Some(s) =>
      var d, z := Directory(arc.h, n, l.begin.key), l.end.value;
      && s.parent == Some(Archive.Parent(l.begin.key, l.begin.tool, l.begin.arguments, n))
      && s.seal.Some? && s.seal.value.Seal?
      && z.disposition == (if s.seal.value.status == Archive.Complete then Catalog.Complete else Catalog.Failed)
      && z.outcome == Some(s.seal.value.outcome)
      && |raws| == z.records && s.events == z.events && Archive.TotalBytes(raws) == z.bytes
      && l.ack.value.accept == RefOf(arc.h, RecordPath(d, 0), raws[0])
      && z.head == Some(RefOf(arc.h, RecordPath(d, |raws| - 1), raws[|raws| - 1]))
  }

  predicate RequestStored(h: Hashing, files: Files, n: nat, l: Catalog.Life) {
    l.begin.AttemptBegin? && l.end.Some? && l.end.value.AttemptEnd?
    && forall i | 0 <= i < l.end.value.records :: CopyOf(RecordPath(Directory(h, n, l.begin.key), i)) in files
  }

  function RequestRefs(h: Hashing, files: Files, n: nat, l: Catalog.Life): seq<Ref>
    requires RequestStored(h, files, n, l)
  {
    var d := Directory(h, n, l.begin.key);
    seq(l.end.value.records, i requires 0 <= i < l.end.value.records =>
      RefOf(h, CopyOf(RecordPath(d, i)), files[CopyOf(RecordPath(d, i))]))
  }

  /** The request rows the files and the catalog call for, or `None` where a chain does not match. */
  function Expected(arc: Archive.Codec, files: Files, lives: seq<Catalog.Life>, own: seq<nat>): Option<seq<RequestRow>> {
    if own == [] then Some([])
    else
      var n := own[|own| - 1];
      match Expected(arc, files, lives, own[..|own| - 1])
      case None => None
      case Some(rows) =>
        if !(1 <= n <= |lives|) then None
        else if Catalog.IsRefused(lives[n - 1]) then Some(rows)
        else if RequestStored(arc.h, files, n, lives[n - 1]) then
          var refs := RequestRefs(arc.h, files, n, lives[n - 1]);
          if RequestFits(arc, n, lives[n - 1], Contents(files, refs)) then Some(rows + [RequestRow(n, refs)]) else None
        else None
  }

  function AllRecords(rows: seq<RequestRow>): seq<Ref> {
    if rows == [] then [] else AllRecords(rows[..|rows| - 1]) + rows[|rows| - 1].records
  }

  /** A dictionary from path to ref, in insertion order. */
  function Upsert(refs: seq<Ref>, r: Ref): seq<Ref> {
    if refs == [] then [r]
    else if refs[|refs| - 1].path == r.path then refs[..|refs| - 1] + [r]
    else Upsert(refs[..|refs| - 1], r) + [refs[|refs| - 1]]
  }

  function SdRefs(rows: seq<SourceRow>): seq<Ref> {
    if rows == [] then [] else Upsert(SdRefs(rows[..|rows| - 1]), rows[|rows| - 1].sd)
  }

  function RefPaths(refs: seq<Ref>): set<string> {
    set i | 0 <= i < |refs| :: refs[i].path
  }

  predicate SourceFits(h: Hashing, files: Files, sources: seq<Ref>, rows: seq<SourceRow>) {
    && RefPaths(sources) == (set i | 0 <= i < |rows| :: rows[i].copy.path)
    && forall i | 0 <= i < |rows| ::
         && rows[i].copy in sources && Holds(h, files, rows[i].copy) && Holds(h, files, rows[i].sd)
         && h.sha(files[rows[i].sd.path]) == rows[i].identity.acl
  }

  function Members(h: Hashing, files: Files, sources: seq<Ref>, rows: seq<SourceRow>): seq<Ref>
    requires "source-manifest.json" in files && "lifecycle.json" in files && "attempts.json" in files
  {
    SortRefs(sources + SdRefs(rows)
             + [RefOf(h, "source-manifest.json", files["source-manifest.json"]),
                RefOf(h, "lifecycle.json", files["lifecycle.json"]),
                RefOf(h, "attempts.json", files["attempts.json"])])
  }

  /** The catalog stored under the projection's prefix. */
  function StoredCatalog(h: Hashing, files: Files, p: Doc): Option<seq<Bytes>> {
    if p.Projection? && HoldsAll(h, files, p.prefix) then Some(Contents(files, p.prefix)) else None
  }

  /** The documents agree with the catalog: identity, session closure, requests and configuration. */
  predicate Derived(t: Setting, files: Files, p: Doc, l: Doc, s: Doc, c: Doc, catalog: seq<Bytes>)
    requires p.Projection? && l.Lifecycle? && s.Source? && c.CutDoc? && catalog != []
    requires "lifecycle.json" in files && "attempts.json" in files
  {
    var h, lives := t.k.h, Catalog.Lives(t.cat, catalog);
    var own := Own(lives, p.session);
    && (forall d <- {l, s, c} :: d.instance == p.instance && d.session == p.session)
    && Catalog.Scan(t.cat, catalog).Some?
    && Catalog.Parse(t.cat, catalog[0]).Some?
    && (var opening := Catalog.Parse(t.cat, catalog[0]).value.payload;
        opening.InstanceBegin? && opening.config == t.archiveRef && opening.freeze == t.freezeRef)
    && Catalog.Scan(t.cat, catalog).value.instance == Some(p.instance)
    && own == p.attempts == l.attempts
    && (forall i | 0 <= i < |own| :: 1 <= own[i] <= |lives| && lives[own[i] - 1].end.Some?)
    && Expected(t.arc, files, lives, own) == Some(p.requests)
    && p.lifecycle == RefOf(h, "lifecycle.json", files["lifecycle.json"])
    && c.projection == RefOf(h, "attempts.json", files["attempts.json"])
    && c.head == s.head == RefOf(h, CatalogPath(|catalog| - 1), catalog[|catalog| - 1])
    && c.opening == RefOf(h, CatalogPath(0), catalog[0])
    && c.config == s.config == RefOf(h, t.configPath, t.configRaw)
    && c.reason == l.reason
  }

  /** The four documents of an unexported set, each in its place and of its kind. */
  predicate Documented(t: Setting, files: Files) {
    var k := t.k;
    && Load(k, files, "attempts.json").Some? && Load(k, files, "attempts.json").value.Projection?
    && Load(k, files, "lifecycle.json").Some? && Load(k, files, "lifecycle.json").value.Lifecycle?
    && Load(k, files, "source-manifest.json").Some? && Load(k, files, "source-manifest.json").value.Source?
    && Load(k, files, "cut.json").Some? && Load(k, files, "cut.json").value.CutDoc?
  }

  function Projected(t: Setting, files: Files): (d: Doc)
    requires Documented(t, files)
    ensures d.Projection?
  {
    Load(t.k, files, "attempts.json").value
  }

  function Manifest(t: Setting, files: Files): (d: Doc)
    requires Documented(t, files)
    ensures d.Source?
  {
    Load(t.k, files, "source-manifest.json").value
  }

  function CutOf(t: Setting, files: Files): (d: Doc)
    requires Documented(t, files)
    ensures d.CutDoc?
  {
    Load(t.k, files, "cut.json").value
  }

  /** Every original the projection names: the catalog prefix and the session's request records. */
  function Sources(p: Doc): seq<Ref>
    requires p.Projection?
  {
    p.prefix + AllRecords(p.requests)
  }

  function AllMembers(t: Setting, files: Files): seq<Ref>
    requires Documented(t, files)
  {
    SortRefs(CutOf(t, files).members + [RefOf(t.k.h, "cut.json", files["cut.json"])])
  }

  predicate Exported(t: Setting, files: Files)
    requires Documented(t, files)
  {
    && Load(t.k, files, "export.json").Some? && Load(t.k, files, "export.json").value.Export?
    && var e, p := Load(t.k, files, "export.json").value, Projected(t, files);
       && e.instance == p.instance && e.session == p.session
       && e.members == AllMembers(t, files) && e.cut == RefOf(t.k.h, "cut.json", files["cut.json"])
  }

  /** `CutCodec._verify`: with `exported`, `verify`; without, `verify_cut`. */
  predicate Accepts(t: Setting, files: Files, exported: bool) {
    Documented(t, files) &&
    var h, p, s, c := t.k.h, Projected(t, files), Manifest(t, files), CutOf(t, files);
    && StoredCatalog(h, files, p).Some?
    && StoredCatalog(h, files, p).value != []
    && Derived(t, files, p, Load(t.k, files, "lifecycle.json").value, s, c, StoredCatalog(h, files, p).value)
    && SourceFits(h, files, Sources(p), s.files)
    && c.members == Members(h, files, Sources(p), s.files)
    && (exported ==> Exported(t, files))
    && files.Keys == RefPaths(AllMembers(t, files)) + (if exported then {"export.json"} else {})
    && HoldsAll(h, files, AllMembers(t, files))
  }
}
