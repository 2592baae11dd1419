/** The snapshot of one ended session that the ledger issues, and the closed file set built from it. */
module Export {

  import opened Base
  import opened Names
  import opened Cut
  import Archive
  import Catalog
  import Ledger

  // ----- The issued prefix -----

  /** A stored file: its bytes, its identity and its security descriptor. */
  datatype StoredFile = StoredFile(raw: Bytes, identity: Catalog.Identity, sd: Bytes)

  datatype Original = Original(path: string, file: StoredFile)

  type Disk = map<string, StoredFile>

  datatype Prefix = Prefix(instance: string, session: string, count: nat, head: Link, attempts: seq<nat>,
                           originals: seq<Original>)

  const ABSENT := StoredFile([], Catalog.Identity("", "", "", "", ""), [])

  function Fetch(disk: Disk, path: string): StoredFile {
    if path in disk then disk[path] else ABSENT
  }

  /** The reader returns every record `0..n` of the directory, each within its limit and with its own descriptor. */
  predicate Readable(h: Hashing, disk: Disk, directory: string, n: nat, limit: nat) {
    forall i | 0 <= i < n :: ReadableAt(h, disk, RecordPath(directory, i), limit)
  }

  predicate ReadableAt(h: Hashing, disk: Disk, path: string, limit: nat) {
    path in disk && |disk[path].raw| <= limit && h.sha(disk[path].sd) == disk[path].identity.acl
  }

  function Records(disk: Disk, directory: string, n: nat): (os: seq<Original>)
    ensures |os| == n
    ensures forall i | 0 <= i < n :: os[i] == Original(RecordPath(directory, i), Fetch(disk, RecordPath(directory, i)))
  {
    seq(n, i requires 0 <= i < n => Original(RecordPath(directory, i), Fetch(disk, RecordPath(directory, i))))
  }

  function Raws(os: seq<Original>): (raws: seq<Bytes>)
    ensures |raws| == |os| && forall i | 0 <= i < |os| :: raws[i] == os[i].file.raw
  {
    seq(|os|, i requires 0 <= i < |os| => os[i].file.raw)
  }

  /** The stored catalog scans to the ledger's own instance, count and head. */
  predicate CatalogRead(w: Ledger.World, s: Ledger.Book, disk: Disk) {
    && s.count > 0 && s.head.Some? && Readable(w.cat.h, disk, "c", s.count, w.cat.maxRecordBytes)
    && match Catalog.Scan(w.cat, Raws(Records(disk, "c", s.count)))
       case None => false
       case Some(v) => v.instance == Some(w.instance) && v.count == s.count && v.head == s.head
  }

  /** The request originals read back as `raws` match the catalog's ACK and END of attempt `n`, head by link. */
  predicate ReadsBack(arc: Archive.Codec, n: nat, l: Catalog.Life, raws: seq<Bytes>) {
    l.begin.AttemptBegin? && l.ack.Some? && l.ack.value.AcceptAck? && l.end.Some? && l.end.value.AttemptEnd? &&
    raws != [] &&
    match Archive.Scan(arc, raws)
    case None => false
    case Some(s) =>
      var z := l.end.value;
      && s.seal.Some? && s.seal.value.Seal?
      && z.disposition == (if s.seal.value.status == Archive.Complete then Catalog.Complete else Catalog.Failed)
      && s.parent == Some(Archive.Parent(l.begin.key, l.begin.tool, l.begin.arguments, n))
      && z.outcome == Some(s.seal.value.outcome)
      && z.head.Some? && s.head == Some(LinkOfRef(z.head.value))
      && s.events == z.events && Archive.TotalBytes(raws) == z.bytes
      && l.ack.value.accept == RefOf(arc.h, RecordPath(Directory(arc.h, n, l.begin.key), 0), raws[0])
  }

  function RequestRecords(h: Hashing, disk: Disk, n: nat, l: Catalog.Life): seq<Original> {
    if l.begin.AttemptBegin? && l.end.Some? && l.end.value.AttemptEnd? then
      Records(disk, Directory(h, n, l.begin.key), l.end.value.records)
    else []
  }

  /** The ledger's attempt `n` has ended, and the catalog and the originals tell the same of it. */
  predicate Settled(w: Ledger.World, s: Ledger.Book, disk: Disk, lives: seq<Catalog.Life>, n: nat) {
    Ledger.Owned(s, n) && n <= |lives| &&
    var l, a := lives[n - 1], Ledger.At(s, n);
    && l.begin.AttemptBegin? && l.end.Some? && l.end.value.AttemptEnd? && a.phase == Ledger.Ended
    && l.begin.key == a.key && l.begin.tool == a.tool && l.begin.arguments == a.arguments
    && l.begin.decision == a.decision
    && if a.decision == Catalog.Rejected then l.end.value.disposition == Catalog.Refused && l.ack == None
       else
         && Readable(w.cat.h, disk, Directory(w.cat.h, n, a.key), l.end.value.records, w.arc.maxRecordBytes)
         && ReadsBack(w.arc, n, l, Raws(RequestRecords(w.cat.h, disk, n, l)))
  }

  function StoredLives(w: Ledger.World, s: Ledger.Book, disk: Disk): seq<Catalog.Life> {
    Catalog.Lives(w.cat, Raws(Records(disk, "c", s.count)))
  }

  predicate SameAttempts(s: Ledger.Book, own: seq<nat>, session: string) {
    && (forall i | 0 <= i < |own| :: Ledger.Owned(s, own[i]) && Ledger.At(s, own[i]).key.session == session)
    && (forall i | 0 <= i < |s.attempts| && s.attempts[i].key.session == session :: i + 1 in own)
  }

  predicate Issuable(w: Ledger.World, s: Ledger.Book, disk: Disk, session: string) {
    session != "" && Ledger.Available(s) && CatalogRead(w, s, disk) &&
    var lives := StoredLives(w, s, disk);
    && SameAttempts(s, Own(lives, session), session)
    && forall i | 0 <= i < |Own(lives, session)| :: Settled(w, s, disk, lives, Own(lives, session)[i])
  }

  function RequestOriginals(h: Hashing, disk: Disk, lives: seq<Catalog.Life>, own: seq<nat>): seq<Original> {
    if own == [] then []
    else
      RequestOriginals(h, disk, lives, own[..|own| - 1]) + OriginalsFor(h, disk, lives, own[|own| - 1])
  }

  /** The originals of attempt `n`, where it was not refused. */
  function OriginalsFor(h: Hashing, disk: Disk, lives: seq<Catalog.Life>, n: nat): seq<Original> {
    if 1 <= n <= |lives| && !Catalog.IsRefused(lives[n - 1]) then RequestRecords(h, disk, n, lives[n - 1]) else []
  }

  /** `_session_prefix`, once the catalog lock is held. */
  function TakePrefix(w: Ledger.World, s: Ledger.Book, disk: Disk, session: string): Option<Prefix> {
    if Issuable(w, s, disk, session) then
      var lives := StoredLives(w, s, disk);
      var own := Own(lives, session);
      Some(Prefix(w.instance, session, s.count, s.head.value, own,
                  Records(disk, "c", s.count) + RequestOriginals(w.cat.h, disk, lives, own)))
    else None
  }

  // ----- The documents -----

  /** The exporter: what the verifier knows, the approved root, and the native descriptor evaluation. */
  datatype Exporter = Exporter(t: Setting, root: Catalog.Identity, evaluates: (Bytes, string) -> bool)

  predicate Secure(x: Exporter, f: StoredFile) {
    && f.identity.principal == x.root.principal && f.identity.volume == x.root.volume
    && f.sd != [] && x.evaluates(f.sd, f.identity.owner) && x.t.k.h.sha(f.sd) == f.identity.acl
  }

  function RowOf(h: Hashing, o: Original): SourceRow {
    SourceRow(RefOf(h, o.path, o.file.raw), RefOf(h, CopyOf(o.path), o.file.raw), o.file.identity,
              RefOf(h, SdPath(o.file.identity.acl), o.file.sd))
  }

  function Rows(h: Hashing, os: seq<Original>): (rows: seq<SourceRow>)
    ensures |rows| == |os| && forall i | 0 <= i < |os| :: rows[i] == RowOf(h, os[i])
  {
    seq(|os|, i requires 0 <= i < |os| => RowOf(h, os[i]))
  }

  /** The copies and descriptors, a later one of the same name replacing an earlier. */
  function Copied(os: seq<Original>): Files {
    if os == [] then map[]
    else
      var o := os[|os| - 1];
      Copied(os[..|os| - 1])[CopyOf(o.path) := o.file.raw][SdPath(o.file.identity.acl) := o.file.sd]
  }

  /** The refs of those files, in the dictionary's insertion order. */
  function Listing(h: Hashing, os: seq<Original>): seq<Ref> {
    if os == [] then []
    else
      var row := RowOf(h, os[|os| - 1]);
      Upsert(Upsert(Listing(h, os[..|os| - 1]), row.copy), row.sd)
  }

  function SourceRefs(h: Hashing, os: seq<Original>): (refs: seq<Ref>)
    ensures |refs| == |os| && forall i | 0 <= i < |os| :: refs[i] == RefOf(h, os[i].path, os[i].file.raw)
  {
    seq(|os|, i requires 0 <= i < |os| => RefOf(h, os[i].path, os[i].file.raw))
  }

  /** The refs whose path lies in the directory, in the order given. */
  function Under(refs: seq<Ref>, directory: string): seq<Ref> {
    if refs == [] then []
    else
      var r := refs[|refs| - 1];
      Under(refs[..|refs| - 1], directory) + (if StartsWith(r.path, directory + "/") then [r] else [])
  }

  function Copies(refs: seq<Ref>): (copies: seq<Ref>)
    ensures |copies| == |refs|
    ensures forall i | 0 <= i < |refs| :: copies[i] == Ref(CopyOf(refs[i].path), refs[i].size, refs[i].sha)
  {
    seq(|refs|, i requires 0 <= i < |refs| => Ref(CopyOf(refs[i].path), refs[i].size, refs[i].sha))
  }

  /** One request's records: the sorted originals, filtered by directory. */
  function RecordsOf(h: Hashing, os: seq<Original>, directory: string): seq<Ref> {
    Copies(Under(SortRefs(SourceRefs(h, os)), directory))
  }

  function RequestRows(h: Hashing, os: seq<Original>, lives: seq<Catalog.Life>, own: seq<nat>): seq<RequestRow> {
    if own == [] then []
    else
      var n := own[|own| - 1];
      RequestRows(h, os, lives, own[..|own| - 1]) + RowFor(h, os, lives, n)
  }

  /** The row of attempt `n`, where it was admitted. */
  function RowFor(h: Hashing, os: seq<Original>, lives: seq<Catalog.Life>, n: nat): seq<RequestRow> {
    if 1 <= n <= |lives| && lives[n - 1].begin.AttemptBegin? && lives[n - 1].begin.decision == Catalog.New then
      [RequestRow(n, RecordsOf(h, os, Directory(h, n, lives[n - 1].begin.key)))]
    else []
  }

  /** The prefix lists its catalog records first, in order. */
  function CatalogOf(p: Prefix): (raws: seq<Bytes>)
    requires p.count <= |p.originals|
    ensures |raws| == p.count
  {
    Raws(p.originals[..p.count])
  }

  function ConfigRef(t: Setting): Ref {
    RefOf(t.k.h, t.configPath, t.configRaw)
  }

  function HeadRef(p: Prefix): Ref {
    Ref(CatalogPath(if p.count == 0 then 0 else p.count - 1), p.head.size, p.head.sha)
  }

  function SourceDoc(x: Exporter, p: Prefix): Doc {
    Source(p.instance, p.session, ConfigRef(x.t), HeadRef(p), Rows(x.t.k.h, p.originals))
  }

  /** The caller's lifecycle record with the prefix's attempts in it. */
  function LifecycleDoc(p: Prefix, l: Doc): Doc
    requires l.Lifecycle?
  {
    l.(attempts := p.attempts)
  }

  function ProjectionDoc(x: Exporter, p: Prefix, l: Doc): Doc
    requires l.Lifecycle? && p.count <= |p.originals|
  {
    var h := x.t.k.h;
    var lives := Catalog.Lives(x.t.cat, CatalogOf(p));
    Projection(p.instance, p.session, Copies(SourceRefs(h, p.originals[..p.count])), p.attempts,
               RequestRows(h, p.originals, lives, p.attempts),
               RefOf(h, "lifecycle.json", x.t.k.print_(LifecycleDoc(p, l))))
  }

  /** The listed refs of the three documents written before the cut. */
  function DocumentRefs(x: Exporter, p: Prefix, l: Doc): seq<Ref>
    requires l.Lifecycle? && p.count <= |p.originals|
  {
    var h, print_ := x.t.k.h, x.t.k.print_;
    [RefOf(h, "source-manifest.json", print_(SourceDoc(x, p))),
     RefOf(h, "lifecycle.json", print_(LifecycleDoc(p, l))),
     RefOf(h, "attempts.json", print_(ProjectionDoc(x, p, l)))]
  }

  function CutDocument(x: Exporter, p: Prefix, l: Doc): Doc
    requires l.Lifecycle? && 0 < p.count <= |p.originals|
  {
    var h := x.t.k.h;
    CutDoc(p.instance, p.session, RefOf(h, CatalogPath(0), CatalogOf(p)[0]), ConfigRef(x.t), HeadRef(p),
           RefOf(h, "attempts.json", x.t.k.print_(ProjectionDoc(x, p, l))),
           SortRefs(Listing(h, p.originals) + DocumentRefs(x, p, l)), l.reason)
  }

  function FilesOf(x: Exporter, p: Prefix, l: Doc): Files
    requires l.Lifecycle? && 0 < p.count <= |p.originals|
  {
    var print_ := x.t.k.print_;
    Copied(p.originals)["source-manifest.json" := print_(SourceDoc(x, p))]
      ["lifecycle.json" := print_(LifecycleDoc(p, l))]
      ["attempts.json" := print_(ProjectionDoc(x, p, l))]
      ["cut.json" := print_(CutDocument(x, p, l))]
  }

  predicate Encodes(k: Codec, d: Doc) {
    Parse(k, k.print_(d)).Some?
  }

  /** Printed within its byte limit and the depth gate. */
  predicate Compact(k: Codec, d: Doc) {
    |k.print_(d)| <= Limit(k, d) && k.shallow(k.print_(d))
  }

  predicate AllSecure(x: Exporter, os: seq<Original>) {
    forall i | 0 <= i < |os| :: Secure(x, os[i].file)
  }

  /** `_documents` up to its own `verify_cut` call. */
  function Build(x: Exporter, p: Prefix, l: Doc): Option<Files>
    requires l.Lifecycle? && 0 < p.count <= |p.originals|
  {
    if DistinctPaths(SourceRefs(x.t.k.h, p.originals)) && AllSecure(x, p.originals)
       && Encodes(x.t.k, SourceDoc(x, p)) && Encodes(x.t.k, LifecycleDoc(p, l))
       && Encodes(x.t.k, ProjectionDoc(x, p, l)) && Encodes(x.t.k, CutDocument(x, p, l)) then
      Some(FilesOf(x, p, l))
    else None
  }
}
