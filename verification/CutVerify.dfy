/** `CutCodec._verify` and `_session_prefix` as the loops that compute them. */
module CutVerify {

  import opened Base
  import opened Names
  import opened Cut
  import opened Export
  import Archive
  import Catalog
  import Ledger

  /** The `begins`, `acks` and `ends` tables, filled record by record. */
  method CollectLives(c: Catalog.Codec, catalog: seq<Bytes>) returns (lives: seq<Catalog.Life>)
    ensures lives == Catalog.Lives(c, catalog)
  {
    lives := [];
    for i := 0 to |catalog|
      invariant lives == Catalog.Lives(c, catalog[..i])
    {
      assert catalog[..i + 1][..i] == catalog[..i];
      var row := Catalog.Parse(c, catalog[i]);
      if row.Some? { lives := Catalog.Told(lives, row.value.payload); }
    }
    assert catalog[..|catalog|] == catalog;
  }

  method CollectOwn(lives: seq<Catalog.Life>, session: string) returns (own: seq<nat>)
    ensures own == Own(lives, session)
  {
    own := [];
    for i := 0 to |lives|
      invariant own == Own(lives[..i], session)
    {
      assert lives[..i + 1][..i] == lives[..i];
      if BelongsTo(lives[i], session) { own := own + [i + 1]; }
    }
    assert lives[..|lives|] == lives;
  }

  // ----- The verifier -----

  /** The expected request rows, or the first mismatch. */
  method CollectExpected(arc: Archive.Codec, files: Files, lives: seq<Catalog.Life>, own: seq<nat>)
    returns (r: Option<seq<RequestRow>>)
    ensures r == Expected(arc, files, lives, own)
  {
    hide RequestFits, RequestStored, RequestRefs;
    var rows: seq<RequestRow> := [];
    for i := 0 to |own|
      invariant Expected(arc, files, lives, own[..i]) == Some(rows)
    {
      assert own[..i + 1][..i] == own[..i];
      ExpectedPrefix(arc, files, lives, own, i + 1);
      var n := own[i];
      if !(1 <= n <= |lives|) { return None; }
      if Catalog.IsRefused(lives[n - 1]) { continue; }
      if !RequestStored(arc.h, files, n, lives[n - 1]) { return None; }
      var refs := RequestRefs(arc.h, files, n, lives[n - 1]);
      StoredPaths(arc.h, files, n, lives[n - 1]);
      if !RequestFits(arc, n, lives[n - 1], Contents(files, refs)) { return None; }
      rows := rows + [RequestRow(n, refs)];
    }
    assert own[..|own|] == own;
    r := Some(rows);
  }

  lemma StoredPaths(h: Hashing, files: Files, n: nat, l: Catalog.Life)
    requires RequestStored(h, files, n, l)
    ensures forall i | 0 <= i < |RequestRefs(h, files, n, l)| :: RequestRefs(h, files, n, l)[i].path in files
  {
  }

  lemma {:induction false} ExpectedPrefix(arc: Archive.Codec, files: Files, lives: seq<Catalog.Life>, own: seq<nat>, k: nat)
    requires k <= |own|
    ensures Expected(arc, files, lives, own[..k]) == None ==> Expected(arc, files, lives, own) == None
  {
    if k == |own| {
      assert own[..k] == own;
    } else {
      var before := own[..|own| - 1];
      ExpectedPrefix(arc, files, lives, before, k);
      assert before[..k] == own[..k];
    }
  }

  /** Every manifest row is checked, and its descriptor entered under its path. */
  method CheckSources(h: Hashing, files: Files, sources: seq<Ref>, rows: seq<SourceRow>) returns (ok: bool, sds: seq<Ref>)
    ensures ok <==> SourceFits(h, files, sources, rows)
    ensures ok ==> sds == SdRefs(rows)
  {
    sds := [];
    if RefPaths(sources) != (set i | 0 <= i < |rows| :: rows[i].copy.path) { return false, sds; }
    for i := 0 to |rows|
      invariant sds == SdRefs(rows[..i])
      invariant forall k | 0 <= k < i ::
                  && rows[k].copy in sources && Holds(h, files, rows[k].copy) && Holds(h, files, rows[k].sd)
                  && h.sha(files[rows[k].sd.path]) == rows[k].identity.acl
    {
      assert rows[..i + 1][..i] == rows[..i];
      if rows[i].copy !in sources || !Holds(h, files, rows[i].copy) || !Holds(h, files, rows[i].sd)
         || h.sha(files[rows[i].sd.path]) != rows[i].identity.acl {
        return false, sds;
      }
      sds := Upsert(sds, rows[i].sd);
    }
    assert rows[..|rows|] == rows;
    ok := true;
  }

  /** The documents against the catalog they carry: identity, closure of the session, derived rows and refs. */
  method CheckDerived(t: Setting, files: Files, p: Doc, l: Doc, s: Doc, c: Doc, catalog: seq<Bytes>) returns (ok: bool)
    requires p.Projection? && l.Lifecycle? && s.Source? && c.CutDoc? && catalog != []
    requires "lifecycle.json" in files && "attempts.json" in files
    ensures ok <==> Derived(t, files, p, l, s, c, catalog)
  {
    hide Catalog.Scan, Catalog.Parse, Catalog.Lives, Own, Expected, CatalogPath;
    var h := t.k.h;
    if l.instance != p.instance || l.session != p.session || s.instance != p.instance || s.session != p.session
       || c.instance != p.instance || c.session != p.session {
      return false;
    }
    var scanned, first := Catalog.Scan(t.cat, catalog), Catalog.Parse(t.cat, catalog[0]);
    if scanned == None || first == None || !first.value.payload.InstanceBegin?
       || first.value.payload.config != t.archiveRef || first.value.payload.freeze != t.freezeRef
       || scanned.value.instance != Some(p.instance) {
      return false;
    }
    var lives := CollectLives(t.cat, catalog);
    var own := CollectOwn(lives, p.session);
    if own != p.attempts || own != l.attempts
       || exists i | 0 <= i < |own| :: !(1 <= own[i] <= |lives| && lives[own[i] - 1].end.Some?) {
      return false;
    }
    var expected := CollectExpected(t.arc, files, lives, own);
    ok := && expected == Some(p.requests)
          && c.projection == RefOf(h, "attempts.json", files["attempts.json"])
          && p.lifecycle == RefOf(h, "lifecycle.json", files["lifecycle.json"])
          && c.head == RefOf(h, CatalogPath(|catalog| - 1), catalog[|catalog| - 1]) && s.head == c.head
          && c.opening == RefOf(h, CatalogPath(0), catalog[0])
          && c.config == RefOf(h, t.configPath, t.configRaw) && s.config == c.config && c.reason == l.reason;
  }

  /** `_verify`: with `exported`, `verify`; without, `verify_cut`. */
  method Verify(t: Setting, files: Files, exported: bool) returns (ok: bool)
    ensures ok <==> Accepts(t, files, exported)
  {
    hide Load, StoredCatalog, SourceFits, Derived, SortRefs, HoldsAll, AllRecords, SdRefs, RefPaths;
    if !Documented(t, files) { return false; }
    var h, k := t.k.h, t.k;
    DocumentsPresent(t, files);
    var p, l, s, c := Load(k, files, "attempts.json").value, Load(k, files, "lifecycle.json").value,
                      Load(k, files, "source-manifest.json").value, Load(k, files, "cut.json").value;
    var stored := StoredCatalog(h, files, p);
    if stored == None || stored.value == [] { return false; }
    var derived := CheckDerived(t, files, p, l, s, c, stored.value);
    if !derived { return false; }
    var sources := p.prefix + AllRecords(p.requests);
    var fits, sds := CheckSources(h, files, sources, s.files);
    if !fits { return false; }
    var members := SortRefs(sources + sds + [RefOf(h, "source-manifest.json", files["source-manifest.json"]),
                                             RefOf(h, "lifecycle.json", files["lifecycle.json"]),
                                             RefOf(h, "attempts.json", files["attempts.json"])]);
    if c.members != members { return false; }
    var all := SortRefs(members + [RefOf(h, "cut.json", files["cut.json"])]);
    if exported && !Exported(t, files) { return false; }
    if files.Keys != RefPaths(all) + (if exported then {"export.json"} else {}) { return false; }
    ok := HoldsAll(h, files, all);
  }

  lemma DocumentsPresent(t: Setting, files: Files)
    requires Documented(t, files)
    ensures files.Keys >= {"attempts.json", "lifecycle.json", "source-manifest.json", "cut.json"}
  {
  }

  // ----- The issued prefix -----

  /** The reader's loop over one directory. */
  method ReadRecords(h: Hashing, disk: Disk, directory: string, n: nat, limit: nat) returns (ok: bool, os: seq<Original>)
    ensures ok <==> Readable(h, disk, directory, n, limit)
    ensures ok ==> os == Records(disk, directory, n)
  {
    os := [];
    for i := 0 to n
      invariant Readable(h, disk, directory, i, limit) && os == Records(disk, directory, n)[..i]
    {
      var path := RecordPath(directory, i);
      if path !in disk || |disk[path].raw| > limit || h.sha(disk[path].sd) != disk[path].identity.acl {
        return false, os;
      }
      os := os + [Original(path, disk[path])];
    }
    ok := true;
  }

  /** One attempt of the session: compared with the ledger's, and its originals read back. */
  method ReadAttempt(w: Ledger.World, s: Ledger.Book, disk: Disk, lives: seq<Catalog.Life>, n: nat)
    returns (ok: bool, records: seq<Original>)
    ensures ok <==> Settled(w, s, disk, lives, n)
    ensures ok ==> records == OriginalsFor(w.cat.h, disk, lives, n)
  {
    hide ReadsBack, Readable, Records, Directory, Raws;
    records := [];
    if !(Ledger.Owned(s, n) && n <= |lives|) { return false, records; }
    var l, a := lives[n - 1], Ledger.At(s, n);
    if !l.begin.AttemptBegin? || l.end == None || !l.end.value.AttemptEnd? || a.phase != Ledger.Ended
       || l.begin.key != a.key || l.begin.tool != a.tool || l.begin.arguments != a.arguments
       || l.begin.decision != a.decision {
      return false, records;
    }
    if a.decision == Catalog.Rejected {
      return l.end.value.disposition == Catalog.Refused && l.ack == None, records;
    }
    ok, records := ReadRecords(w.cat.h, disk, Directory(w.cat.h, n, a.key), l.end.value.records, w.arc.maxRecordBytes);
    ok := ok && ReadsBack(w.arc, n, l, Raws(records));
  }

  method CheckCatalog(w: Ledger.World, s: Ledger.Book, disk: Disk) returns (ok: bool, originals: seq<Original>)
    ensures ok <==> CatalogRead(w, s, disk)
    ensures ok ==> originals == Records(disk, "c", s.count)
  {
    hide Catalog.Scan, Readable, Records, Raws;
    originals := [];
    if s.count == 0 || s.head == None { return false, originals; }
    ok, originals := ReadRecords(w.cat.h, disk, "c", s.count, w.cat.maxRecordBytes);
    if !ok { return; }
    var v := Catalog.Scan(w.cat, Raws(originals));
    ok := v.Some? && v.value.instance == Some(w.instance) && v.value.count == s.count && v.value.head == s.head;
  }

  /** `_session_prefix`, once the catalog lock is held. */
  method SessionPrefix(w: Ledger.World, s: Ledger.Book, disk: Disk, session: string) returns (r: Option<Prefix>)
    ensures r == TakePrefix(w, s, disk, session)
  {
    hide Catalog.Lives, Own, Records, SameAttempts, CatalogRead, Settled, OriginalsFor, Raws, Ledger.Available;
    if session == "" || !Ledger.Available(s) { return None; }
    var ok, originals := CheckCatalog(w, s, disk);
    if !ok { return None; }
    var lives := CollectLives(w.cat, Raws(originals));
    var own := CollectOwn(lives, session);
    if !SameAttempts(s, own, session) { return None; }
    ghost var first := originals;
    for i := 0 to |own|
      invariant originals == first + RequestOriginals(w.cat.h, disk, lives, own[..i])
      invariant forall k | 0 <= k < i :: Settled(w, s, disk, lives, own[k])
    {
      assert own[..i + 1][..i] == own[..i];
      var read, records := ReadAttempt(w, s, disk, lives, own[i]);
      if !read { return None; }
      originals := originals + records;
    }
    assert own[..|own|] == own;
    HeadKnown(w, s, disk);
    r := Some(Prefix(w.instance, session, s.count, s.head.value, own, originals));
  }

  lemma HeadKnown(w: Ledger.World, s: Ledger.Book, disk: Disk)
    requires CatalogRead(w, s, disk)
    ensures s.head.Some?
  {
  }
}
