/** What an accepted session cut pins down: every byte, and only one session. */
module CutProofs {

  import opened Base
  import opened Names
  import opened Cut
  import Archive
  import Catalog

  /** The two maps agree on every name but `export.json`. */
  ghost predicate AgreeOffExport(a: Files, b: Files) {
    forall name | name != "export.json" :: (name in a <==> name in b) && (name in a ==> a[name] == b[name])
  }

  ghost predicate FilesCollide(h: Hashing, a: Files, b: Files) {
    exists x, y | x in a && y in b :: Collision(h, a[x], b[y])
  }

  /** A file of an accepted map is a member, or the export wrapper, and holds exactly its member's bytes. */
  lemma EveryFileIsMember(t: Setting, files: Files, exported: bool, name: string)
    requires Accepts(t, files, exported) && name in files && name != "export.json"
    ensures RefOf(t.k.h, name, files[name]) in AllMembers(t, files)
  {
    hide Derived, SourceFits, Members, Documented, AllMembers, StoredCatalog;
    var all := AllMembers(t, files);
    assert name in RefPaths(all);
    var i :| 0 <= i < |all| && all[i].path == name;
    assert Holds(t.k.h, files, all[i]);
  }

  /**
   * Tamper evidence: two accepted maps with the same cut.json ref agree on every byte outside
   * export.json, or two of their files collide.
   */
  lemma EqualCutsEqualFiles(t: Setting, a: Files, b: Files, ea: bool, eb: bool)
    requires Accepts(t, a, ea) && Accepts(t, b, eb)
    requires RefOf(t.k.h, "cut.json", a["cut.json"]) == RefOf(t.k.h, "cut.json", b["cut.json"])
    ensures AgreeOffExport(a, b) || FilesCollide(t.k.h, a, b)
  {
    hide Derived, SourceFits, Members, StoredCatalog, Shape;
    var h := t.k.h;
    if a["cut.json"] != b["cut.json"] {
      assert Collision(h, a["cut.json"], b["cut.json"]);
    } else if !FilesCollide(h, a, b) {
      assert AllMembers(t, a) == AllMembers(t, b);
      forall name | name != "export.json" ensures (name in a <==> name in b) && (name in a ==> a[name] == b[name]) {
        if name in a { SameMember(t, a, b, ea, eb, name); }
        if name in b { SameMember(t, b, a, eb, ea, name); }
      }
    }
  }

  lemma SameMember(t: Setting, a: Files, b: Files, ea: bool, eb: bool, name: string)
    requires Accepts(t, a, ea) && Accepts(t, b, eb) && AllMembers(t, a) == AllMembers(t, b)
    requires name in a && name != "export.json"
    ensures name in b && (a[name] == b[name] || Collision(t.k.h, a[name], b[name]))
  {
    hide Derived, SourceFits, Members, Documented, AllMembers, StoredCatalog;
    EveryFileIsMember(t, a, ea, name);
    var all := AllMembers(t, b);
    var i :| 0 <= i < |all| && all[i] == RefOf(t.k.h, name, a[name]);
    assert Holds(t.k.h, b, all[i]);
  }

  // ----- Isolation -----

  /** `raws` is the chain of a NEW, acknowledged and ended attempt of `session`, and holds `raw` at `i`. */
  ghost predicate IsOwnRecord(t: Setting, lives: seq<Catalog.Life>, session: string, n: nat, i: nat, raws: seq<Bytes>,
                              name: string, raw: Bytes) {
    && 1 <= n <= |lives| && i < |raws| && raws[i] == raw
    && lives[n - 1].begin.AttemptBegin? && lives[n - 1].begin.key.session == session
    && lives[n - 1].begin.decision == Catalog.New
    && RequestFits(t.arc, n, lives[n - 1], raws)
    && name == CopyOf(RecordPath(Directory(t.arc.h, n, lives[n - 1].begin.key), i))
  }

  ghost predicate IsOwnCopy(t: Setting, lives: seq<Catalog.Life>, session: string, name: string, raw: Bytes) {
    exists n, i, raws :: IsOwnRecord(t, lives, session, n, i, raws, name, raw)
  }

  lemma {:induction false} RecordsElements(rows: seq<RequestRow>, r: Ref)
    requires r in AllRecords(rows)
    ensures exists j, i :: 0 <= j < |rows| && 0 <= i < |rows[j].records| && rows[j].records[i] == r
  {
    var m := |rows| - 1;
    if r in rows[m].records {
      var i :| 0 <= i < |rows[m].records| && rows[m].records[i] == r;
      assert rows[m].records[i] == r;
    } else {
      RecordsElements(rows[..m], r);
      var j, i :| 0 <= j < m && 0 <= i < |rows[..m][j].records| && rows[..m][j].records[i] == r;
      assert rows[j].records[i] == r;
    }
  }

  lemma {:induction false} UpsertElements(refs: seq<Ref>, r: Ref, x: Ref)
    requires x in Upsert(refs, r)
    ensures x == r || x in refs
  {
    if refs != [] && refs[|refs| - 1].path != r.path && x != refs[|refs| - 1] {
      UpsertElements(refs[..|refs| - 1], r, x);
    }
  }

  lemma {:induction false} SdElements(rows: seq<SourceRow>, x: Ref)
    requires x in SdRefs(rows)
    ensures exists i | 0 <= i < |rows| :: rows[i].sd == x
  {
    var m := |rows| - 1;
    UpsertElements(SdRefs(rows[..m]), rows[m].sd, x);
    if x != rows[m].sd {
      SdElements(rows[..m], x);
      var i :| 0 <= i < m && rows[..m][i].sd == x;
      assert rows[i].sd == x;
    }
  }

  /** A derived request row lists the stored chain of an attempt that was not refused. */
  lemma {:induction false} ExpectedRow(arc: Archive.Codec, files: Files, lives: seq<Catalog.Life>, own: seq<nat>, j: nat)
    requires Expected(arc, files, lives, own).Some? && j < |Expected(arc, files, lives, own).value|
    ensures var row := Expected(arc, files, lives, own).value[j];
            var n := row.attempt;
            && n in own && 1 <= n <= |lives| && !Catalog.IsRefused(lives[n - 1])
            && RequestStored(arc.h, files, n, lives[n - 1]) && row.records == RequestRefs(arc.h, files, n, lives[n - 1])
            && RequestFits(arc, n, lives[n - 1], Contents(files, row.records))
  {
    hide RequestFits, RequestStored;
    var before := own[..|own| - 1];
    var rows := Expected(arc, files, lives, before).value;
    if j < |rows| { ExpectedRow(arc, files, lives, before, j); }
  }

  predicate IsDocument(name: string) {
    name in {"attempts.json", "lifecycle.json", "source-manifest.json", "cut.json", "export.json"}
  }

  ghost predicate IsCatalogCopy(catalog: seq<Bytes>, name: string, raw: Bytes) {
    exists i | 0 <= i < |catalog| :: name == CopyOf(CatalogPath(i)) && raw == catalog[i]
  }

  ghost predicate IsSecurityCopy(rows: seq<SourceRow>, name: string) {
    exists i | 0 <= i < |rows| :: rows[i].sd.path == name
  }

  lemma MemberCases(t: Setting, files: Files, exported: bool, name: string)
    requires Accepts(t, files, exported) && name in files && !IsDocument(name)
    ensures var p, r := Projected(t, files), RefOf(t.k.h, name, files[name]);
            r in p.prefix || r in AllRecords(p.requests) || r in SdRefs(Manifest(t, files).files)
  {
    hide Parse, Derived, StoredCatalog, SourceFits, SdRefs, AllRecords, SortRefs;
    var h, p, s, c := t.k.h, Projected(t, files), Manifest(t, files), CutOf(t, files);
    var r := RefOf(h, name, files[name]);
    EveryFileIsMember(t, files, exported, name);
    SortElements(c.members + [RefOf(h, "cut.json", files["cut.json"])], r);
    SortElements(Sources(p) + SdRefs(s.files)
                 + [RefOf(h, "source-manifest.json", files["source-manifest.json"]),
                    RefOf(h, "lifecycle.json", files["lifecycle.json"]),
                    RefOf(h, "attempts.json", files["attempts.json"])], r);
  }

  /**
   * Session isolation: besides the documents, an accepted map holds only copies of the global catalog,
   * security descriptors, and records of NEW, acknowledged and ended attempts of its one session.
   */
  lemma OnlyThisSession(t: Setting, files: Files, exported: bool, name: string)
    requires Accepts(t, files, exported) && name in files && !IsDocument(name) && t.arc.h == t.k.h
    ensures var p := Projected(t, files);
            var catalog := StoredCatalog(t.k.h, files, p).value;
            var lives := Catalog.Lives(t.cat, catalog);
            || IsCatalogCopy(catalog, name, files[name])
            || IsSecurityCopy(Manifest(t, files).files, name)
            || IsOwnCopy(t, lives, p.session, name, files[name])
  {
    hide Derived, StoredCatalog, Documented, Projected, Manifest, Sources, SdRefs, AllRecords, SourceFits, Members,
         AllMembers, IsOwnCopy, Catalog.Lives;
    var p, s := Projected(t, files), Manifest(t, files);
    var r := RefOf(t.k.h, name, files[name]);
    MemberCases(t, files, exported, name);
    if r in p.prefix {
      CatalogMember(t, files, exported, name);
    } else if r in AllRecords(p.requests) {
      RecordMember(t, files, exported, name);
    } else {
      SdElements(s.files, r);
    }
  }

  lemma CatalogMember(t: Setting, files: Files, exported: bool, name: string)
    requires Accepts(t, files, exported) && name in files
    requires RefOf(t.k.h, name, files[name]) in Projected(t, files).prefix
    ensures IsCatalogCopy(StoredCatalog(t.k.h, files, Projected(t, files)).value, name, files[name])
  {
    hide Documented, Projected, Derived, SourceFits, Members, AllMembers, Exported;
    var h, p := t.k.h, Projected(t, files);
    var i :| 0 <= i < |p.prefix| && p.prefix[i] == RefOf(h, name, files[name]);
    PrefixPath(t, files, i);
    assert StoredCatalog(h, files, p).value[i] == files[name];
  }

  lemma RecordMember(t: Setting, files: Files, exported: bool, name: string)
    requires Accepts(t, files, exported) && name in files && t.arc.h == t.k.h
    requires RefOf(t.k.h, name, files[name]) in AllRecords(Projected(t, files).requests)
    ensures var p := Projected(t, files);
            var lives := Catalog.Lives(t.cat, StoredCatalog(t.k.h, files, p).value);
            IsOwnCopy(t, lives, p.session, name, files[name])
  {
    hide Projected, Documented, StoredCatalog, SourceFits, Members, AllMembers, Exported, AllRecords, Expected, Own,
         IsOwnCopy, Catalog.Lives;
    var h, p := t.k.h, Projected(t, files);
    var r := RefOf(h, name, files[name]);
    RecordsElements(p.requests, r);
    var j, i :| 0 <= j < |p.requests| && 0 <= i < |p.requests[j].records| && p.requests[j].records[i] == r;
    OwnRow(t, files, Catalog.Lives(t.cat, StoredCatalog(h, files, p).value), p, j, i, r);
  }

  lemma PrefixPath(t: Setting, files: Files, i: nat)
    requires Documented(t, files) && i < |Projected(t, files).prefix|
    ensures Projected(t, files).prefix[i].path == CopyOf(CatalogPath(i))
  {
  }

  lemma OwnRow(t: Setting, files: Files, lives: seq<Catalog.Life>, p: Doc, j: nat, i: nat, r: Ref)
    requires p.Projection? && Expected(t.arc, files, lives, Own(lives, p.session)) == Some(p.requests)
    requires j < |p.requests| && i < |p.requests[j].records| && p.requests[j].records[i] == r && r.path in files
    ensures IsOwnCopy(t, lives, p.session, r.path, files[r.path])
  {
    hide RequestFits;
    var own, row := Own(lives, p.session), p.requests[j];
    ExpectedRow(t.arc, files, lives, own, j);
    OwnIsSession(lives, p.session, row.attempt);
    assert IsOwnRecord(t, lives, p.session, row.attempt, i, Contents(files, row.records), r.path, files[r.path]);
  }

  // ----- Closure -----

  lemma {:induction false} ExpectedHolds(arc: Archive.Codec, files: Files, lives: seq<Catalog.Life>, own: seq<nat>, n: nat)
    requires Expected(arc, files, lives, own).Some? && n in own && 1 <= n <= |lives| && !Catalog.IsRefused(lives[n - 1])
    ensures RequestStored(arc.h, files, n, lives[n - 1])
    ensures RequestFits(arc, n, lives[n - 1], Contents(files, RequestRefs(arc.h, files, n, lives[n - 1])))
  {
    hide RequestFits, RequestStored, RequestRefs;
    var m := |own| - 1;
    assert own == own[..m] + [own[m]];
    if n != own[m] { ExpectedHolds(arc, files, lives, own[..m], n); }
  }

  /** The attempts an accepted map speaks of, and the lives its catalog tells. */
  ghost function LivesOf(t: Setting, files: Files): seq<Catalog.Life>
    requires Documented(t, files) && StoredCatalog(t.k.h, files, Projected(t, files)).Some?
  {
    Catalog.Lives(t.cat, StoredCatalog(t.k.h, files, Projected(t, files)).value)
  }

  /** An accepted map lists exactly the attempts of its session, each ended. */
  lemma WholeSession(t: Setting, files: Files, exported: bool, n: nat)
    requires Accepts(t, files, exported)
    ensures var p, lives := Projected(t, files), LivesOf(t, files);
            && (n in p.attempts <==>
                  1 <= n <= |lives| && lives[n - 1].begin.AttemptBegin? && lives[n - 1].begin.key.session == p.session)
            && (n in p.attempts ==> lives[n - 1].end.Some?)
  {
    hide Documented, Projected, Manifest, CutOf, StoredCatalog, SourceFits, Members, AllMembers, Exported, Expected, Own,
         Catalog.Lives, Catalog.Scan, Catalog.Parse;
    OwnIsSession(LivesOf(t, files), Projected(t, files).session, n);
  }

  /** For each NEW attempt of its session it holds every record of the chain, and the chain fits the catalog. */
  lemma WholeRequest(t: Setting, files: Files, exported: bool, n: nat)
    requires Accepts(t, files, exported) && n in Projected(t, files).attempts
    requires n <= |LivesOf(t, files)| && n >= 1 && LivesOf(t, files)[n - 1].begin.AttemptBegin?
    requires LivesOf(t, files)[n - 1].begin.decision == Catalog.New
    ensures var l, h := LivesOf(t, files)[n - 1], t.arc.h;
            && l.end.Some? && l.end.value.AttemptEnd?
            && (forall i | 0 <= i < l.end.value.records :: CopyOf(RecordPath(Directory(h, n, l.begin.key), i)) in files)
            && RequestStored(h, files, n, l) && RequestFits(t.arc, n, l, Contents(files, RequestRefs(h, files, n, l)))
  {
    hide Documented, Projected, Manifest, CutOf, StoredCatalog, SourceFits, Members, AllMembers, Exported, Expected, Own,
         Catalog.Lives, Catalog.Scan, Catalog.Parse, RequestFits, RequestRefs, Directory, RecordPath;
    var p, lives := Projected(t, files), LivesOf(t, files);
    ExpectedHolds(t.arc, files, lives, p.attempts, n);
  }

  /**
   * What an accepted map binds: the approved configuration and implementation in the catalog's first
   * record, the catalog's own opening and head, one instance, one session and one reason throughout.
   */
  lemma AcceptedBinds(t: Setting, files: Files, exported: bool)
    requires Accepts(t, files, exported)
    ensures var p, s, c := Projected(t, files), Manifest(t, files), CutOf(t, files);
            var l, h := Load(t.k, files, "lifecycle.json").value, t.k.h;
            var catalog := StoredCatalog(h, files, p).value;
            && catalog != [] && Catalog.Scan(t.cat, catalog).Some?
            && Catalog.Scan(t.cat, catalog).value.instance == Some(p.instance)
            && Catalog.Parse(t.cat, catalog[0]).Some? && Catalog.Parse(t.cat, catalog[0]).value.payload.InstanceBegin?
            && Catalog.Parse(t.cat, catalog[0]).value.payload.config == t.archiveRef
            && Catalog.Parse(t.cat, catalog[0]).value.payload.freeze == t.freezeRef
            && c.opening == RefOf(h, CatalogPath(0), catalog[0])
            && c.head == s.head == RefOf(h, CatalogPath(|catalog| - 1), catalog[|catalog| - 1])
            && c.config == s.config == RefOf(h, t.configPath, t.configRaw)
            && p.instance == l.instance == s.instance == c.instance && p.session == l.session == s.session == c.session
            && p.attempts == l.attempts && c.reason == l.reason
            && p.lifecycle == RefOf(h, "lifecycle.json", files["lifecycle.json"])
            && c.projection == RefOf(h, "attempts.json", files["attempts.json"])
  {
    hide Load, SourceFits, Members, AllMembers, Exported, Expected, Own, Catalog.Lives, Catalog.Scan, Catalog.Parse,
         StoredCatalog, CatalogPath;
  }

  /** Every original of an accepted map has one manifest row: its bytes, and a descriptor with the digest it claims. */
  lemma AcceptedSources(t: Setting, files: Files, exported: bool, r: Ref)
    requires Accepts(t, files, exported) && r in Sources(Projected(t, files))
    ensures exists i | 0 <= i < |Manifest(t, files).files| ::
              var row := Manifest(t, files).files[i];
              && row.copy.path == r.path && Holds(t.k.h, files, row.copy) && Holds(t.k.h, files, row.sd)
              && t.k.h.sha(files[row.sd.path]) == row.identity.acl
  {
    hide Load, Derived, Members, AllMembers, Exported, StoredCatalog, Sources, Projected, Manifest, CutOf, Documented;
    var sources, rows := Sources(Projected(t, files)), Manifest(t, files).files;
    var k :| 0 <= k < |sources| && sources[k] == r;
    assert r.path in RefPaths(sources);
    var i :| 0 <= i < |rows| && rows[i].copy.path == r.path;
  }

  /** The wrapper of an accepted export names its cut, the cut's members with the cut, and the same session. */
  lemma WrapperBinds(t: Setting, files: Files)
    requires Accepts(t, files, true)
    ensures Load(t.k, files, "export.json").Some? && Load(t.k, files, "export.json").value.Export?
    ensures var e, p := Load(t.k, files, "export.json").value, Projected(t, files);
            && e.instance == p.instance && e.session == p.session && e.members == AllMembers(t, files)
            && e.cut == RefOf(t.k.h, "cut.json", files["cut.json"])
  {
    hide Load, Derived, SourceFits, Members, AllMembers, StoredCatalog;
  }

  /**
   * What the request check says of the bytes: the first record is the accept of the catalog's BEGIN, the
   * last the seal its END reports, with the counts and the two refs of ACK and END.
   */
  lemma RequestMeans(arc: Archive.Codec, n: nat, l: Catalog.Life, raws: seq<Bytes>)
    requires RequestFits(arc, n, l, raws)
    ensures var b, z, d := l.begin, l.end.value, Directory(arc.h, n, l.begin.key);
            && |raws| == z.records == z.events + 2 && Archive.TotalBytes(raws) == z.bytes
            && Archive.Parse(arc, raws[0]).Some? && Archive.Parse(arc, raws[|raws| - 1]).Some?
            && Archive.Parse(arc, raws[0]).value.payload == Archive.Accept(b.key, b.tool, b.arguments, n)
            && z.outcome.Some? && z.disposition != Catalog.Refused
            && Archive.Parse(arc, raws[|raws| - 1]).value.payload
               == Archive.Seal(z.outcome.value,
                               if z.disposition == Catalog.Complete then Archive.Complete else Archive.Failed, z.events)
            && l.ack.value.accept == RefOf(arc.h, RecordPath(d, 0), raws[0])
            && z.head == Some(RefOf(arc.h, RecordPath(d, |raws| - 1), raws[|raws| - 1]))
  {
    hide Archive.Scan, Archive.Parse, Directory, RecordPath;
    Archive.ScanMeans(arc, raws);
  }

  /** Every loaded document is canonical, within its byte and depth limits and well shaped. */
  lemma LoadedIsCanonical(k: Codec, files: Files, name: string)
    requires Load(k, files, name).Some?
    ensures var d := Load(k, files, name).value;
            && name in files && files[name] == k.print_(d) && |files[name]| <= Limit(k, d) && k.shallow(files[name]) && Shape(k, d)
            && (d.Lifecycle? ==> k.proven(d.evidence))
  {
  }

  /** The lifecycle evidence of an accepted map was proven. */
  lemma AcceptedProven(t: Setting, files: Files, exported: bool)
    requires Accepts(t, files, exported)
    ensures Load(t.k, files, "lifecycle.json").Some? && Load(t.k, files, "lifecycle.json").value.Lifecycle?
    ensures t.k.proven(Load(t.k, files, "lifecycle.json").value.evidence)
  {
    hide Load, Derived, SourceFits, Members, AllMembers, StoredCatalog, Exported;
    LoadedIsCanonical(t.k, files, "lifecycle.json");
  }
}
