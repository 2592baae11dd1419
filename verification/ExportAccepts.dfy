/** Every file set the exporter builds from an issued prefix is accepted by the independent verifier. */
module ExportAccepts {

  import opened Base
  import opened Names
  import opened Cut
  import opened Export
  import opened ExportPaths
  import opened ExportFiles
  import opened ExportProofs
  import opened ExportShapes
  import Catalog

  /** The catalog's first record binds the approved configuration. */
  ghost predicate Bound(t: Setting, opening: Bytes) {
    Catalog.Parse(t.cat, opening).Some? &&
    var payload := Catalog.Parse(t.cat, opening).value.payload;
    payload.InstanceBegin? && payload.config == t.archiveRef && payload.freeze == t.freezeRef
  }

  /** The premises of the producer theorem; `lives` is what the prefix's catalog tells. */
  ghost predicate Premises(x: Exporter, disk: Disk, p: Prefix, lives: seq<Catalog.Life>, l: Doc) {
    && Printing(x.t) && Ready(x.t, disk, p, lives) && Proven(x.t, p, l)
    && Consistent(p.originals)
    && 0 < p.count <= |p.originals|
    && Build(x, p, l).Some?
    && Bound(x.t, CatalogOf(p)[0])
  }

  // ----- What the files hold -----

  lemma FilesHold(x: Exporter, p: Prefix, l: Doc, i: nat)
    requires l.Lifecycle? && 0 < p.count <= |p.originals| && Consistent(p.originals) && i < |p.originals|
    ensures HoldsOriginal(FilesOf(x, p, l), p.originals[i])
  {
    hide CopyOf, SdPath, SourceDoc, LifecycleDoc, ProjectionDoc, CutDocument, Copied;
    CopiedHolds(p.originals, i);
    NamesApart(p.originals[i].path, p.originals[i].file.identity.acl);
  }

  lemma FilesLoad(x: Exporter, disk: Disk, p: Prefix, lives: seq<Catalog.Life>, l: Doc)
    requires Premises(x, disk, p, lives, l)
    ensures var f, k := FilesOf(x, p, l), x.t.k;
            && Load(k, f, "attempts.json") == Some(ProjectionDoc(x, p, l))
            && Load(k, f, "lifecycle.json") == Some(LifecycleDoc(p, l))
            && Load(k, f, "source-manifest.json") == Some(SourceDoc(x, p))
            && Load(k, f, "cut.json") == Some(CutDocument(x, p, l))
  {
    hide Ready, SourceDoc, LifecycleDoc, ProjectionDoc, CutDocument, Encodes, Shape, Copied, Consistent, Bound, Parse,
         Printing;
    var t := x.t;
    SourceShape(x, disk, p, lives);
    LifecycleShape(t, disk, p, lives, l);
    ProjectionShape(x, disk, p, lives, l);
    CutShape(x, disk, p, lives, l);
    ShapedEncodes(t, SourceDoc(x, p));
    ShapedEncodes(t, LifecycleDoc(p, l));
    ShapedEncodes(t, ProjectionDoc(x, p, l));
    ShapedEncodes(t, CutDocument(x, p, l));
  }

  lemma KindsOf(x: Exporter, p: Prefix, l: Doc)
    requires l.Lifecycle? && 0 < p.count <= |p.originals|
    ensures SourceDoc(x, p).Source? && LifecycleDoc(p, l).Lifecycle? && ProjectionDoc(x, p, l).Projection?
    ensures CutDocument(x, p, l).CutDoc?
  {
  }

  lemma FilesDocumented(x: Exporter, disk: Disk, p: Prefix, lives: seq<Catalog.Life>, l: Doc)
    requires Premises(x, disk, p, lives, l)
    ensures var f := FilesOf(x, p, l);
            && Documented(x.t, f) && Projected(x.t, f) == ProjectionDoc(x, p, l)
            && Manifest(x.t, f) == SourceDoc(x, p) && CutOf(x.t, f) == CutDocument(x, p, l)
  {
    hide Ready, SourceDoc, LifecycleDoc, ProjectionDoc, CutDocument, Build, Consistent, Bound, Load, Printing;
    FilesLoad(x, disk, p, lives, l);
    KindsOf(x, p, l);
  }

  // ----- The verifier's clauses, one by one -----

  lemma CatalogStored(x: Exporter, disk: Disk, p: Prefix, lives: seq<Catalog.Life>, l: Doc)
    requires Premises(x, disk, p, lives, l)
    ensures StoredCatalog(x.t.k.h, FilesOf(x, p, l), ProjectionDoc(x, p, l)) == Some(CatalogOf(p))
  {
    hide Ready, Build, Bound, FilesOf, RequestRows, Catalog.Lives, Consistent, Printing;
    var f, h := FilesOf(x, p, l), x.t.k.h;
    var prefix := Copies(SourceRefs(h, p.originals[..p.count]));
    forall i | 0 <= i < |prefix| ensures Holds(h, f, prefix[i]) && f[prefix[i].path] == CatalogOf(p)[i] {
      FilesHold(x, p, l, i);
    }
    assert Contents(f, prefix) == CatalogOf(p);
  }

  lemma ChainsStored(x: Exporter, disk: Disk, p: Prefix, lives: seq<Catalog.Life>, l: Doc, n: nat)
    requires Premises(x, disk, p, lives, l) && n in p.attempts && Admitted(lives, n)
    ensures HoldsChain(x.t.k.h, disk, FilesOf(x, p, l), n, lives[n - 1])
  {
    hide Build, Bound, FilesOf, Consistent, Printing, RequestOriginals, RequestRecords, Chained, Catalog.Lives, Own,
         Catalog.Scan, HoldsOriginal;
    var chain := RequestRecords(x.t.k.h, disk, n, lives[n - 1]);
    forall i | 0 <= i < |chain| ensures HoldsOriginal(FilesOf(x, p, l), chain[i]) {
      HoldsAttempt(x.t.k.h, disk, lives, p.attempts, n, chain[i]);
      assert chain[i] in p.originals;
      var k :| 0 <= k < |p.originals| && p.originals[k] == chain[i];
      FilesHold(x, p, l, k);
    }
  }

  lemma RequestsDerived(x: Exporter, disk: Disk, p: Prefix, lives: seq<Catalog.Life>, l: Doc)
    requires Premises(x, disk, p, lives, l)
    ensures Expected(x.t.arc, FilesOf(x, p, l), lives, p.attempts) == Some(RequestRows(x.t.k.h, p.originals, lives, p.attempts))
  {
    hide Ready, Build, Bound, FilesOf, Consistent, Expected, RequestRows, Recovered, AllChained, HoldsChain;
    ReadyParts(x.t, disk, p, lives);
    forall i | 0 <= i < |p.attempts| && Admitted(lives, p.attempts[i])
      ensures HoldsChain(x.t.k.h, disk, FilesOf(x, p, l), p.attempts[i], lives[p.attempts[i] - 1]) {
      ChainsStored(x, disk, p, lives, l, p.attempts[i]);
    }
    RowsExpected(x.t, disk, p.originals, lives, p.attempts, FilesOf(x, p, l));
  }

  lemma SourcesAre(x: Exporter, disk: Disk, p: Prefix, lives: seq<Catalog.Life>, l: Doc)
    requires Printing(x.t) && Ready(x.t, disk, p, lives) && l.Lifecycle? && p.count <= |p.originals|
    ensures Sources(ProjectionDoc(x, p, l)) == Copies(SourceRefs(x.t.k.h, p.originals))
  {
    hide Chained, Recovered, RequestRows, RequestOriginals, Catalog.Lives, Own, Catalog.Scan, AllRecords, Printing;
    ReadyParts(x.t, disk, p, lives);
    RowsRecords(x.t, disk, p.originals, lives, p.attempts);
    var h, catalog := x.t.k.h, Records(disk, "c", p.count);
    assert p.originals[..p.count] == catalog;
    CopiesConcat(h, catalog, RequestOriginals(h, disk, lives, p.attempts));
  }

  lemma SourcesFit(x: Exporter, p: Prefix, l: Doc)
    requires l.Lifecycle? && 0 < p.count <= |p.originals| && Consistent(p.originals) && AllSecure(x, p.originals)
    ensures SourceFits(x.t.k.h, FilesOf(x, p, l), Copies(SourceRefs(x.t.k.h, p.originals)), Rows(x.t.k.h, p.originals))
  {
    hide FilesOf, CopyOf, SdPath, Consistent;
    var f, h, os := FilesOf(x, p, l), x.t.k.h, p.originals;
    var sources, rows := Copies(SourceRefs(h, os)), Rows(h, os);
    forall i | 0 <= i < |rows|
      ensures rows[i].copy == sources[i] && Holds(h, f, rows[i].copy) && Holds(h, f, rows[i].sd)
              && h.sha(f[rows[i].sd.path]) == rows[i].identity.acl {
      FilesHold(x, p, l, i);
    }
    assert RefPaths(sources) == (set i | 0 <= i < |rows| :: rows[i].copy.path);
  }

  lemma HeadsBind(x: Exporter, disk: Disk, p: Prefix, lives: seq<Catalog.Life>)
    requires Ready(x.t, disk, p, lives)
    ensures 0 < p.count <= |p.originals|
    ensures HeadRef(p) == RefOf(x.t.k.h, CatalogPath(p.count - 1), CatalogOf(p)[p.count - 1])
    ensures Catalog.Scan(x.t.cat, CatalogOf(p)).Some?
    ensures Catalog.Scan(x.t.cat, CatalogOf(p)).value.instance == Some(p.instance)
    ensures Catalog.Lives(x.t.cat, CatalogOf(p)) == lives && Own(lives, p.session) == p.attempts
    ensures forall i | 0 <= i < |p.attempts| :: 1 <= p.attempts[i] <= |lives| && lives[p.attempts[i] - 1].end.Some?
  {
    hide RequestOriginals, Own, Catalog.Scan, Catalog.Lives, RequestFits;
    assert p.originals[..p.count] == Records(disk, "c", p.count);
    forall i | 0 <= i < |p.attempts| ensures 1 <= p.attempts[i] <= |lives| && lives[p.attempts[i] - 1].end.Some? {
      assert Chained(x.t, disk, lives, p.attempts[i]);
    }
  }

  lemma FilesDerived(x: Exporter, disk: Disk, p: Prefix, lives: seq<Catalog.Life>, l: Doc)
    requires Premises(x, disk, p, lives, l)
    ensures "lifecycle.json" in FilesOf(x, p, l) && "attempts.json" in FilesOf(x, p, l)
    ensures Derived(x.t, FilesOf(x, p, l), ProjectionDoc(x, p, l), LifecycleDoc(p, l), SourceDoc(x, p),
                    CutDocument(x, p, l), CatalogOf(p))
  {
    hide Ready, Build, Consistent, Expected, RequestRows, Copied, Listing, SortRefs, CatalogOf, HeadRef, ConfigRef,
         Catalog.Scan, Catalog.Lives, Own, Catalog.Parse, DocumentRefs, Rows;
    HeadsBind(x, disk, p, lives);
    RequestsDerived(x, disk, p, lives, l);
    ConfigIs(x.t);
  }

  lemma ConfigIs(t: Setting)
    ensures ConfigRef(t) == RefOf(t.k.h, t.configPath, t.configRaw)
  {
  }

  lemma MembersDerived(x: Exporter, disk: Disk, p: Prefix, lives: seq<Catalog.Life>, l: Doc)
    requires Premises(x, disk, p, lives, l)
    ensures FilesOf(x, p, l).Keys >= {"source-manifest.json", "lifecycle.json", "attempts.json"}
    ensures CutDocument(x, p, l).members
            == Members(x.t.k.h, FilesOf(x, p, l), Copies(SourceRefs(x.t.k.h, p.originals)), Rows(x.t.k.h, p.originals))
  {
    hide Ready, Build, Consistent, Copied, Listing, SortRefs, CatalogOf, HeadRef, ConfigRef, SourceDoc, ProjectionDoc,
         LifecycleDoc, SdRefs, Rows, Bound, Printing;
    MembersAgree(x.t.k.h, p.originals, DocumentRefs(x, p, l));
  }

  // ----- Exact closure -----

  ghost predicate Matches(h: Hashing, files: Files, refs: seq<Ref>) {
    && files.Keys == RefPaths(refs)
    && HoldsAll(h, files, refs)
  }

  /** Writing a name into a dictionary and into its listing keeps them matched. */
  lemma UpsertMatches(h: Hashing, files: Files, refs: seq<Ref>, name: string, raw: Bytes)
    requires Matches(h, files, refs) && DistinctPaths(refs)
    ensures Matches(h, files[name := raw], Upsert(refs, RefOf(h, name, raw)))
    ensures DistinctPaths(Upsert(refs, RefOf(h, name, raw)))
  {
    hide Upsert;
    var r, f := RefOf(h, name, raw), files[name := raw];
    var all := Upsert(refs, r);
    UpsertAdds(refs, r);
    forall k | 0 <= k < |all| ensures Holds(h, f, all[k]) {
      assert all[k] in all;
      if all[k] != r {
        var i :| 0 <= i < |refs| && refs[i] == all[k];
        assert Holds(h, files, refs[i]);
      }
    }
    forall n | n in f ensures n in RefPaths(all) {
      if n == name {
        assert r in all;
      } else {
        var i :| 0 <= i < |refs| && refs[i].path == n;
        assert refs[i] in all;
      }
    }
  }

  lemma {:induction false} CopiedMatches(h: Hashing, os: seq<Original>)
    ensures Matches(h, Copied(os), Listing(h, os)) && DistinctPaths(Listing(h, os))
  {
    hide Matches, DistinctPaths, Upsert, CopyOf, SdPath;
    if os == [] {
      NothingMatches(h);
    } else {
      var m := |os| - 1;
      var o, files, refs := os[m], Copied(os[..m]), Listing(h, os[..m]);
      CopiedMatches(h, os[..m]);
      UpsertMatches(h, files, refs, CopyOf(o.path), o.file.raw);
      UpsertMatches(h, files[CopyOf(o.path) := o.file.raw], Upsert(refs, RowOf(h, o).copy), SdPath(o.file.identity.acl), o.file.sd);
    }
  }

  lemma NothingMatches(h: Hashing)
    ensures Matches(h, map[], []) && DistinctPaths([])
  {
  }

  /** Writing one more, new name extends a matching listing. */
  lemma MatchesMore(h: Hashing, files: Files, refs: seq<Ref>, name: string, raw: Bytes)
    requires Matches(h, files, refs) && name !in files
    ensures Matches(h, files[name := raw], refs + [RefOf(h, name, raw)])
  {
    var all := refs + [RefOf(h, name, raw)];
    forall i | 0 <= i < |all| ensures Holds(h, files[name := raw], all[i]) {
      if i < |refs| { assert Holds(h, files, refs[i]); }
    }
    forall n | n in files[name := raw] ensures n in RefPaths(all) {
      if n == name { assert all[|refs|].path == n; }
      else {
        assert n in RefPaths(refs);
        var i :| 0 <= i < |refs| && refs[i].path == n;
        assert all[i].path == n;
      }
    }
  }

  /** Order does not matter to a matching listing. */
  lemma MatchesSame(h: Hashing, files: Files, a: seq<Ref>, b: seq<Ref>)
    requires Matches(h, files, a) && forall r :: r in a <==> r in b
    ensures Matches(h, files, b)
  {
    forall i | 0 <= i < |b| ensures Holds(h, files, b[i]) {
      assert b[i] in a;
    }
    forall name | name in files ensures name in RefPaths(b) {
      var i :| 0 <= i < |a| && a[i].path == name;
      assert a[i] in b;
    }
  }

  lemma DocumentsAbsent(os: seq<Original>, name: string)
    requires name in {"source-manifest.json", "lifecycle.json", "attempts.json", "cut.json", "export.json"}
    ensures name !in Copied(os)
  {
    hide CopyOf, SdPath, Copied;
    if name in Copied(os) {
      CopiedNames(os, name);
      var i :| 0 <= i < |os| && (name == CopyOf(os[i].path) || name == SdPath(os[i].file.identity.acl));
      NamesApart(os[i].path, os[i].file.identity.acl);
    }
  }

  /** The whole dictionary, in insertion order. */
  function Inventory(x: Exporter, p: Prefix, l: Doc): seq<Ref>
    requires l.Lifecycle? && 0 < p.count <= |p.originals|
  {
    Listing(x.t.k.h, p.originals) + DocumentRefs(x, p, l)
    + [RefOf(x.t.k.h, "cut.json", x.t.k.print_(CutDocument(x, p, l)))]
  }

  lemma FilesMatch(x: Exporter, p: Prefix, l: Doc)
    requires l.Lifecycle? && 0 < p.count <= |p.originals|
    ensures Matches(x.t.k.h, FilesOf(x, p, l), Inventory(x, p, l))
  {
    hide Matches, Copied, Listing, SourceDoc, LifecycleDoc, ProjectionDoc, CutDocument;
    var h, k := x.t.k.h, x.t.k;
    var f0, r0 := Copied(p.originals), Listing(h, p.originals);
    CopiedMatches(h, p.originals);
    DocumentsAbsent(p.originals, "source-manifest.json");
    DocumentsAbsent(p.originals, "lifecycle.json");
    DocumentsAbsent(p.originals, "attempts.json");
    DocumentsAbsent(p.originals, "cut.json");
    var a, b, c, d := k.print_(SourceDoc(x, p)), k.print_(LifecycleDoc(p, l)), k.print_(ProjectionDoc(x, p, l)),
                      k.print_(CutDocument(x, p, l));
    MatchesMore(h, f0, r0, "source-manifest.json", a);
    var f1, r1 := f0["source-manifest.json" := a], r0 + [RefOf(h, "source-manifest.json", a)];
    MatchesMore(h, f1, r1, "lifecycle.json", b);
    var f2, r2 := f1["lifecycle.json" := b], r1 + [RefOf(h, "lifecycle.json", b)];
    MatchesMore(h, f2, r2, "attempts.json", c);
    var f3, r3 := f2["attempts.json" := c], r2 + [RefOf(h, "attempts.json", c)];
    MatchesMore(h, f3, r3, "cut.json", d);
    assert r3 + [RefOf(h, "cut.json", d)] == Inventory(x, p, l);
  }

  lemma ClosureHolds(x: Exporter, disk: Disk, p: Prefix, lives: seq<Catalog.Life>, l: Doc)
    requires Premises(x, disk, p, lives, l)
    ensures Documented(x.t, FilesOf(x, p, l)) && Matches(x.t.k.h, FilesOf(x, p, l), AllMembers(x.t, FilesOf(x, p, l)))
  {
    hide Ready, Build, Consistent, SortRefs, Matches, Listing, Documented, DocumentRefs, Bound, Printing, Copied, ProjectionDoc,
         SourceDoc, LifecycleDoc, Projected, Manifest;
    var f, h := FilesOf(x, p, l), x.t.k.h;
    FilesDocumented(x, disk, p, lives, l);
    FilesMatch(x, p, l);
    var cut, all := [RefOf(h, "cut.json", f["cut.json"])], Listing(h, p.originals) + DocumentRefs(x, p, l);
    assert Inventory(x, p, l) == all + cut;
    forall r ensures r in Inventory(x, p, l) <==> r in AllMembers(x.t, f) {
      SortElements(all, r);
      SortElements(SortRefs(all) + cut, r);
    }
    MatchesSame(h, f, Inventory(x, p, l), AllMembers(x.t, f));
  }

  /** Producer and verifier agree. */
  lemma BuiltIsAccepted(x: Exporter, disk: Disk, p: Prefix, lives: seq<Catalog.Life>, l: Doc)
    requires Premises(x, disk, p, lives, l)
    ensures Accepts(x.t, FilesOf(x, p, l), false)
  {
    hide Ready, Consistent, SortRefs, Listing, Documented, DocumentRefs, Bound, Printing, FilesOf, CatalogOf, Projected,
         Manifest, CutOf, Derived, SourceFits, Members, StoredCatalog, ProjectionDoc, CutDocument, LifecycleDoc, AllMembers,
         Sources, Load, HoldsAll, RefPaths, Encodes;
    FilesLoad(x, disk, p, lives, l);
    FilesDocumented(x, disk, p, lives, l);
    CatalogStored(x, disk, p, lives, l);
    FilesDerived(x, disk, p, lives, l);
    SourcesAre(x, disk, p, lives, l);
    SourcesFit(x, p, l);
    MembersDerived(x, disk, p, lives, l);
    ClosureHolds(x, disk, p, lives, l);
    KindsOf(x, p, l);
  }
}
