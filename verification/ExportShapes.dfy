/** The exporter's documents are always well shaped, so only a byte limit or the depth gate can refuse one. */
module ExportShapes {

  import opened Base
  import opened Names
  import opened Cut
  import opened Export
  import opened ExportPaths
  import opened ExportFiles
  import opened ExportProofs
  import Archive
  import Catalog

  /** A lifecycle record of this session whose evidence the codec admits. */
  ghost predicate Proven(t: Setting, p: Prefix, l: Doc) {
    l.Lifecycle? && l.instance == p.instance && l.session == p.session && t.k.proven(l.evidence)
  }

  // ----- Originals hold text -----

  lemma CatalogText(t: Setting, raws: seq<Bytes>, i: nat)
    requires Printing(t) && Catalog.Scan(t.cat, raws).Some? && i < |raws|
    ensures Catalog.Parse(t.cat, raws[i]).Some? && raws[i] != []
  {
    hide Catalog.Scan, HexSha;
    if i + 1 < |raws| { Catalog.ScanPrefix(t.cat, raws, i + 1); }
    assert i + 1 == |raws| ==> raws[..i + 1] == raws;
    Catalog.LastRecord(t.cat, raws[..i + 1]);
  }

  lemma ArchiveText(t: Setting, raws: seq<Bytes>, i: nat)
    requires Printing(t) && Archive.Scan(t.arc, raws).Some? && i < |raws|
    ensures raws[i] != []
  {
    hide Archive.Scan, HexSha;
    if i + 1 < |raws| { Archive.ScanPrefix(t.arc, raws, i + 1); }
    assert i + 1 == |raws| ==> raws[..i + 1] == raws;
    Archive.LastRecord(t.arc, raws[..i + 1]);
  }

  lemma OriginalText(t: Setting, disk: Disk, p: Prefix, lives: seq<Catalog.Life>, o: Original)
    requires Printing(t) && Ready(t, disk, p, lives) && o in p.originals
    ensures o.file.raw != [] && o.path != ""
  {
    hide Catalog.Scan, Archive.Scan, RequestOriginals, Own, Catalog.Lives, Directory, HexSha, FileName;
    var catalog := Records(disk, "c", p.count);
    if o in catalog {
      var i :| 0 <= i < |catalog| && catalog[i] == o;
      CatalogText(t, Raws(catalog), i);
    } else {
      FromAttempt(t.k.h, disk, lives, p.attempts, o);
      var n :| n in p.attempts && Admitted(lives, n) && o in RequestRecords(t.k.h, disk, n, lives[n - 1]);
      assert Chained(t, disk, lives, n);
      var chain := RequestRecords(t.k.h, disk, n, lives[n - 1]);
      var i :| 0 <= i < |chain| && chain[i] == o;
      ArchiveText(t, Raws(chain), i);
    }
  }

  lemma TextRef(h: Hashing, path: string, raw: Bytes)
    requires HexSha(h) && path != "" && raw != []
    ensures RefShape(RefOf(h, path, raw))
  {
    hide IsSha;
  }

  lemma CatalogPathShape(n: nat)
    requires n < 100000000
    ensures IsCatalogPath(CatalogPath(n))
  {
    assert Power10(8) == 100000000;
    PadDenotes(8, n);
    var path := CatalogPath(n);
    assert path == "c/" + Pad(8, n) + ".json";
    assert path[2..10] == Pad(8, n);
    assert path[10..] == ".json";
  }

  lemma HeadShape(t: Setting, disk: Disk, p: Prefix, lives: seq<Catalog.Life>)
    requires Printing(t) && Ready(t, disk, p, lives)
    ensures RefShape(HeadRef(p)) && IsCatalogPath(HeadRef(p).path) && RefShape(ConfigRef(t))
  {
    hide Catalog.Scan, RequestOriginals, Own, Catalog.Lives, IsSha, Chained, IsCatalogPath;
    var catalog := Raws(Records(disk, "c", p.count));
    CatalogText(t, catalog, p.count - 1);
    TextRef(t.k.h, CatalogPath(p.count - 1), catalog[p.count - 1]);
    TextRef(t.k.h, t.configPath, t.configRaw);
    CatalogPathShape(p.count - 1);
  }

  // ----- Source manifest and lifecycle -----

  lemma RowShape(x: Exporter, o: Original)
    requires HexSha(x.t.k.h) && Secure(x, o.file) && o.file.raw != [] && o.path != ""
    ensures SourceRowShape(RowOf(x.t.k.h, o))
  {
    hide IsSha;
    var h := x.t.k.h;
    TextRef(h, o.path, o.file.raw);
    TextRef(h, CopyOf(o.path), o.file.raw);
    TextRef(h, SdPath(o.file.identity.acl), o.file.sd);
  }

  lemma SourceShape(x: Exporter, disk: Disk, p: Prefix, lives: seq<Catalog.Life>)
    requires Printing(x.t) && Ready(x.t, disk, p, lives) && AllSecure(x, p.originals)
    ensures Shape(x.t.k, SourceDoc(x, p))
  {
    hide Ready, RefShape, IsCatalogPath, SourceRowShape, RowOf, HeadRef, ConfigRef, IsSha, Secure;
    HeadShape(x.t, disk, p, lives);
    ReadyDistinct(x.t, disk, p, lives);
    ReadySession(x.t, disk, p, lives);
    forall i | 0 <= i < |p.originals| ensures SourceRowShape(RowOf(x.t.k.h, p.originals[i])) {
      OriginalText(x.t, disk, p, lives, p.originals[i]);
      RowShape(x, p.originals[i]);
    }
    assert forall i | 0 <= i < |p.originals| :: Rows(x.t.k.h, p.originals)[i].source.path == p.originals[i].path by {
      RowSource(x.t.k.h, p.originals);
    }
  }

  lemma RowSource(h: Hashing, os: seq<Original>)
    ensures forall i | 0 <= i < |os| :: Rows(h, os)[i].source.path == os[i].path
  {
  }

  lemma ReadySession(t: Setting, disk: Disk, p: Prefix, lives: seq<Catalog.Life>)
    requires Ready(t, disk, p, lives)
    ensures p.session != "" && 0 < p.count <= |p.originals|
  {
  }

  lemma LifecycleShape(t: Setting, disk: Disk, p: Prefix, lives: seq<Catalog.Life>, l: Doc)
    requires Printing(t) && Ready(t, disk, p, lives) && Proven(t, p, l)
    ensures Shape(t.k, LifecycleDoc(p, l))
  {
    hide Ready;
    ReadyDistinct(t, disk, p, lives);
    ReadySession(t, disk, p, lives);
  }

  // ----- Projection -----

  lemma RequestCopyShape(d: string, n: nat)
    requires IsDirectory(d)
    ensures IsRequestCopy(CopyOf(RecordPath(d, n)), n)
  {
    hide IsDirectory;
    var path := CopyOf(RecordPath(d, n));
    assert |d| == 78 by { DirectoryLength(d); }
    assert path[10..88] == d;
  }

  lemma DirectoryLength(d: string)
    requires IsDirectory(d)
    ensures |d| == 78
  {
  }

  lemma RequestShape(t: Setting, disk: Disk, lives: seq<Catalog.Life>, n: nat)
    requires Printing(t) && Chained(t, disk, lives, n) && Admitted(lives, n) && |lives| <= 100000000
    ensures RequestRowShape(RequestRow(n, Copies(SourceRefs(t.k.h, RequestRecords(t.k.h, disk, n, lives[n - 1])))))
  {
    hide IsDirectory, IsRequestCopy, Directory, Archive.Scan, IsSha, RecordPath;
    var h, chain := t.k.h, RequestRecords(t.k.h, disk, n, lives[n - 1]);
    var d, records := HomeOf(h, lives, n), Copies(SourceRefs(h, chain));
    DirectoryShape(h, n, lives[n - 1].begin.key);
    forall i | 0 <= i < |records| ensures RefShape(records[i]) && IsRequestCopy(records[i].path, i) {
      ArchiveText(t, Raws(chain), i);
      TextRef(h, CopyOf(RecordPath(d, i)), chain[i].file.raw);
      RequestCopyShape(d, i);
    }
    forall i, j | 0 <= i < j < |records| ensures records[i].path != records[j].path {
      NamesApart(RecordPath(d, i), RecordPath(d, j));
      if RecordPath(d, i) == RecordPath(d, j) { RecordPathInjective(d, i, j); }
    }
  }

  ghost predicate RowsShaped(rows: seq<RequestRow>, own: seq<nat>) {
    && (forall i | 0 <= i < |rows| :: RequestRowShape(rows[i]) && rows[i].attempt in own)
    && (forall i, j | 0 <= i < j < |rows| :: rows[i].attempt < rows[j].attempt)
  }

  lemma RowsExtend(rows: seq<RequestRow>, own: seq<nat>, n: nat, last: seq<RequestRow>)
    requires RowsShaped(rows, own) && forall i | 0 <= i < |own| :: own[i] < n
    requires last == [] || (|last| == 1 && last[0].attempt == n && RequestRowShape(last[0]))
    ensures RowsShaped(rows + last, own + [n])
  {
    hide RequestRowShape;
    var all := rows + last;
    assert forall i | 0 <= i < |rows| :: all[i] == rows[i] && rows[i].attempt in own && rows[i].attempt < n;
    assert last != [] ==> all[|rows|] == last[0];
  }

  lemma {:induction false} RowsShape(t: Setting, disk: Disk, os: seq<Original>, lives: seq<Catalog.Life>, own: seq<nat>)
    requires Printing(t) && AllChained(t, disk, lives, own) && Recovered(t, disk, os, lives, own)
    requires Increasing(own) && |lives| <= 100000000
    ensures RowsShaped(RequestRows(t.k.h, os, lives, own), own)
  {
    hide RowFor, RequestRowShape, Printing, AllChained, Recovered, RowsShaped;
    if own == [] {
      NoRowsShaped();
    } else {
      var m := |own| - 1;
      var n, before := own[m], own[..m];
      FewerAttempts(t, disk, os, lives, own);
      RowsShape(t, disk, os, lives, before);
      RowForShape(t, disk, os, lives, own, m);
      RowsExtend(RequestRows(t.k.h, os, lives, before), before, n, RowFor(t.k.h, os, lives, n));
      assert own == before + [n];
    }
  }

  lemma NoRowsShaped()
    ensures RowsShaped([], [])
  {
  }

  lemma RowForShape(t: Setting, disk: Disk, os: seq<Original>, lives: seq<Catalog.Life>, own: seq<nat>, m: nat)
    requires Printing(t) && AllChained(t, disk, lives, own) && Recovered(t, disk, os, lives, own)
    requires m < |own| && |lives| <= 100000000
    ensures var last := RowFor(t.k.h, os, lives, own[m]);
            last == [] || (|last| == 1 && last[0].attempt == own[m] && RequestRowShape(last[0]))
  {
    hide RecordsOf, RequestFits, Directory, RequestRecords, RequestRowShape, Printing, Copies, SourceRefs;
    assert Chained(t, disk, lives, own[m]);
    if !Catalog.IsRefused(lives[own[m] - 1]) {
      assert Admitted(lives, own[m]);
      RequestShape(t, disk, lives, own[m]);
    }
  }

  lemma PrefixShape(t: Setting, disk: Disk, p: Prefix, lives: seq<Catalog.Life>)
    requires Printing(t) && Ready(t, disk, p, lives)
    ensures var prefix := Copies(SourceRefs(t.k.h, p.originals[..p.count]));
            && p.originals[..p.count] == Records(disk, "c", p.count)
            && prefix != [] && RefShapes(prefix) && DistinctPaths(prefix)
            && forall i | 0 <= i < |prefix| :: prefix[i].path == CopyOf(CatalogPath(i))
  {
    hide Catalog.Scan, RequestOriginals, Own, Catalog.Lives, IsSha, Chained, RecordPath;
    assert p.originals[..p.count] == Records(disk, "c", p.count);
    var catalog := Records(disk, "c", p.count);
    var prefix := Copies(SourceRefs(t.k.h, catalog));
    forall i | 0 <= i < |prefix| ensures RefShape(prefix[i]) {
      CatalogText(t, Raws(catalog), i);
      TextRef(t.k.h, CopyOf(CatalogPath(i)), catalog[i].file.raw);
    }
    forall i, j | 0 <= i < j < |prefix| ensures prefix[i].path != prefix[j].path {
      NamesApart(RecordPath("c", i), RecordPath("c", j));
      if RecordPath("c", i) == RecordPath("c", j) { RecordPathInjective("c", i, j); }
    }
  }

  lemma ReadyParts(t: Setting, disk: Disk, p: Prefix, lives: seq<Catalog.Life>)
    requires Printing(t) && Ready(t, disk, p, lives)
    ensures 0 < p.count <= |p.originals| && p.session != ""
    ensures lives == Catalog.Lives(t.cat, CatalogOf(p)) && |lives| <= 100000000
    ensures AllChained(t, disk, lives, p.attempts)
    ensures Recovered(t, disk, p.originals, lives, p.attempts) && Increasing(p.attempts)
  {
    hide Catalog.Scan, RequestOriginals, Own, Chained, Recovered, Catalog.Lives;
    ReadyRecovered(t, disk, p, lives);
    ReadyDistinct(t, disk, p, lives);
    assert p.originals[..p.count] == Records(disk, "c", p.count);
  }

  lemma ProjectionShape(x: Exporter, disk: Disk, p: Prefix, lives: seq<Catalog.Life>, l: Doc)
    requires Printing(x.t) && Ready(x.t, disk, p, lives) && Proven(x.t, p, l)
    ensures 0 < p.count <= |p.originals|
    ensures Shape(x.t.k, ProjectionDoc(x, p, l))
  {
    hide Ready, Recovered, AllChained, CatalogOf, RequestRows, RequestRowShape, RefShape, IsSha, Catalog.Lives, CatalogPath;
    var t := x.t;
    ReadyParts(t, disk, p, lives);
    PrefixShape(t, disk, p, lives);
    RowsShape(t, disk, p.originals, lives, p.attempts);
    TextRef(t.k.h, "lifecycle.json", t.k.print_(LifecycleDoc(p, l)));
    RowsMeet(RequestRows(t.k.h, p.originals, lives, p.attempts), p.attempts);
  }

  lemma RowsMeet(rows: seq<RequestRow>, own: seq<nat>)
    requires RowsShaped(rows, own) && Increasing(own)
    ensures Increasing(RequestAttempts(rows))
    ensures forall i | 0 <= i < |rows| :: RequestRowShape(rows[i]) && rows[i].attempt in own
  {
  }

  // ----- Cut -----

  /** A dictionary never lists a name twice, and lists only copies and descriptors. */
  lemma {:induction false} ListingSound(h: Hashing, os: seq<Original>)
    ensures DistinctPaths(Listing(h, os))
    ensures forall r | r in Listing(h, os) :: IsListed(h, os, r)
  {
    if os != [] {
      var m := |os| - 1;
      ListingSound(h, os[..m]);
      var refs, row := Listing(h, os[..m]), RowOf(h, os[m]);
      UpsertAdds(refs, row.copy);
      UpsertAdds(Upsert(refs, row.copy), row.sd);
      forall r | r in Listing(h, os) ensures IsListed(h, os, r) {
        ListedSplits(h, os, r);
      }
    }
  }

  lemma MemberShape(x: Exporter, disk: Disk, p: Prefix, lives: seq<Catalog.Life>, r: Ref)
    requires Printing(x.t) && Ready(x.t, disk, p, lives) && AllSecure(x, p.originals)
    requires IsListed(x.t.k.h, p.originals, r)
    ensures RefShape(r)
    ensures r.path !in {"source-manifest.json", "lifecycle.json", "attempts.json"}
  {
    hide Ready, IsSha, CopyOf, SdPath;
    var os := p.originals;
    var i :| 0 <= i < |os| && (r == RowOf(x.t.k.h, os[i]).copy || r == RowOf(x.t.k.h, os[i]).sd);
    OriginalText(x.t, disk, p, lives, os[i]);
    NamesApart(os[i].path, os[i].file.identity.acl);
    RowShape(x, os[i]);
  }

  lemma DocumentShapes(x: Exporter, p: Prefix, l: Doc)
    requires Printing(x.t) && l.Lifecycle? && p.count <= |p.originals|
    ensures AreDocuments(DocumentRefs(x, p, l)) && RefShapes(DocumentRefs(x, p, l))
  {
    hide SourceDoc, LifecycleDoc, ProjectionDoc, IsSha, RefShape;
    var h, k := x.t.k.h, x.t.k;
    TextRef(h, "source-manifest.json", k.print_(SourceDoc(x, p)));
    TextRef(h, "lifecycle.json", k.print_(LifecycleDoc(p, l)));
    TextRef(h, "attempts.json", k.print_(ProjectionDoc(x, p, l)));
  }

  lemma MembersShape(x: Exporter, disk: Disk, p: Prefix, lives: seq<Catalog.Life>, l: Doc)
    requires Printing(x.t) && Ready(x.t, disk, p, lives) && AllSecure(x, p.originals) && l.Lifecycle?
    requires 0 < p.count <= |p.originals|
    ensures DistinctPaths(Listing(x.t.k.h, p.originals) + DocumentRefs(x, p, l))
    ensures RefShapes(SortRefs(Listing(x.t.k.h, p.originals) + DocumentRefs(x, p, l)))
    ensures Ordered(SortRefs(Listing(x.t.k.h, p.originals) + DocumentRefs(x, p, l)))
  {
    hide Ready, Listing, DocumentRefs, SortRefs, RefShape, IsListed, AllSecure, Printing;
    var a, docs := Listing(x.t.k.h, p.originals), DocumentRefs(x, p, l);
    ListingSound(x.t.k.h, p.originals);
    DocumentShapes(x, p, l);
    forall r | r in a ensures RefShape(r) && r.path !in {"source-manifest.json", "lifecycle.json", "attempts.json"} {
      MemberShape(x, disk, p, lives, r);
    }
    DistinctJoin(a, docs);
    SortRefsSorts(a + docs);
    var sorted := SortRefs(a + docs);
    forall i | 0 <= i < |sorted| ensures RefShape(sorted[i]) { SortElements(a + docs, sorted[i]); }
    forall i, j | 0 <= i < j < |sorted| ensures Less(sorted[i].path, sorted[j].path) {
      assert Less(Paths(sorted)[i], Paths(sorted)[j]);
    }
  }

  lemma CutShape(x: Exporter, disk: Disk, p: Prefix, lives: seq<Catalog.Life>, l: Doc)
    requires Printing(x.t) && Ready(x.t, disk, p, lives) && AllSecure(x, p.originals) && Proven(x.t, p, l)
    requires 0 < p.count <= |p.originals|
    ensures Shape(x.t.k, CutDocument(x, p, l))
  {
    hide Ready, Listing, DocumentRefs, SortRefs, RefShape, AllSecure, IsCatalogPath, ProjectionDoc, CatalogPath, IsSha,
         DistinctPaths, HeadRef, ConfigRef, RefShapes, Ordered, CatalogOf;
    var t := x.t;
    HeadShape(t, disk, p, lives);
    ReadySession(t, disk, p, lives);
    MembersShape(x, disk, p, lives, l);
    TextRef(t.k.h, "attempts.json", t.k.print_(ProjectionDoc(x, p, l)));
    OpeningShape(t, disk, p, lives);
  }

  lemma OpeningShape(t: Setting, disk: Disk, p: Prefix, lives: seq<Catalog.Life>)
    requires Printing(t) && Ready(t, disk, p, lives)
    ensures 0 < p.count <= |p.originals| && RefShape(RefOf(t.k.h, CatalogPath(0), CatalogOf(p)[0]))
  {
    hide RefShape, Catalog.Scan, Catalog.Lives, Own, RequestOriginals, Chained;
    assert p.originals[..p.count] == Records(disk, "c", p.count);
    CatalogText(t, CatalogOf(p), 0);
    TextRef(t.k.h, CatalogPath(0), CatalogOf(p)[0]);
  }

  // ----- When the exporter refuses -----

  lemma ShapedEncodes(t: Setting, d: Doc)
    requires Printing(t) && Shape(t.k, d)
    ensures Encodes(t.k, d) <==> Compact(t.k, d)
    ensures Encodes(t.k, d) ==> Parse(t.k, t.k.print_(d)) == Some(d)
  {
    hide Shape;
    assert t.k.loads(t.k.print_(d)) == Some(d);
  }

  /** `_documents` refuses exactly for an insecure source or a document over its byte or depth limit. */
  lemma RefusesOnlyLimits(x: Exporter, disk: Disk, p: Prefix, lives: seq<Catalog.Life>, l: Doc)
    requires Printing(x.t) && Ready(x.t, disk, p, lives) && Proven(x.t, p, l)
    ensures 0 < p.count <= |p.originals|
    ensures Build(x, p, l).Some? <==>
              && AllSecure(x, p.originals)
              && Compact(x.t.k, SourceDoc(x, p)) && Compact(x.t.k, LifecycleDoc(p, l))
              && Compact(x.t.k, ProjectionDoc(x, p, l)) && Compact(x.t.k, CutDocument(x, p, l))
  {
    hide Ready, SourceDoc, LifecycleDoc, ProjectionDoc, CutDocument, FilesOf, Encodes, Compact, Shape, AllSecure, Printing;
    ReadySession(x.t, disk, p, lives);
    ReadyDistinct(x.t, disk, p, lives) by { PrintingHex(x.t); }
    assert DistinctPaths(SourceRefs(x.t.k.h, p.originals));
    if AllSecure(x, p.originals) {
      SourceShape(x, disk, p, lives);
      LifecycleShape(x.t, disk, p, lives, l);
      ProjectionShape(x, disk, p, lives, l);
      CutShape(x, disk, p, lives, l);
      ShapedEncodes(x.t, SourceDoc(x, p));
      ShapedEncodes(x.t, LifecycleDoc(p, l));
      ShapedEncodes(x.t, ProjectionDoc(x, p, l));
      ShapedEncodes(x.t, CutDocument(x, p, l));
    }
  }

  lemma PrintingHex(t: Setting)
    requires Printing(t)
    ensures HexSha(t.k.h) && t.cat.h == t.k.h && t.arc.h == t.k.h
  {
  }
}
