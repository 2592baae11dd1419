/** The worst-case export plan, and why no actual export exceeds it. */
module ExportBudgets {

  import opened Base
  import opened Names
  import opened Budgets
  import opened Cut
  import opened Export
  import opened ExportPaths
  import opened ExportFiles
  import opened ExportProofs
  import opened ExportShapes
  import opened ExportAccepts
  import opened ExportLedger
  import Archive
  import Catalog
  import Ledger
  import LedgerProofs
  import LedgerBudgets

  /** The reader's bound on one security descriptor. */
  const MAX_SD_BYTES: nat := 1048576

  datatype Plan = Plan(files: nat, directories: nat, bytes: nat, pending: nat)

  /** The most originals one session can have: the whole catalog, and every request at its longest. */
  function MostOriginals(l: Limits): nat {
    3 * l.maxAttempts + 2 + l.maxAttempts * l.request.maxRecords
  }

  /** `_plan`. */
  function PlanOf(l: Limits, k: Codec): Plan {
    Plan(2 * MostOriginals(l) + 5, l.maxAttempts + 4,
         CatalogReserve(l) + l.maxAttempts * l.request.maxTotalBytes + MostOriginals(l) * MAX_SD_BYTES
         + k.maxProofBytes + k.maxSourceBytes + 3 * k.maxCutBytes,
         Max(Max(Max(k.maxCutBytes, k.maxProofBytes), Max(k.maxSourceBytes, l.request.maxRecordBytes)),
             Max(l.maxCatalogRecordBytes, MAX_SD_BYTES)))
  }

  // ----- Sizes -----

  function SumSizes(refs: seq<Ref>): nat {
    if refs == [] then 0 else SumSizes(refs[..|refs| - 1]) + refs[|refs| - 1].size
  }

  function RawBytes(os: seq<Original>): nat {
    if os == [] then 0 else RawBytes(os[..|os| - 1]) + |os[|os| - 1].file.raw|
  }

  function SdBytes(os: seq<Original>): nat {
    if os == [] then 0 else SdBytes(os[..|os| - 1]) + |os[|os| - 1].file.sd|
  }

  lemma {:induction false} SumConcat(a: seq<Ref>, b: seq<Ref>)
    ensures SumSizes(a + b) == SumSizes(a) + SumSizes(b)
  {
    if b == [] {
      assert a + b == a;
    } else {
      var m := |b| - 1;
      assert (a + b)[..|a + b| - 1] == a + b[..m];
      SumConcat(a, b[..m]);
    }
  }

  lemma {:induction false} RawConcat(a: seq<Original>, b: seq<Original>)
    ensures RawBytes(a + b) == RawBytes(a) + RawBytes(b)
  {
    if b == [] {
      assert a + b == a;
    } else {
      var m := |b| - 1;
      assert (a + b)[..|a + b| - 1] == a + b[..m];
      RawConcat(a, b[..m]);
    }
  }

  lemma {:induction false} UpsertSize(refs: seq<Ref>, r: Ref)
    ensures |Upsert(refs, r)| <= |refs| + 1 && SumSizes(Upsert(refs, r)) <= SumSizes(refs) + r.size
  {
    if refs != [] {
      var m := |refs| - 1;
      if refs[m].path == r.path {
        assert Upsert(refs, r)[..m] == refs[..m];
      } else {
        UpsertSize(refs[..m], r);
        var all := Upsert(refs, r);
        assert all[..|all| - 1] == Upsert(refs[..m], r);
      }
    }
  }

  lemma {:induction false} ListingSize(h: Hashing, os: seq<Original>)
    ensures |Listing(h, os)| <= 2 * |os| && SumSizes(Listing(h, os)) <= RawBytes(os) + SdBytes(os)
  {
    hide Upsert;
    if os != [] {
      var m := |os| - 1;
      ListingSize(h, os[..m]);
      UpsertSize(Listing(h, os[..m]), RowOf(h, os[m]).copy);
      UpsertSize(Upsert(Listing(h, os[..m]), RowOf(h, os[m]).copy), RowOf(h, os[m]).sd);
    }
  }

  lemma {:induction false} RawBound(os: seq<Original>, cap: nat)
    requires forall i | 0 <= i < |os| :: |os[i].file.raw| <= cap
    ensures RawBytes(os) <= |os| * cap
  {
    if os != [] {
      RawBound(os[..|os| - 1], cap);
      assert |os| * cap == (|os| - 1) * cap + cap;
    }
  }

  lemma {:induction false} SdBound(os: seq<Original>, cap: nat)
    requires forall i | 0 <= i < |os| :: |os[i].file.sd| <= cap
    ensures SdBytes(os) <= |os| * cap
  {
    if os != [] {
      SdBound(os[..|os| - 1], cap);
      assert |os| * cap == (|os| - 1) * cap + cap;
    }
  }

  lemma {:induction false} RawIsTotal(os: seq<Original>)
    ensures RawBytes(os) == Archive.TotalBytes(Raws(os))
  {
    if os != [] {
      var m := |os| - 1;
      RawIsTotal(os[..m]);
      assert Raws(os)[..m] == Raws(os[..m]);
    }
  }

  lemma ChainSize(t: Setting, disk: Disk, lives: seq<Catalog.Life>, n: nat)
    requires Chained(t, disk, lives, n) && Admitted(lives, n)
    ensures var chain := RequestRecords(t.k.h, disk, n, lives[n - 1]);
            |chain| <= t.arc.maxRecords && RawBytes(chain) <= t.arc.maxTotalBytes
  {
    hide Archive.Scan, Directory, Archive.Parse;
    var chain := RequestRecords(t.k.h, disk, n, lives[n - 1]);
    Archive.ScanMeans(t.arc, Raws(chain));
    RawIsTotal(chain);
  }

  lemma Distribute(n: nat, c: nat)
    requires n > 0
    ensures n * c == (n - 1) * c + c
  {
  }

  lemma {:induction false} RequestsSize(t: Setting, disk: Disk, lives: seq<Catalog.Life>, own: seq<nat>)
    requires AllChained(t, disk, lives, own)
    ensures var os := RequestOriginals(t.k.h, disk, lives, own);
            |os| <= |own| * t.arc.maxRecords && RawBytes(os) <= |own| * t.arc.maxTotalBytes
  {
    hide RequestRecords, RawBytes, RequestFits;
    if own == [] {
      RawBound([], 0);
    } else {
      var m := |own| - 1;
      var n, before := own[m], own[..m];
      assert Chained(t, disk, lives, n);
      RequestsSize(t, disk, lives, before);
      Distribute(|own|, t.arc.maxRecords);
      Distribute(|own|, t.arc.maxTotalBytes);
      var head := RequestOriginals(t.k.h, disk, lives, before);
      if Admitted(lives, n) {
        ChainSize(t, disk, lives, n);
        RawConcat(head, RequestRecords(t.k.h, disk, n, lives[n - 1]));
      } else {
        assert RequestOriginals(t.k.h, disk, lives, own) == head;
      }
    }
  }

  lemma {:induction false} IncreasingSize(ns: seq<nat>, top: nat)
    requires Increasing(ns) && forall i | 0 <= i < |ns| :: ns[i] <= top
    ensures |ns| <= top
  {
    if ns != [] {
      var m := |ns| - 1;
      IncreasingSize(ns[..m], ns[m] - 1);
    }
  }

  // ----- The originals of an issued prefix -----

  ghost predicate SmallDescriptors(os: seq<Original>) {
    forall i | 0 <= i < |os| :: |os[i].file.sd| <= MAX_SD_BYTES
  }

  /** Sessions and catalog within the approved attempts. */
  lemma PrefixExtent(w: Ledger.World, s: Ledger.Book, disk: Disk, session: string)
    requires Ledger.Sound(w) && Approved(w.limits) && LedgerProofs.Reachable(w, s)
    requires TakePrefix(w, s, disk, session).Some?
    ensures var p := TakePrefix(w, s, disk, session).value;
            && p.count <= 3 * w.limits.maxAttempts + 2
            && |p.attempts| <= w.limits.maxAttempts
            && forall i | 0 <= i < p.count :: |p.originals[i].file.raw| <= w.limits.maxCatalogRecordBytes
  {
    hide Catalog.Scan, Own, Settled, RequestOriginals, Ledger.Run, Catalog.Lives, Approved, LedgerProofs.Inv;
    var p, lives := TakePrefix(w, s, disk, session).value, StoredLives(w, s, disk);
    LedgerBudgets.ApprovedRunsFit(w, s, w.opening);
    LedgerCount(w, s);
    OwnIncreases(lives, session);
    IncreasingSize(p.attempts, |s.attempts|);
    forall i | 0 <= i < p.count ensures |p.originals[i].file.raw| <= w.limits.maxCatalogRecordBytes {
      assert ReadableAt(w.cat.h, disk, RecordPath("c", i), w.cat.maxRecordBytes);
    }
  }

  lemma LedgerCount(w: Ledger.World, s: Ledger.Book)
    requires Ledger.Sound(w) && Approved(w.limits) && LedgerProofs.Reachable(w, s)
    ensures s.count == |s.chain| && |s.attempts| <= w.limits.maxAttempts
  {
    hide Catalog.Scan, Ledger.Run, Approved, Ledger.Sound;
    var events :| s == Ledger.Run(w, Ledger.INITIAL, events);
    LedgerBudgets.RunBounds(w, events);
    Catalog.LastRecord(w.cat, s.chain);
  }

  lemma Widen(a: nat, b: nat, c: nat)
    requires a <= b
    ensures a * c <= b * c
  {
  }

  lemma PrefixSize(w: Ledger.World, t: Setting, s: Ledger.Book, disk: Disk, session: string)
    requires Ledger.Sound(w) && Approved(w.limits) && LedgerProofs.Reachable(w, s)
    requires t.cat == w.cat && t.arc == w.arc && t.k.h == w.cat.h
    requires TakePrefix(w, s, disk, session).Some? && SmallDescriptors(TakePrefix(w, s, disk, session).value.originals)
    ensures var os, l := TakePrefix(w, s, disk, session).value.originals, w.limits;
            && |os| <= MostOriginals(l)
            && RawBytes(os) <= CatalogReserve(l) + l.maxAttempts * l.request.maxTotalBytes
            && SdBytes(os) <= MostOriginals(l) * MAX_SD_BYTES
  {
    hide Catalog.Scan, Own, Issuable, RequestOriginals, Approved, RawBytes, SdBytes, Chained, LedgerProofs.Reachable,
         Catalog.Lives;
    var p, lives, l := TakePrefix(w, s, disk, session).value, StoredLives(w, s, disk), w.limits;
    IssuedIsReady(w, t, s, disk, session);
    PrefixExtent(w, s, disk, session);
    var a, b := Records(disk, "c", p.count), RequestOriginals(t.k.h, disk, lives, p.attempts);
    assert forall i | 0 <= i < p.count :: p.originals[i] == a[i];
    RawBound(a, l.maxCatalogRecordBytes);
    Widen(p.count, 3 * l.maxAttempts + 2, l.maxCatalogRecordBytes);
    RequestsSize(t, disk, lives, p.attempts);
    Widen(|p.attempts|, l.maxAttempts, l.request.maxRecords);
    Widen(|p.attempts|, l.maxAttempts, l.request.maxTotalBytes);
    RawConcat(a, b);
    SdBound(p.originals, MAX_SD_BYTES);
    Widen(|p.originals|, MostOriginals(l), MAX_SD_BYTES);
  }

  // ----- The files of an export -----

  /** `sum(map(len, files.values()))`. */
  ghost function TotalSize(files: Files): nat {
    if files == map[] then 0
    else
      var name :| name in files;
      TotalSize(files - {name}) + |files[name]|
  }

  lemma {:induction false} TotalSizeSplit(files: Files, name: string)
    requires name in files
    ensures TotalSize(files) == TotalSize(files - {name}) + |files[name]|
    decreases |files|
  {
    var first :| first in files && TotalSize(files) == TotalSize(files - {first}) + |files[first]|;
    if first != name {
      TotalSizeSplit(files - {first}, name);
      TotalSizeSplit(files - {name}, first);
      assert files - {first} - {name} == files - {name} - {first};
    }
  }

  /** Taking the last listed file away leaves a matching listing. */
  lemma MatchesFewer(h: Hashing, files: Files, refs: seq<Ref>)
    requires Matches(h, files, refs) && DistinctPaths(refs) && refs != []
    ensures Holds(h, files, refs[|refs| - 1])
    ensures Matches(h, files - {refs[|refs| - 1].path}, refs[..|refs| - 1])
  {
    var m := |refs| - 1;
    var rest := files - {refs[m].path};
    assert Holds(h, files, refs[m]);
    forall i | 0 <= i < m ensures Holds(h, rest, refs[..m][i]) { assert Holds(h, files, refs[i]); }
    forall name | name in rest ensures name in RefPaths(refs[..m]) {
      assert name in RefPaths(refs);
      var i :| 0 <= i < |refs| && refs[i].path == name;
      assert refs[..m][i].path == name;
    }
    forall name | name in RefPaths(refs[..m]) ensures name in rest {
      var i :| 0 <= i < m && refs[..m][i].path == name;
      assert Holds(h, rest, refs[..m][i]);
    }
  }

  /** A matching listing without repetition lists every file once, so its sizes add up to the files'. */
  lemma {:induction false} ListingTotals(h: Hashing, files: Files, refs: seq<Ref>)
    requires Matches(h, files, refs) && DistinctPaths(refs)
    ensures TotalSize(files) == SumSizes(refs) && |files| == |refs|
    decreases |refs|
  {
    if refs == [] {
      assert files.Keys == {};
    } else {
      hide Matches, TotalSize;
      var m := |refs| - 1;
      MatchesFewer(h, files, refs);
      TotalSizeSplit(files, refs[m].path);
      ListingTotals(h, files - {refs[m].path}, refs[..m]);
      assert (files - {refs[m].path}).Keys == files.Keys - {refs[m].path};
    }
  }

  lemma InventoryDistinct(x: Exporter, p: Prefix, l: Doc)
    requires l.Lifecycle? && 0 < p.count <= |p.originals|
    ensures DistinctPaths(Inventory(x, p, l))
  {
    hide Listing, SourceDoc, LifecycleDoc, ProjectionDoc, CutDocument, Copied;
    var h, os := x.t.k.h, p.originals;
    CopiedMatches(h, os);
    var refs := Listing(h, os);
    forall i | 0 <= i < |refs|
      ensures refs[i].path !in {"source-manifest.json", "lifecycle.json", "attempts.json", "cut.json"} {
      assert Holds(h, Copied(os), refs[i]);
      DocumentsAbsent(os, "source-manifest.json");
      DocumentsAbsent(os, "lifecycle.json");
      DocumentsAbsent(os, "attempts.json");
      DocumentsAbsent(os, "cut.json");
    }
  }

  lemma SumThree(a: Ref, b: Ref, c: Ref)
    ensures SumSizes([a, b, c]) == a.size + b.size + c.size
  {
    assert [a, b, c][..2] == [a, b] && [a, b][..1] == [a] && [a][..0] == [];
    assert SumSizes([a, b]) == SumSizes([a]) + b.size;
  }

  /** A document that encodes is within the limit of its own kind. */
  lemma EncodedFits(t: Setting, d: Doc)
    requires Printing(t) && Encodes(t.k, d)
    ensures |t.k.print_(d)| <= Limit(t.k, d)
  {
    hide Shape, HexSha;
    assert t.k.loads(t.k.print_(d)) == Some(d);
  }

  lemma DocumentSizes(x: Exporter, p: Prefix, l: Doc)
    requires Printing(x.t) && l.Lifecycle? && 0 < p.count <= |p.originals| && Build(x, p, l).Some?
    ensures var k := x.t.k;
            SumSizes(DocumentRefs(x, p, l)) + |k.print_(CutDocument(x, p, l))|
            <= k.maxProofBytes + k.maxSourceBytes + 2 * k.maxCutBytes
  {
    hide SourceDoc, LifecycleDoc, ProjectionDoc, CutDocument, Encodes, FilesOf, Printing, SumSizes, DistinctPaths, AllSecure;
    var k := x.t.k;
    KindsOf(x, p, l);
    EncodedFits(x.t, SourceDoc(x, p));
    EncodedFits(x.t, LifecycleDoc(p, l));
    EncodedFits(x.t, ProjectionDoc(x, p, l));
    EncodedFits(x.t, CutDocument(x, p, l));
    SumThree(RefOf(k.h, "source-manifest.json", k.print_(SourceDoc(x, p))),
             RefOf(k.h, "lifecycle.json", k.print_(LifecycleDoc(p, l))),
             RefOf(k.h, "attempts.json", k.print_(ProjectionDoc(x, p, l))));
  }

  // ----- Directories -----

  /** The directories the names need, the session's own first. */
  function Parents(names: set<string>): set<string> {
    {""} + set name, i | name in names && 0 <= i < |name| && name[i] == '/' :: name[..i]
  }

  predicate NoSlash(s: string) {
    forall i | 0 <= i < |s| :: s[i] != '/'
  }

  lemma FileNameNoSlash(n: nat)
    ensures NoSlash(FileName(n))
  {
    PadDenotes(8, n);
  }

  lemma DirectoryNoSlash(d: string)
    requires IsDirectory(d)
    ensures NoSlash(d)
  {
    forall i | 0 <= i < |d| ensures d[i] != '/' {
      if 1 <= i < 13 { assert d[i] == d[1..13][i - 1]; }
      if i >= 14 { assert d[i] == d[14..][i - 14]; }
    }
  }

  lemma CopyParents(d: string, n: nat, i: nat)
    requires NoSlash(d) && i < |CopyOf(RecordPath(d, n))| && CopyOf(RecordPath(d, n))[i] == '/'
    ensures CopyOf(RecordPath(d, n))[..i] in {"originals", CopyOf(d)}
  {
    hide FileName;
    var path := CopyOf(RecordPath(d, n));
    FileNameNoSlash(n);
    assert path == "originals/" + d + "/" + FileName(n);
    assert forall j | 10 <= j < 10 + |d| :: path[j] == d[j - 10];
    assert forall j | 11 + |d| <= j < |path| :: path[j] == FileName(n)[j - 11 - |d|];
    assert path[..9] == "originals" && path[..10 + |d|] == CopyOf(d);
  }

  lemma SdParents(acl: string, i: nat)
    requires IsSha(acl) && i < |SdPath(acl)| && SdPath(acl)[i] == '/'
    ensures SdPath(acl)[..i] == "sd"
  {
    var path := SdPath(acl);
    assert |path| == 3 + |acl| + 4;
    assert forall j | 3 <= j < 3 + |acl| :: path[j] == acl[j - 3];
    assert path[..2] == "sd";
  }

  /** The directories a session's own attempts give. */
  ghost function Homes(h: Hashing, lives: seq<Catalog.Life>, own: seq<nat>): set<string> {
    set n | n in own && Admitted(lives, n) :: CopyOf(HomeOf(h, lives, n))
  }

  lemma {:induction false} HomesSize(h: Hashing, lives: seq<Catalog.Life>, own: seq<nat>)
    ensures |Homes(h, lives, own)| <= |own|
  {
    if own == [] {
      assert Homes(h, lives, own) == {};
    } else {
      var m := |own| - 1;
      HomesSize(h, lives, own[..m]);
      assert own == own[..m] + [own[m]];
      if Admitted(lives, own[m]) {
        assert Homes(h, lives, own) == Homes(h, lives, own[..m]) + {CopyOf(HomeOf(h, lives, own[m]))};
      } else {
        assert Homes(h, lives, own) == Homes(h, lives, own[..m]);
      }
    }
  }

  lemma OriginalParents(t: Setting, disk: Disk, p: Prefix, lives: seq<Catalog.Life>, o: Original, i: nat)
    requires HexSha(t.k.h) && Ready(t, disk, p, lives) && o in p.originals
    requires i < |CopyOf(o.path)| && CopyOf(o.path)[i] == '/'
    ensures CopyOf(o.path)[..i] in {"originals", "originals/c"} + Homes(t.k.h, lives, p.attempts)
  {
    hide Catalog.Scan, Own, RequestOriginals, Catalog.Lives, Chained, Directory, RecordPath, HexSha, CopyOf;
    if o in Records(disk, "c", p.count) {
      var k :| 0 <= k < p.count && o.path == RecordPath("c", k);
      CopyParents("c", k, i);
      assert CopyOf("c") == "originals/c" by { CatalogHome(); }
    } else {
      FromAttempt(t.k.h, disk, lives, p.attempts, o);
      var n :| n in p.attempts && Admitted(lives, n) && o in RequestRecords(t.k.h, disk, n, lives[n - 1]);
      var d := HomeOf(t.k.h, lives, n);
      var k :| 0 <= k < lives[n - 1].end.value.records && o.path == RecordPath(d, k);
      DirectoryShape(t.k.h, n, lives[n - 1].begin.key);
      DirectoryNoSlash(d);
      CopyParents(d, k, i);
      assert CopyOf(d) in Homes(t.k.h, lives, p.attempts);
    }
  }

  lemma CatalogHome()
    ensures CopyOf("c") == "originals/c"
  {
  }

  lemma ParentOf(x: Exporter, disk: Disk, p: Prefix, lives: seq<Catalog.Life>, l: Doc, name: string, i: nat)
    requires Printing(x.t) && Ready(x.t, disk, p, lives) && l.Lifecycle? && 0 < p.count <= |p.originals|
    requires AllSecure(x, p.originals)
    requires name in FilesOf(x, p, l) && i < |name| && name[i] == '/'
    ensures name[..i] in {"originals", "originals/c", "sd"} + Homes(x.t.k.h, lives, p.attempts)
  {
    hide Ready, CopyOf, SdPath, Copied, SourceDoc, LifecycleDoc, ProjectionDoc, CutDocument, IsSha, Homes;
    if name in Copied(p.originals) {
      CopiedNames(p.originals, name);
      var k :| 0 <= k < |p.originals|
               && (name == CopyOf(p.originals[k].path) || name == SdPath(p.originals[k].file.identity.acl));
      if name == CopyOf(p.originals[k].path) {
        OriginalParents(x.t, disk, p, lives, p.originals[k], i);
      } else {
        assert Secure(x, p.originals[k].file);
        assert IsSha(x.t.k.h.sha(p.originals[k].file.sd));
        SdParents(p.originals[k].file.identity.acl, i);
      }
    }
  }

  lemma DirectoriesFit(x: Exporter, disk: Disk, p: Prefix, lives: seq<Catalog.Life>, l: Doc)
    requires Printing(x.t) && Ready(x.t, disk, p, lives) && l.Lifecycle? && 0 < p.count <= |p.originals|
    requires AllSecure(x, p.originals)
    ensures |Parents(FilesOf(x, p, l).Keys)| <= |p.attempts| + 4
  {
    hide Ready, FilesOf, Homes, AllSecure, Printing;
    var fixed, homes := {"", "originals", "originals/c", "sd"}, Homes(x.t.k.h, lives, p.attempts);
    forall name, i | name in FilesOf(x, p, l).Keys && 0 <= i < |name| && name[i] == '/' ensures name[..i] in fixed + homes {
      ParentOf(x, disk, p, lives, l, name, i);
    }
    HomesSize(x.t.k.h, lives, p.attempts);
    SetBound(Parents(FilesOf(x, p, l).Keys), fixed + homes);
  }

  // ----- The theorem -----

  /**
   * Every export of an issued prefix stays within `_plan`, with room for the wrapper, in files, bytes and
   * directories: the exporter's actual-budget checks never fire.
   */
  lemma ActualWithinPlan(w: Ledger.World, x: Exporter, s: Ledger.Book, disk: Disk, session: string, l: Doc)
    requires Serves(x, w) && Approved(w.limits) && LedgerProofs.Reachable(w, s) && TakePrefix(w, s, disk, session).Some?
    requires Proven(x.t, TakePrefix(w, s, disk, session).value, l)
    requires SmallDescriptors(TakePrefix(w, s, disk, session).value.originals)
    ensures var p, plan := TakePrefix(w, s, disk, session).value, PlanOf(w.limits, x.t.k);
            && 0 < p.count <= |p.originals|
            && (Build(x, p, l).Some? ==>
                  var files := Build(x, p, l).value;
                  && |files| + 1 <= plan.files
                  && TotalSize(files) + x.t.k.maxCutBytes <= plan.bytes
                  && |Parents(files.Keys)| <= plan.directories)
  {
    hide Ready, Ledger.Sound, LedgerProofs.Reachable, Approved, FilesOf, Issuable, SumSizes, TotalSize, RawBytes, SdBytes,
         MostOriginals, CatalogReserve, SmallDescriptors, Encodes, CutDocument, SourceDoc, ProjectionDoc, LifecycleDoc,
         DocumentRefs, Listing, DistinctPaths, Matches, Parents, Printing;
    var p, lives, h := TakePrefix(w, s, disk, session).value, StoredLives(w, s, disk), x.t.k.h;
    PrintingHex(x.t);
    IssuedIsReady(w, x.t, s, disk, session);
    ReadySession(x.t, disk, p, lives);
    PrefixSize(w, x.t, s, disk, session);
    PrefixExtent(w, s, disk, session);
    if Build(x, p, l).Some? {
      FilesMatch(x, p, l);
      InventoryDistinct(x, p, l);
      ListingTotals(h, FilesOf(x, p, l), Inventory(x, p, l));
      ListingSize(h, p.originals);
      DocumentSizes(x, p, l);
      InventorySize(x, p, l);
      DirectoriesFit(x, disk, p, lives, l);
    }
  }

  lemma InventorySize(x: Exporter, p: Prefix, l: Doc)
    requires l.Lifecycle? && 0 < p.count <= |p.originals|
    ensures |Inventory(x, p, l)| == |Listing(x.t.k.h, p.originals)| + 4
    ensures SumSizes(Inventory(x, p, l))
            == SumSizes(Listing(x.t.k.h, p.originals)) + SumSizes(DocumentRefs(x, p, l)) + |x.t.k.print_(CutDocument(x, p, l))|
  {
    hide Listing, SourceDoc, LifecycleDoc, ProjectionDoc, CutDocument;
    var a, b := Listing(x.t.k.h, p.originals), DocumentRefs(x, p, l);
    var c := RefOf(x.t.k.h, "cut.json", x.t.k.print_(CutDocument(x, p, l)));
    SumConcat(a, b);
    assert (a + b + [c])[..|a + b|] == a + b;
  }

  // ----- One file in flight -----

  /** Every copied file is some original's bytes or descriptor. */
  lemma {:induction false} CopiedValues(os: seq<Original>, name: string, cap: nat)
    requires name in Copied(os) && forall i | 0 <= i < |os| :: |os[i].file.raw| <= cap && |os[i].file.sd| <= cap
    ensures |Copied(os)[name]| <= cap
  {
    hide CopyOf, SdPath;
    var m := |os| - 1;
    if name in Copied(os[..m]) { CopiedValues(os[..m], name, cap); }
  }

  lemma ChainRecordsSmall(t: Setting, disk: Disk, lives: seq<Catalog.Life>, n: nat, o: Original)
    requires Chained(t, disk, lives, n) && Admitted(lives, n) && o in RequestRecords(t.k.h, disk, n, lives[n - 1])
    ensures |o.file.raw| <= t.arc.maxRecordBytes
  {
    hide Archive.Scan, Directory, Archive.Parse;
    var chain := RequestRecords(t.k.h, disk, n, lives[n - 1]);
    Archive.ScanIsLegal(t.arc, Raws(chain));
    var i :| 0 <= i < |chain| && chain[i] == o;
    assert Archive.Lawful(t.arc, Raws(chain), i);
    Archive.ParseIsCanonical(t.arc, Raws(chain)[i]);
  }

  lemma PendingCovers(l: Limits, k: Codec)
    ensures var pending := PlanOf(l, k).pending;
            && k.maxCutBytes <= pending && k.maxProofBytes <= pending && k.maxSourceBytes <= pending
            && l.request.maxRecordBytes <= pending && l.maxCatalogRecordBytes <= pending && MAX_SD_BYTES <= pending
  {
    hide MostOriginals, CatalogReserve;
  }

  lemma OriginalsWithinPending(w: Ledger.World, t: Setting, s: Ledger.Book, disk: Disk, session: string, i: nat)
    requires Ledger.Sound(w) && Approved(w.limits) && LedgerProofs.Reachable(w, s)
    requires t.cat == w.cat && t.arc == w.arc && t.k.h == w.cat.h
    requires TakePrefix(w, s, disk, session).Some? && i < |TakePrefix(w, s, disk, session).value.originals|
    ensures |TakePrefix(w, s, disk, session).value.originals[i].file.raw| <= PlanOf(w.limits, t.k).pending
  {
    hide Catalog.Scan, Own, Issuable, RequestOriginals, Approved, Chained, LedgerProofs.Reachable, Catalog.Lives, PlanOf;
    var p, lives := TakePrefix(w, s, disk, session).value, StoredLives(w, s, disk);
    IssuedIsReady(w, t, s, disk, session);
    PrefixExtent(w, s, disk, session);
    PendingCovers(w.limits, t.k);
    if i >= p.count {
      var o := p.originals[i];
      assert o in RequestOriginals(t.k.h, disk, lives, p.attempts);
      FromAttempt(t.k.h, disk, lives, p.attempts, o);
      var n :| n in p.attempts && Admitted(lives, n) && o in RequestRecords(t.k.h, disk, n, lives[n - 1]);
      assert Chained(t, disk, lives, n);
      ChainRecordsSmall(t, disk, lives, n, o);
    }
  }

  /** The pending reserve is enough for whichever file of an export is being written. */
  lemma EveryFileWithinPending(w: Ledger.World, x: Exporter, s: Ledger.Book, disk: Disk, session: string, l: Doc, name: string)
    requires Serves(x, w) && Approved(w.limits) && LedgerProofs.Reachable(w, s) && TakePrefix(w, s, disk, session).Some?
    requires Proven(x.t, TakePrefix(w, s, disk, session).value, l)
    requires SmallDescriptors(TakePrefix(w, s, disk, session).value.originals)
    requires var p := TakePrefix(w, s, disk, session).value;
             0 < p.count <= |p.originals| && Build(x, p, l).Some? && name in Build(x, p, l).value
    ensures |Build(x, TakePrefix(w, s, disk, session).value, l).value[name]| <= PlanOf(w.limits, x.t.k).pending
  {
    hide Ledger.Sound, LedgerProofs.Reachable, Approved, Issuable, PlanOf, Printing, Encodes, CutDocument, SourceDoc,
         ProjectionDoc, LifecycleDoc, DistinctPaths, AllSecure, Copied;
    var p := TakePrefix(w, s, disk, session).value;
    PrintingHex(x.t);
    PendingCovers(w.limits, x.t.k);
    KindsOf(x, p, l);
    EncodedFits(x.t, SourceDoc(x, p));
    EncodedFits(x.t, LifecycleDoc(p, l));
    EncodedFits(x.t, ProjectionDoc(x, p, l));
    EncodedFits(x.t, CutDocument(x, p, l));
    forall i | 0 <= i < |p.originals|
      ensures |p.originals[i].file.raw| <= PlanOf(w.limits, x.t.k).pending
              && |p.originals[i].file.sd| <= PlanOf(w.limits, x.t.k).pending {
      OriginalsWithinPending(w, x.t, s, disk, session, i);
    }
    if name in Copied(p.originals) { CopiedValues(p.originals, name, PlanOf(w.limits, x.t.k).pending); }
  }

  /** The wrapper too. */
  lemma WrapperWithinPending(l: Limits, t: Setting, d: Doc)
    requires Printing(t) && d.Export? && Encodes(t.k, d)
    ensures |t.k.print_(d)| <= PlanOf(l, t.k).pending
  {
    hide Printing, Encodes, PlanOf;
    PendingCovers(l, t.k);
    EncodedFits(t, d);
  }
}
