/** The native exporter: building the documents, reserving sessions, publishing and its receipts. */
module ExportClass {

  import opened Base
  import opened Names
  import opened Cut
  import opened Export
  import opened ExportPaths
  import opened ExportFiles
  import opened ExportProofs
  import opened ExportShapes
  import opened ExportAccepts
  import opened ExportLedger
  import opened ExportBudgets
  import opened Budgets
  import CutProofs
  import Catalog
  import Ledger
  import LedgerProofs

  // ----- The loop of `_documents` -----

  /** One pass over the originals fills the dictionary and the manifest, refusing at the first insecure source. */
  method CopyOriginals(x: Exporter, os: seq<Original>) returns (ok: bool, files: Files, rows: seq<SourceRow>)
    ensures ok <==> AllSecure(x, os)
    ensures ok ==> files == Copied(os) && rows == Rows(x.t.k.h, os)
  {
    ok, files, rows := true, map[], [];
    for i := 0 to |os|
      invariant AllSecure(x, os[..i])
      invariant files == Copied(os[..i]) && rows == Rows(x.t.k.h, os[..i])
    {
      if !Secure(x, os[i].file) { return false, files, rows; }
      assert os[..i + 1][..i] == os[..i];
      files := files[CopyOf(os[i].path) := os[i].file.raw][SdPath(os[i].file.identity.acl) := os[i].file.sd];
      rows := rows + [RowOf(x.t.k.h, os[i])];
    }
    assert os[..|os|] == os;
  }

  method CollectRows(h: Hashing, os: seq<Original>, lives: seq<Catalog.Life>, own: seq<nat>)
    returns (rows: seq<RequestRow>)
    ensures rows == RequestRows(h, os, lives, own)
  {
    rows := [];
    for j := 0 to |own|
      invariant rows == RequestRows(h, os, lives, own[..j])
    {
      assert own[..j + 1][..j] == own[..j];
      var n := own[j];
      if 1 <= n <= |lives| && lives[n - 1].begin.AttemptBegin? && lives[n - 1].begin.decision == Catalog.New {
        rows := rows + [RequestRow(n, RecordsOf(h, os, Directory(h, n, lives[n - 1].begin.key)))];
      }
    }
    assert own[..|own|] == own;
  }

  /** `_documents`: the built files, once the verifier and the plan have passed them. */
  function DocumentsOf(x: Exporter, plan: Plan, p: Prefix, l: Doc): Option<Files>
    requires l.Lifecycle? && 0 < p.count <= |p.originals|
  {
    match Build(x, p, l)
    case None => None
    case Some(files) =>
      if Accepts(x.t, files, false) && |files| + 1 <= plan.files
         && SumSizes(Inventory(x, p, l)) + x.t.k.maxCutBytes <= plan.bytes then Some(files) else None
  }

  method Documents(x: Exporter, plan: Plan, p: Prefix, l: Doc) returns (r: Option<Files>)
    requires l.Lifecycle? && 0 < p.count <= |p.originals|
    ensures r == DocumentsOf(x, plan, p, l)
  {
    hide Accepts, CutDocument, Shape, Listing, Copied;
    var h, k := x.t.k.h, x.t.k;
    if !DistinctPaths(SourceRefs(h, p.originals)) { return None; }
    var ok, files, manifest := CopyOriginals(x, p.originals);
    if !ok { return None; }
    var source := Source(p.instance, p.session, ConfigRef(x.t), HeadRef(p), manifest);
    var rows := CollectRows(h, p.originals, Catalog.Lives(x.t.cat, CatalogOf(p)), p.attempts);
    if !Encodes(k, source) || !Encodes(k, LifecycleDoc(p, l)) { return None; }
    files := files["source-manifest.json" := k.print_(source)]["lifecycle.json" := k.print_(LifecycleDoc(p, l))];
    var projection := Projection(p.instance, p.session, Copies(SourceRefs(h, p.originals[..p.count])), p.attempts, rows,
                                 RefOf(h, "lifecycle.json", files["lifecycle.json"]));
    if !Encodes(k, projection) { return None; }
    files := files["attempts.json" := k.print_(projection)];
    var cut := CutDocument(x, p, l);
    if !Encodes(k, cut) { return None; }
    files := files["cut.json" := k.print_(cut)];
    assert files == FilesOf(x, p, l);
    if !Accepts(x.t, files, false) || |files| + 1 > plan.files
       || SumSizes(Inventory(x, p, l)) + k.maxCutBytes > plan.bytes {
      return None;
    }
    r := Some(files);
  }

  /** For an issued prefix the verifier and the plan refuse nothing that was built, short of a collision. */
  lemma DocumentsNeverRefuse(w: Ledger.World, x: Exporter, s: Ledger.Book, disk: Disk, session: string, l: Doc)
    requires Serves(x, w) && Approved(w.limits) && LedgerProofs.Reachable(w, s) && TakePrefix(w, s, disk, session).Some?
    requires Proven(x.t, TakePrefix(w, s, disk, session).value, l)
    requires SmallDescriptors(TakePrefix(w, s, disk, session).value.originals)
    ensures var p := TakePrefix(w, s, disk, session).value;
            && 0 < p.count <= |p.originals|
            && (|| DocumentsOf(x, PlanOf(w.limits, x.t.k), p, l) == Build(x, p, l)
                || DescriptorsCollide(x.t.k.h, p.originals)
                || Collide(x.t.k.h, CatalogOf(p), s.chain))
  {
    hide TakePrefix, Accepts, Serves, Approved, LedgerProofs.Reachable, FilesOf, Encodes, DistinctPaths, AllSecure,
         DescriptorsCollide, Collide, Parents, SmallDescriptors, TotalSize, SumSizes, Inventory, PlanOf, Matches;
    var p := TakePrefix(w, s, disk, session).value;
    IssuedExportVerifies(w, x, s, disk, session, l);
    ActualWithinPlan(w, x, s, disk, session, l);
    if Build(x, p, l).Some? {
      FilesMatch(x, p, l);
      InventoryDistinct(x, p, l);
      ListingTotals(x.t.k.h, FilesOf(x, p, l), Inventory(x, p, l));
    }
  }

  /** What is built comes only from sources of the root's principal and volume whose descriptors were evaluated. */
  lemma BuiltIsSecure(x: Exporter, p: Prefix, l: Doc, i: nat)
    requires l.Lifecycle? && 0 < p.count <= |p.originals| && Build(x, p, l).Some? && i < |p.originals|
    ensures var f := p.originals[i].file;
            && f.identity.principal == x.root.principal && f.identity.volume == x.root.volume
            && x.evaluates(f.sd, f.identity.owner) && x.t.k.h.sha(f.sd) == f.identity.acl && f.sd != []
  {
    hide FilesOf, Encodes, DistinctPaths;
    assert Secure(x, p.originals[i].file);
  }

  // ----- The wrapper -----

  /** `export.json` for accepted files: the cut, and its members with the cut itself. */
  function Wrapper(t: Setting, files: Files, identity: Catalog.Identity): Doc
    requires Documented(t, files)
  {
    Export(CutOf(t, files).instance, CutOf(t, files).session, RefOf(t.k.h, "cut.json", files["cut.json"]), identity,
           AllMembers(t, files))
  }

  function Wrapped(t: Setting, files: Files, identity: Catalog.Identity): Files
    requires Documented(t, files)
  {
    files["export.json" := t.k.print_(Wrapper(t, files, identity))]
  }

  ghost predicate Within(f: Files, g: Files) {
    forall name | name in f :: name in g && f[name] == g[name]
  }

  lemma {:induction false} ExpectedWithin(t: Setting, f: Files, g: Files, lives: seq<Catalog.Life>, own: seq<nat>)
    requires Within(f, g) && Expected(t.arc, f, lives, own).Some?
    ensures Expected(t.arc, g, lives, own) == Expected(t.arc, f, lives, own)
  {
    hide RequestFits;
    if own != [] {
      var n := own[|own| - 1];
      ExpectedWithin(t, f, g, lives, own[..|own| - 1]);
      if 1 <= n <= |lives| && !Catalog.IsRefused(lives[n - 1]) {
        var refs := RequestRefs(t.arc.h, f, n, lives[n - 1]);
        assert RequestRefs(t.arc.h, g, n, lives[n - 1]) == refs;
        assert Contents(g, refs) == Contents(f, refs);
      }
    }
  }

  lemma HoldsWithin(h: Hashing, f: Files, g: Files, refs: seq<Ref>)
    requires Within(f, g) && HoldsAll(h, f, refs)
    ensures HoldsAll(h, g, refs) && Contents(g, refs) == Contents(f, refs)
  {
    forall i | 0 <= i < |refs| ensures Holds(h, g, refs[i]) && g[refs[i].path] == f[refs[i].path] {
      assert Holds(h, f, refs[i]);
    }
  }

  lemma DocumentsWithin(t: Setting, f: Files, g: Files)
    requires Within(f, g) && Documented(t, f)
    ensures Documented(t, g) && Projected(t, g) == Projected(t, f) && Manifest(t, g) == Manifest(t, f)
    ensures CutOf(t, g) == CutOf(t, f) && AllMembers(t, g) == AllMembers(t, f)
    ensures Load(t.k, g, "lifecycle.json") == Load(t.k, f, "lifecycle.json")
  {
    hide Parse, SortRefs;
  }

  lemma DerivedWithin(t: Setting, f: Files, g: Files, p: Doc, l: Doc, s: Doc, c: Doc, catalog: seq<Bytes>)
    requires Within(f, g) && p.Projection? && l.Lifecycle? && s.Source? && c.CutDoc? && catalog != []
    requires "lifecycle.json" in f && "attempts.json" in f && Derived(t, f, p, l, s, c, catalog)
    ensures Derived(t, g, p, l, s, c, catalog)
  {
    hide Expected, Catalog.Scan, Catalog.Lives, Own, Catalog.Parse;
    var lives := Catalog.Lives(t.cat, catalog);
    ExpectedWithin(t, f, g, lives, Own(lives, p.session));
  }

  lemma SourcesWithin(h: Hashing, f: Files, g: Files, sources: seq<Ref>, rows: seq<SourceRow>)
    requires Within(f, g) && SourceFits(h, f, sources, rows)
    ensures SourceFits(h, g, sources, rows)
  {
    forall i | 0 <= i < |rows|
      ensures rows[i].copy in sources && Holds(h, g, rows[i].copy) && Holds(h, g, rows[i].sd)
              && h.sha(g[rows[i].sd.path]) == rows[i].identity.acl {
      assert Holds(h, f, rows[i].copy) && Holds(h, f, rows[i].sd);
    }
  }

  lemma MembersWithin(h: Hashing, f: Files, g: Files, sources: seq<Ref>, rows: seq<SourceRow>)
    requires Within(f, g) && f.Keys >= {"source-manifest.json", "lifecycle.json", "attempts.json"}
    ensures Members(h, g, sources, rows) == Members(h, f, sources, rows)
  {
    hide SortRefs, SdRefs;
  }

  /** An accepted cut with an encodable wrapper is an accepted export. */
  lemma WrappedIsAccepted(t: Setting, f: Files, identity: Catalog.Identity)
    requires Accepts(t, f, false) && "export.json" !in f
    requires Parse(t.k, t.k.print_(Wrapper(t, f, identity))) == Some(Wrapper(t, f, identity))
    ensures Accepts(t, Wrapped(t, f, identity), true)
  {
    hide Derived, SourceFits, Members, SortRefs, Projected, Manifest, CutOf, AllMembers, Parse, Sources;
    var g, p, s, h := Wrapped(t, f, identity), Projected(t, f), Manifest(t, f), t.k.h;
    assert Within(f, g);
    DocumentsWithin(t, f, g);
    HoldsWithin(h, f, g, p.prefix);
    DerivedWithin(t, f, g, p, Load(t.k, f, "lifecycle.json").value, s, CutOf(t, f), StoredCatalog(h, f, p).value);
    SourcesWithin(h, f, g, Sources(p), s.files);
    MembersWithin(h, f, g, Sources(p), s.files);
    HoldsWithin(h, f, g, AllMembers(t, f));
    SameSession(t, f);
  }

  lemma SameSession(t: Setting, f: Files)
    requires Accepts(t, f, false)
    ensures CutOf(t, f).instance == Projected(t, f).instance && CutOf(t, f).session == Projected(t, f).session
  {
    hide Documented, SourceFits, Members, Projected, Manifest, CutOf, AllMembers, Sources, Expected, Catalog.Scan;
  }

  lemma WrapperIsNew(x: Exporter, p: Prefix, l: Doc)
    requires l.Lifecycle? && 0 < p.count <= |p.originals|
    ensures "export.json" !in FilesOf(x, p, l)
  {
    hide Copied, SourceDoc, LifecycleDoc, ProjectionDoc, CutDocument;
    DocumentsAbsent(p.originals, "export.json");
  }

  // ----- Totals over sessions -----

  ghost function SumOver(m: map<string, Files>, size: Files -> nat): nat {
    if m == map[] then 0
    else
      var name :| name in m;
      SumOver(m - {name}, size) + size(m[name])
  }

  lemma {:induction false} SumOverBound(m: map<string, Files>, size: Files -> nat, cap: nat)
    requires forall name | name in m :: size(m[name]) <= cap
    ensures SumOver(m, size) <= |m| * cap
    decreases |m|
  {
    if m != map[] {
      var name :| name in m && SumOver(m, size) == SumOver(m - {name}, size) + size(m[name]);
      SumOverBound(m - {name}, size, cap);
      assert (m - {name}).Keys == m.Keys - {name};
      Distribute(|m|, cap);
    }
  }

  // ----- The exporter -----

  /** The approved limits on everything this instance may export. */
  datatype Allowance = Allowance(maxSessions: nat, maxFiles: nat, maxDirectories: nat, maxBytes: nat, minFree: nat)

  /** The startup gate: the limits hold `maxSessions` whole plans. */
  predicate Affords(b: Allowance, plan: Plan) {
    && b.maxFiles >= b.maxSessions * plan.files
    && b.maxDirectories >= 1 + b.maxSessions * plan.directories
    && b.maxBytes >= b.maxSessions * plan.bytes + plan.pending
  }

  predicate Fits(b: Allowance, plan: Plan, count: nat) {
    && count <= b.maxSessions
    && count * plan.files <= b.maxFiles
    && 1 + count * plan.directories <= b.maxDirectories
    && count * plan.bytes + plan.pending <= b.maxBytes
  }

  lemma AffordedFits(b: Allowance, plan: Plan, count: nat)
    requires Affords(b, plan)
    ensures Fits(b, plan, count) <==> count <= b.maxSessions
  {
    if count <= b.maxSessions {
      Widen(count, b.maxSessions, plan.files);
      Widen(count, b.maxSessions, plan.directories);
      Widen(count, b.maxSessions, plan.bytes);
    }
  }

  /** One published export: accepted with its wrapper, and within the plan. */
  ghost predicate Sealed(t: Setting, plan: Plan, files: Files, receipt: Ref) {
    && Accepts(t, files, true)
    && LinkOfRef(receipt) == LinkOf(t.k.h, files["cut.json"])
    && |files| <= plan.files && TotalSize(files) <= plan.bytes && |Parents(files.Keys)| <= plan.directories
  }

  function FileCount(files: Files): nat { |files| }

  function DirectoryCount(files: Files): nat { |Parents(files.Keys)| }

  /** All published sessions together stay within the approved export limits. */
  lemma PublishedWithinLimits(t: Setting, plan: Plan, b: Allowance, reserved: set<string>, completed: map<string, Ref>,
                              published: map<string, Files>)
    requires completed.Keys == published.Keys <= reserved && reserved != {} && Fits(b, plan, |reserved|)
    requires forall session | session in completed :: Sealed(t, plan, published[session], completed[session])
    ensures SumOver(published, FileCount) <= b.maxFiles
    ensures SumOver(published, TotalSize) + plan.pending <= b.maxBytes
    ensures 1 + SumOver(published, DirectoryCount) <= b.maxDirectories
  {
    hide Accepts, SumOver, Parents;
    SetBound(published.Keys, reserved);
    SumOverBound(published, FileCount, plan.files);
    SumOverBound(published, TotalSize, plan.bytes);
    SumOverBound(published, DirectoryCount, plan.directories);
    Widen(|published|, |reserved|, plan.files);
    Widen(|published|, |reserved|, plan.bytes);
    Widen(|published|, |reserved|, plan.directories);
  }

  /** What the native calls of one publication answered. */
  datatype Native = Native(reachable: bool, paths: bool, written: bool, identity: Catalog.Identity, wrapped: bool)

  class NativeExporter {
    const x: Exporter
    const plan: Plan
    const allowance: Allowance
    var reservations: set<string>
    var completed: map<string, Ref>
    var pending: nat
    /** History: the files behind each receipt. */
    ghost var published: map<string, Files>

    ghost predicate Valid()
      reads this
    {
      && Printing(x.t)
      && (reservations != {} ==> Fits(allowance, plan, |reservations|))
      && completed.Keys == published.Keys <= reservations
      && pending == 0
      && forall session | session in completed :: Sealed(x.t, plan, published[session], completed[session])
    }

    constructor (x: Exporter, plan: Plan, allowance: Allowance)
      requires Printing(x.t)
      ensures Valid() && this.x == x && this.plan == plan && this.allowance == allowance
      ensures reservations == {} && completed == map[]
    {
      this.x, this.plan, this.allowance := x, plan, allowance;
      reservations, completed, pending, published := {}, map[], 0, map[];
    }

    /** Under afforded limits only a repeated session, a full house or a native answer refuses. */
    method Reserve(session: string, available: bool, free: nat, paths: bool) returns (ok: bool)
      requires Valid()
      modifies this`reservations
      ensures Valid()
      ensures reservations == if ok then old(reservations) + {session} else old(reservations)
      ensures ok <==> && session != "" && available && session !in old(reservations) && paths
                      && Fits(allowance, plan, |old(reservations)| + 1)
                      && free >= allowance.minFree + (|old(reservations)| + 1) * plan.bytes + plan.pending
      ensures Affords(allowance, plan) ==>
                (ok <==> && session != "" && session !in old(reservations) && available && paths
                         && |old(reservations)| < allowance.maxSessions
                         && free >= allowance.minFree + (|old(reservations)| + 1) * plan.bytes + plan.pending)
    {
      hide Sealed, Printing;
      var count := |reservations| + 1;
      if Affords(allowance, plan) { AffordedFits(allowance, plan, count); }
      ok := session != "" && available && session !in reservations && Fits(allowance, plan, count)
            && free >= allowance.minFree + count * plan.bytes + plan.pending && paths;
      if ok { reservations := reservations + {session}; }
    }

    /**
     * A receipt is issued exactly when every native step answered, for a reserved session that has none;
     * a failure after the documents were built poisons the ledger, one before it does not.
     */
    method Publish(p: Prefix, l: Doc, name: string, o: Native) returns (receipt: Option<Ref>, poisons: bool)
      requires Valid() && l.Lifecycle? && 0 < p.count <= |p.originals|
      modifies this`completed, this`pending, this`published
      ensures Valid()
      ensures receipt == None ==> completed == old(completed) && published == old(published)
      ensures receipt.Some? ==>
                && p.session in reservations && p.session !in old(completed)
                && completed == old(completed)[p.session := receipt.value]
                && published == old(published)[p.session := published[p.session]]
                && DocumentsOf(x, plan, p, l).Some? && Documented(x.t, DocumentsOf(x, plan, p, l).value)
                && published[p.session] == Wrapped(x.t, DocumentsOf(x, plan, p, l).value, o.identity)
                && receipt.value == RefOf(x.t.k.h, name, DocumentsOf(x, plan, p, l).value["cut.json"])
      ensures poisons <==> Started(p, l, o, old(completed)) && receipt == None
      ensures receipt.Some? <==>
                && Started(p, l, o, old(completed)) && o.written && o.wrapped
                && |Parents(DocumentsOf(x, plan, p, l).value.Keys)| <= plan.directories
                && Documented(x.t, DocumentsOf(x, plan, p, l).value)
                && Encodes(x.t.k, Wrapper(x.t, DocumentsOf(x, plan, p, l).value, o.identity))
    {
      hide Sealed, Printing, Accepts, DocumentsOf, Documented, Parents, Encodes, Wrapper, Wrapped, Fits, FilesOf, RefOf;
      receipt, poisons := None, false;
      if p.session !in reservations || p.session in completed || !o.reachable { return; }
      var built := Documents(x, plan, p, l);
      if built == None || !o.paths { return; }
      var files := built.value;
      BuiltFiles(x, plan, p, l);
      pending := plan.pending;
      if |Parents(files.Keys)| > plan.directories || !o.written || !Accepts(x.t, files, false)
         || !Encodes(x.t.k, Wrapper(x.t, files, o.identity)) || !o.wrapped {
        pending, poisons := 0, true;
        return;
      }
      PublishedIsSealed(x, plan, p, l, o.identity, name);
      var cut := RefOf(x.t.k.h, name, files["cut.json"]);
      completed, receipt := completed[p.session := cut], Some(cut);
      published := published[p.session := Wrapped(x.t, files, o.identity)];
      pending := 0;
    }

    /** The publication got past its documents. */
    ghost predicate Started(p: Prefix, l: Doc, o: Native, done: map<string, Ref>)
      requires l.Lifecycle? && 0 < p.count <= |p.originals|
      reads this
    {
      && p.session in reservations && p.session !in done && o.reachable && o.paths
      && DocumentsOf(x, plan, p, l).Some?
    }

    /** A receipt pins every byte: any accepted map with its cut agrees with the published one. */
    lemma ReceiptPins(session: string, files: Files, exported: bool)
      requires Valid() && session in completed && Accepts(x.t, files, exported)
      requires LinkOf(x.t.k.h, files["cut.json"]) == LinkOfRef(completed[session])
      ensures CutProofs.AgreeOffExport(published[session], files)
              || CutProofs.FilesCollide(x.t.k.h, published[session], files)
    {
      hide Accepts, Printing;
      assert Sealed(x.t, plan, published[session], completed[session]);
      CutProofs.EqualCutsEqualFiles(x.t, published[session], files, true, exported);
    }
  }

  lemma BuiltFiles(x: Exporter, plan: Plan, p: Prefix, l: Doc)
    requires l.Lifecycle? && 0 < p.count <= |p.originals| && DocumentsOf(x, plan, p, l).Some?
    ensures DocumentsOf(x, plan, p, l).value == FilesOf(x, p, l) && "cut.json" in FilesOf(x, p, l)
    ensures Documented(x.t, FilesOf(x, p, l)) && Accepts(x.t, FilesOf(x, p, l), false)
  {
    hide SourceDoc, LifecycleDoc, ProjectionDoc, CutDocument, Derived, SourceFits, Members, Copied, Documented;
  }

  lemma PublishedIsSealed(x: Exporter, plan: Plan, p: Prefix, l: Doc, identity: Catalog.Identity, name: string)
    requires Printing(x.t) && l.Lifecycle? && 0 < p.count <= |p.originals| && DocumentsOf(x, plan, p, l).Some?
    requires Documented(x.t, FilesOf(x, p, l)) && "cut.json" in FilesOf(x, p, l)
    requires Encodes(x.t.k, Wrapper(x.t, FilesOf(x, p, l), identity))
    requires |Parents(FilesOf(x, p, l).Keys)| <= plan.directories
    ensures Sealed(x.t, plan, Wrapped(x.t, FilesOf(x, p, l), identity), RefOf(x.t.k.h, name, FilesOf(x, p, l)["cut.json"]))
  {
    hide Accepts, FilesOf, Documented, Matches, Inventory, Wrapper, Printing, Parents, TotalSize, SumSizes, Encodes;
    var files, h := FilesOf(x, p, l), x.t.k.h;
    var e := Wrapper(x.t, files, identity);
    BuiltFiles(x, plan, p, l);
    WrapperIsNew(x, p, l);
    EncodedParses(x.t, e);
    WrappedIsAccepted(x.t, files, identity);
    FilesMatch(x, p, l);
    InventoryDistinct(x, p, l);
    ListingTotals(h, files, Inventory(x, p, l));
    var all := Wrapped(x.t, files, identity);
    TotalSizeSplit(all, "export.json");
    assert all - {"export.json"} == files;
    WrapperKind(x.t, files, identity);
    EncodedFits(x.t, e);
    WrapperParents(files.Keys, all.Keys);
  }

  lemma WrapperKind(t: Setting, files: Files, identity: Catalog.Identity)
    requires Documented(t, files)
    ensures Wrapper(t, files, identity).Export?
  {
  }

  lemma WrapperParents(names: set<string>, all: set<string>)
    requires all == names + {"export.json"}
    ensures Parents(all) == Parents(names)
  {
  }

  lemma EncodedParses(t: Setting, d: Doc)
    requires Printing(t) && Encodes(t.k, d)
    ensures Parse(t.k, t.k.print_(d)) == Some(d)
  {
    hide Shape, HexSha;
    assert t.k.loads(t.k.print_(d)) == Some(d);
  }
}
