/** From the ledger's runs to an accepted export: the theorem over every reachable ledger. */
module ExportLedger {

  import opened Base
  import opened Cut
  import opened Export
  import opened ExportPaths
  import opened ExportFiles
  import opened ExportProofs
  import opened ExportShapes
  import opened ExportAccepts
  import Catalog
  import CatalogSpec
  import Ledger
  import LedgerProofs

  // ----- The catalog opens with the approved configuration -----

  ghost predicate Opened(w: Ledger.World, chain: seq<Bytes>) {
    chain != [] ==> Catalog.Parse(w.cat, chain[0]).Some? && Catalog.Parse(w.cat, chain[0]).value.payload == w.opening
  }

  lemma PublishOpens(w: Ledger.World, s: Ledger.Book, p: Catalog.Payload, o: Publication)
    requires Catalog.Lossless(w.cat) && Opened(w, s.chain) && (s.chain == [] ==> p == w.opening)
    ensures Opened(w, Ledger.Publish(w, s, p, o).0.chain)
  {
    hide Catalog.Lossless, Catalog.Parse, Catalog.Encode;
    var r := Catalog.Record(s.count, s.head, w.instance, p);
    if Catalog.Encode(w.cat, r).Some? { Catalog.EncodeParses(w.cat, r); }
  }

  lemma NextOpens(w: Ledger.World, s: Ledger.Book, e: Ledger.Event)
    requires Ledger.Sound(w) && LedgerProofs.Inv(w, s) && Opened(w, s.chain)
    ensures Opened(w, Ledger.Next(w, s, e).chain)
  {
    hide Ledger.Publish, Opened, Catalog.Scan, Catalog.Lossless, Ledger.Next, LedgerProofs.Inv, LedgerProofs.Due;
    LedgerProofs.NextCatalog(w, s, e);
    if !LedgerProofs.SameCatalog(s, Ledger.Next(w, s, e)) {
      if s.chain == [] { FirstIsOpening(w, s); }
      PublishOpens(w, s, LedgerProofs.Due(w, s).value, e.o);
    }
  }

  /** While nothing is confirmed, nothing but the opening record is due. */
  lemma FirstIsOpening(w: Ledger.World, s: Ledger.Book)
    requires LedgerProofs.Inv(w, s) && s.chain == [] && LedgerProofs.Due(w, s).Some?
    ensures LedgerProofs.Due(w, s).value == w.opening
  {
    hide LedgerProofs.HolderFits, LedgerProofs.CountersAgree, LedgerProofs.AttemptsAgree,
         LedgerProofs.RejectionsAgree, LedgerProofs.SeenAgree;
    assert LedgerProofs.FlagsFit(s, Catalog.Scan(w.cat, s.chain).value);
  }

  lemma {:induction false} RunOpens(w: Ledger.World, events: seq<Ledger.Event>)
    requires Ledger.Sound(w)
    ensures Opened(w, Ledger.Run(w, Ledger.INITIAL, events).chain)
  {
    hide Ledger.Sound, LedgerProofs.Inv, Opened, Ledger.Next;
    if events == [] {
      EmptyOpens(w);
    } else {
      var before := events[..|events| - 1];
      RunOpens(w, before);
      LedgerProofs.InitialHolds(w);
      LedgerProofs.RunKeeps(w, Ledger.INITIAL, before);
      NextOpens(w, Ledger.Run(w, Ledger.INITIAL, before), events[|events| - 1]);
    }
  }

  lemma EmptyOpens(w: Ledger.World)
    ensures Opened(w, Ledger.INITIAL.chain)
  {
  }

  /** The catalog a prefix read back is the ledger's own, short of a hash collision. */
  lemma PrefixIsOwnCatalog(w: Ledger.World, s: Ledger.Book, disk: Disk, session: string)
    requires Ledger.Sound(w) && LedgerProofs.Reachable(w, s) && TakePrefix(w, s, disk, session).Some?
    ensures var catalog := Raws(Records(disk, "c", s.count));
            catalog == s.chain || Collide(w.cat.h, catalog, s.chain)
  {
    hide Catalog.Scan, LedgerProofs.AttemptsAgree, LedgerProofs.RejectionsAgree, LedgerProofs.SeenAgree,
         LedgerProofs.FlagsFit, LedgerProofs.HolderFits, SameAttempts, Settled;
    LedgerProofs.ReachableHolds(w, s);
    CatalogSpec.EqualHeadsEqualCatalogs(w.cat, Raws(Records(disk, "c", s.count)), s.chain);
  }

  // ----- The theorem -----

  /** The exporter works for this ledger: same codecs, and the configuration the instance began with. */
  ghost predicate Serves(x: Exporter, w: Ledger.World) {
    && Ledger.Sound(w) && Printing(x.t) && x.t.cat == w.cat && x.t.arc == w.arc
    && w.opening.config == x.t.archiveRef && w.opening.freeze == x.t.freezeRef
  }

  lemma SecureIsConsistent(x: Exporter, os: seq<Original>)
    requires DistinctOriginals(os) && AllSecure(x, os) && !DescriptorsCollide(x.t.k.h, os)
    ensures Consistent(os)
  {
    forall i, j | 0 <= i < |os| && 0 <= j < |os| && os[i].file.identity.acl == os[j].file.identity.acl
      ensures os[i].file.sd == os[j].file.sd {
      assert Secure(x, os[i].file) && Secure(x, os[j].file);
    }
  }

  /**
   * In every reachable ledger and for every issued prefix, the file set the exporter builds is accepted
   * by the independent verifier, unless two descriptors or two catalog records collide.
   */
  lemma IssuedExportVerifies(w: Ledger.World, x: Exporter, s: Ledger.Book, disk: Disk, session: string, l: Doc)
    requires Serves(x, w) && LedgerProofs.Reachable(w, s) && TakePrefix(w, s, disk, session).Some?
    requires Proven(x.t, TakePrefix(w, s, disk, session).value, l)
    ensures var p := TakePrefix(w, s, disk, session).value;
            && 0 < p.count <= |p.originals|
            && (Build(x, p, l).Some? ==>
                  || Accepts(x.t, Build(x, p, l).value, false)
                  || DescriptorsCollide(x.t.k.h, p.originals)
                  || Collide(x.t.k.h, CatalogOf(p), s.chain))
  {
    hide Ready, Printing, Ledger.Sound, LedgerProofs.Reachable, Accepts, DescriptorsCollide, FilesOf, Encodes, SourceDoc,
         ProjectionDoc, LifecycleDoc, CutDocument, Collide, Issuable, Catalog.Parse, Catalog.Lives, RequestOriginals, HexSha;
    var p, lives := TakePrefix(w, s, disk, session).value, StoredLives(w, s, disk);
    PrintingHex(x.t);
    IssuedIsReady(w, x.t, s, disk, session);
    ReadySession(x.t, disk, p, lives);
    ReadyDistinct(x.t, disk, p, lives);
    PrefixIsOwnCatalog(w, s, disk, session);
    assert p.originals[..p.count] == Records(disk, "c", p.count);
    if Build(x, p, l).Some? && !DescriptorsCollide(x.t.k.h, p.originals) && CatalogOf(p) == s.chain {
      SecureIsConsistent(x, p.originals);
      LedgerOpens(w, s);
      BuiltIsAccepted(x, disk, p, lives, l);
    }
  }

  lemma LedgerOpens(w: Ledger.World, s: Ledger.Book)
    requires Ledger.Sound(w) && LedgerProofs.Reachable(w, s)
    ensures Opened(w, s.chain) && w.opening.InstanceBegin?
  {
    hide Opened, Ledger.Run;
    var events :| s == Ledger.Run(w, Ledger.INITIAL, events);
    RunOpens(w, events);
  }
}
